/** UI frames: the 20-byte header and payload on the wire, the decoder over the fixed receive buffer, and
    the sender under partial writes. */
module UiProto {
  import opened Common

  type u16 = x: int | 0 <= x < 0x1_0000
  type u32 = x: int | 0 <= x < 0x1_0000_0000

  const MAGIC: u32 := 0x5549_4D47
  const VERSION: u16 := 1
  const RX_BUF_CAP := 4096
  const PAYLOAD_MAX := 1024
  const HDR_SIZE := 20
  const PENDING_MAX := HDR_SIZE + PAYLOAD_MAX - 1

  const FRAME_HELLO := 1
  const FRAME_HELLO_ACK := 2
  const FRAME_PING := 10
  const FRAME_PONG := 11
  const FRAME_NOTIFY_SNAPSHOT := 20
  const FRAME_LOG_CHUNK := 30

  const EAGAIN := 11
  const EINVAL := 22
  const ENOSPC := 28
  const EPIPE := 32
  const EPROTO := 71
  const EMSGSIZE := 90

  datatype Hdr = Hdr(magic: u32, version: u16, kind: u16, payloadLen: u32, flags: u32, reserved: u32)

  datatype Frame = Frame(hdr: Hdr, payload: seq<byte>)

  // ---- header bytes ------------------------------------------------------------------------------

  function Put16(x: u16): (b: seq<byte>)
    ensures |b| == 2
  {
    [x % 256, x / 256]
  }

  function Put32(x: u32): (b: seq<byte>)
    ensures |b| == 4
  {
    [x % 256, x / 256 % 256, x / 256 / 256 % 256, x / 256 / 256 / 256]
  }

  function Get16(b: seq<byte>, at: nat): u16
    requires at + 2 <= |b|
  {
    b[at] as int + 256 * (b[at + 1] as int)
  }

  function Get32(b: seq<byte>, at: nat): u32
    requires at + 4 <= |b|
  {
    b[at] as int + 256 * (b[at + 1] as int + 256 * (b[at + 2] as int + 256 * (b[at + 3] as int)))
  }

  function PutHdr(h: Hdr): (b: seq<byte>)
    ensures |b| == HDR_SIZE
  {
    Put32(h.magic) + Put16(h.version) + Put16(h.kind) + Put32(h.payloadLen) + Put32(h.flags) + Put32(h.reserved)
  }

  function GetHdr(b: seq<byte>): Hdr
    requires |b| >= HDR_SIZE
  {
    Hdr(Get32(b, 0), Get16(b, 4), Get16(b, 6), Get32(b, 8), Get32(b, 12), Get32(b, 16))
  }

  /** Reading a header back gives all its fields, whatever follows it. */
  lemma HdrRoundTrip(h: Hdr, rest: seq<byte>)
    ensures GetHdr(PutHdr(h) + rest) == h
  {
  }

  lemma SameHdr(b: seq<byte>, c: seq<byte>)
    requires |b| >= HDR_SIZE
    ensures GetHdr(b + c) == GetHdr(b)
  {
  }

  /** The number whose least significant byte comes first. */
  function LittleEndian(b: seq<byte>): nat {
    if b == [] then 0 else b[0] as nat + 256 * LittleEndian(b[1..])
  }

  lemma LittleEndian32(b: seq<byte>)
    requires |b| == 4
    ensures LittleEndian(b) == Get32(b, 0)
  {
    assert b[1..][1..] == b[2..] && b[2..][1..] == b[3..] && b[3..][1..] == [];
    assert LittleEndian(b[3..]) == b[3] as nat;
    assert LittleEndian(b[2..]) == b[2] as nat + 256 * LittleEndian(b[3..]);
    assert LittleEndian(b[1..]) == b[1] as nat + 256 * LittleEndian(b[2..]);
  }

  lemma LittleEndian16(b: seq<byte>)
    requires |b| == 2
    ensures LittleEndian(b) == Get16(b, 0)
  {
    assert b[1..][1..] == [];
    assert LittleEndian(b[1..]) == b[1] as nat;
  }

  lemma SlicesAreRead(b: seq<byte>, at: nat)
    ensures at + 4 <= |b| ==> LittleEndian(b[at..at + 4]) == Get32(b, at)
    ensures at + 2 <= |b| ==> LittleEndian(b[at..at + 2]) == Get16(b, at)
  {
    if at + 4 <= |b| { LittleEndian32(b[at..at + 4]); }
    if at + 2 <= |b| { LittleEndian16(b[at..at + 2]); }
  }

  /** Where the header fields are: packed one behind the other, least significant byte first. */
  lemma HdrLayout(h: Hdr)
    ensures var b := PutHdr(h);
            && LittleEndian(b[0..4]) == h.magic && LittleEndian(b[4..6]) == h.version
            && LittleEndian(b[6..8]) == h.kind && LittleEndian(b[8..12]) == h.payloadLen
            && LittleEndian(b[12..16]) == h.flags && LittleEndian(b[16..20]) == h.reserved
  {
    var b := PutHdr(h);
    HdrRoundTrip(h, []);
    assert b + [] == b;
    hide PutHdr, LittleEndian, Get32, Get16;
    SlicesAreRead(b, 0);
    SlicesAreRead(b, 4);
    SlicesAreRead(b, 6);
    SlicesAreRead(b, 8);
    SlicesAreRead(b, 12);
    SlicesAreRead(b, 16);
  }

  predicate ValidKind(kind: int) {
    kind in {FRAME_HELLO, FRAME_HELLO_ACK, FRAME_PING, FRAME_PONG, FRAME_NOTIFY_SNAPSHOT, FRAME_LOG_CHUNK}
  }

  /** Whatever else is wrong with it, a header of another magic, version or kind is a protocol error. */
  function ValidateHdr(h: Hdr): (rc: int)
    ensures rc == -EPROTO <==> !(h.magic == MAGIC && h.version == VERSION && ValidKind(h.kind))
    ensures rc == 0 <==> h.magic == MAGIC && h.version == VERSION && ValidKind(h.kind) && h.payloadLen <= PAYLOAD_MAX
    ensures rc in {0, -EPROTO, -EMSGSIZE}
  {
    if h.magic != MAGIC then -EPROTO
    else if h.version != VERSION then -EPROTO
    else if !ValidKind(h.kind) then -EPROTO
    else if h.payloadLen > PAYLOAD_MAX then -EMSGSIZE
    else 0
  }

  // ---- decoding ----------------------------------------------------------------------------------

  datatype Parsed =
    | NeedMore
    | BadHeader(rc: int)
    | OverCap
    | Got(frame: Frame, rest: seq<byte>)

  function Parse(b: seq<byte>, cap: nat): (r: Parsed)
    ensures r.Got? ==> |r.rest| < |b|
    ensures r.BadHeader? ==> r.rc < 0
  {
    if |b| < HDR_SIZE then NeedMore
    else
      var h := GetHdr(b);
      var total := HDR_SIZE + h.payloadLen;
      if ValidateHdr(h) != 0 then BadHeader(ValidateHdr(h))
      else if |b| < total then NeedMore
      else if h.payloadLen > cap then OverCap
      else Got(Frame(h, b[HDR_SIZE..total]), b[total..])
  }

  /** Decoding ends with unconsumed bytes that are no whole frame yet, or at a bad header. */
  datatype Outcome = Pending(rest: seq<byte>) | Failed(rc: int)

  function Decode(s: seq<byte>): (seq<Frame>, Outcome)
    decreases |s|
  {
    match Parse(s, PAYLOAD_MAX)
    case NeedMore => ([], Pending(s))
    case BadHeader(rc) => ([], Failed(rc))
    case OverCap => ([], Failed(-EMSGSIZE))
    case Got(f, rest) =>
      var (fs, o) := Decode(rest);
      ([f] + fs, o)
  }

  lemma PendingIsShort(b: seq<byte>, cap: nat)
    requires cap >= PAYLOAD_MAX
    ensures Parse(b, cap) == NeedMore ==> |b| <= PENDING_MAX
    ensures Parse(b, cap) != OverCap
  {
  }

  lemma {:induction false} DecodeLeavesLittle(s: seq<byte>)
    ensures Decode(s).1.Pending? ==>
              |Decode(s).1.rest| <= PENDING_MAX && Parse(Decode(s).1.rest, PAYLOAD_MAX) == NeedMore
    decreases |s|
  {
    var p := Parse(s, PAYLOAD_MAX);
    if p.Got? { DecodeLeavesLittle(p.rest); }
  }

  /** More bytes behind a frame or a bad header do not change what is parsed in front. */
  lemma ParseIsStable(b: seq<byte>, c: seq<byte>, cap: nat)
    ensures Parse(b, cap).Got? ==> Parse(b + c, cap) == Got(Parse(b, cap).frame, Parse(b, cap).rest + c)
    ensures Parse(b, cap).BadHeader? ==> Parse(b + c, cap) == Parse(b, cap)
  {
    if |b| >= HDR_SIZE {
      SameHdr(b, c);
      hide GetHdr;
      var total := HDR_SIZE + GetHdr(b).payloadLen;
      if total <= |b| {
        assert (b + c)[HDR_SIZE..total] == b[HDR_SIZE..total];
        assert (b + c)[total..] == b[total..] + c;
      }
    }
  }

  /** What a decoder holds after some input: the frames so far and its outcome so far. */
  function Resumed(fs: seq<Frame>, o: Outcome, more: seq<byte>): (seq<Frame>, Outcome) {
    if o.Failed? then (fs, o)
    else
      var (gs, o') := Decode(o.rest + more);
      (fs + gs, o')
  }

  lemma {:induction false} DecodeResumes(s: seq<byte>, t: seq<byte>)
    ensures Decode(s + t) == Resumed(Decode(s).0, Decode(s).1, t)
    decreases |s|
  {
    hide Parse;
    ParseIsStable(s, t, PAYLOAD_MAX);
    PendingIsShort(s, PAYLOAD_MAX);
    var p := Parse(s, PAYLOAD_MAX);
    if p.Got? {
      DecodeResumes(p.rest, t);
      var (fs, o) := Decode(p.rest);
      if o.Pending? {
        var more := Decode(o.rest + t).0;
        assert [p.frame] + fs + more == [p.frame] + (fs + more);
      }
    } else if p.NeedMore? {
      assert [] + Decode(s + t).0 == Decode(s + t).0;
    }
  }

  /** The receive loop: append a chunk to the buffer, fail if it does not fit, drain the buffer. */
  function Fed(fs: seq<Frame>, o: Outcome, chunk: seq<byte>): (seq<Frame>, Outcome) {
    if o.Pending? && |o.rest| + |chunk| > RX_BUF_CAP then (fs, Failed(-ENOSPC)) else Resumed(fs, o, chunk)
  }

  function FedAll(chunks: seq<seq<byte>>): (seq<Frame>, Outcome) {
    if chunks == [] then ([], Pending([]))
    else
      var (fs, o) := FedAll(chunks[..|chunks| - 1]);
      Fed(fs, o, chunks[|chunks| - 1])
  }

  function Joined(chunks: seq<seq<byte>>): seq<byte> {
    if chunks == [] then [] else Joined(chunks[..|chunks| - 1]) + chunks[|chunks| - 1]
  }

  /** The guard of the append: before each chunk, as long as no bad header has been met, the unconsumed bytes
      leave room for it. */
  predicate Roomy(chunks: seq<seq<byte>>) {
    chunks == []
    || (var front, last := chunks[..|chunks| - 1], chunks[|chunks| - 1];
        var o := Decode(Joined(front)).1;
        Roomy(front) && (o.Pending? ==> |o.rest| + |last| <= RX_BUF_CAP))
  }

  lemma {:induction false} DecodeFaults(s: seq<byte>)
    ensures Decode(s).1 != Failed(-ENOSPC)
    decreases |s|
  {
    var p := Parse(s, PAYLOAD_MAX);
    if p.Got? { DecodeFaults(p.rest); }
  }

  /** A chunking gives the frames, the error and the unconsumed bytes of decoding the stream at once exactly if
      every chunk finds room. If one does not, the loop ends there with ENOSPC, having yielded the first frames of
      the stream. */
  lemma {:induction false} ChunkingDoesNotMatter(chunks: seq<seq<byte>>)
    ensures FedAll(chunks) == Decode(Joined(chunks)) <==> Roomy(chunks)
    ensures !Roomy(chunks) ==> FedAll(chunks).1 == Failed(-ENOSPC)
    ensures FedAll(chunks).0 <= Decode(Joined(chunks)).0
    decreases |chunks|
  {
    hide Decode;
    if chunks == [] {
      NoChunks();
    } else {
      var front, last := chunks[..|chunks| - 1], chunks[|chunks| - 1];
      ChunkingDoesNotMatter(front);
      DecodeFaults(Joined(chunks));
      DecodeResumes(Joined(front), last);
    }
  }

  lemma NoChunks()
    ensures Decode([]) == ([], Pending([]))
  {
  }

  /** Chunks that fit beside the longest possible unfinished frame always find room. */
  lemma {:induction false} SmallChunksAreRoomy(chunks: seq<seq<byte>>)
    requires forall i :: 0 <= i < |chunks| ==> |chunks[i]| <= RX_BUF_CAP - PENDING_MAX
    ensures Roomy(chunks)
    decreases |chunks|
  {
    hide Decode;
    if chunks != [] {
      SmallChunksAreRoomy(chunks[..|chunks| - 1]);
      DecodeLeavesLittle(Joined(chunks[..|chunks| - 1]));
    }
  }

  /** That bound cannot be raised: an unfinished frame may fill `PENDING_MAX` bytes, and then a chunk
      longer by one byte is refused although decoding the stream at once meets no bad header there. */
  lemma {:induction false} LongerChunksMayNotFit(flags: u32, more: seq<byte>)
    requires |more| == RX_BUF_CAP - PENDING_MAX + 1
    ensures var first := PutHdr(Hdr(MAGIC, VERSION, FRAME_PONG, PAYLOAD_MAX, flags, 0))
                         + seq(PAYLOAD_MAX - 1, i => 0);
            |first| == PENDING_MAX && Decode(first) == ([], Pending(first))
            && FedAll([first, more]) == ([], Failed(-ENOSPC))
            && Decode(first + more).0 != []
  {
    var h := Hdr(MAGIC, VERSION, FRAME_PONG, PAYLOAD_MAX, flags, 0);
    var fill: seq<byte> := seq(PAYLOAD_MAX - 1, i => 0);
    UnfinishedFrame(h, fill, more);
    TwoChunks(PutHdr(h) + fill, more);
  }

  lemma UnfinishedFrame(h: Hdr, fill: seq<byte>, more: seq<byte>)
    requires ValidateHdr(h) == 0 && |fill| < h.payloadLen <= |fill| + |more|
    ensures Decode(PutHdr(h) + fill) == ([], Pending(PutHdr(h) + fill))
    ensures Decode(PutHdr(h) + fill + more).0 != []
  {
    hide PutHdr, GetHdr;
    HdrRoundTrip(h, fill);
    HdrRoundTrip(h, fill + more);
    assert PutHdr(h) + (fill + more) == PutHdr(h) + fill + more;
  }

  lemma TwoChunks(a: seq<byte>, b: seq<byte>)
    requires |a| <= RX_BUF_CAP < |a| + |b| && Decode(a) == ([], Pending(a))
    ensures FedAll([a, b]) == ([], Failed(-ENOSPC))
  {
    hide Decode;
    var none: seq<seq<byte>> := [];
    var no: seq<byte> := [];
    var nf: seq<Frame> := [];
    assert [a, b][..1] == [a] && [a][..0] == none;
    assert no + a == a && nf + nf == nf;
    assert FedAll(none) == (nf, Pending(no));
    assert FedAll([a]) == Fed(nf, Pending(no), a) == (nf, Pending(a));
  }

  // ---- sending -----------------------------------------------------------------------------------

  /** Results of `write`: some bytes taken (never more than offered), none, interrupted, or an error. */
  datatype WriteRes = Wrote(n: nat) | WroteNone | Interrupted | WouldBlock | WriteErr(errno: nat)

  /** `Unfinished`: the call has used up the results given and has not returned. */
  datatype SendRc = Sent | SendFailed(rc: int) | Unfinished

  datatype SendOut = SendOut(wire: seq<byte>, rc: SendRc, left: seq<WriteRes>)

  function Clipped(n: nat, len: nat): nat {
    if n > len then len else n
  }

  function SendAll(data: seq<byte>, results: seq<WriteRes>): SendOut
    decreases |results|
  {
    if data == [] then SendOut([], Sent, results)
    else if results == [] then SendOut([], Unfinished, [])
    else match results[0]
      case Interrupted => SendAll(data, results[1..])
      case WouldBlock => SendOut([], SendFailed(-EAGAIN), results[1..])
      case WriteErr(e) => SendOut([], SendFailed(-(e as int)), results[1..])
      case WroteNone => SendOut([], SendFailed(-EPIPE), results[1..])
      case Wrote(n) =>
        var k := Clipped(n, |data|);
        if k == 0 then SendOut([], SendFailed(-EPIPE), results[1..])
        else
          var o := SendAll(data[k..], results[1..]);
          o.(wire := data[..k] + o.wire)
  }

  /** Success puts exactly the data on the wire; anything else only a proper prefix. */
  lemma {:induction false} SendAllWire(data: seq<byte>, results: seq<WriteRes>)
    ensures var o := SendAll(data, results);
            o.wire <= data && (o.rc == Sent <==> o.wire == data)
    decreases |results|
  {
    if data != [] && results != [] {
      if results[0].Interrupted? {
        SendAllWire(data, results[1..]);
      } else if results[0].Wrote? && Clipped(results[0].n, |data|) > 0 {
        var k := Clipped(results[0].n, |data|);
        SendAllWire(data[k..], results[1..]);
        var o := SendAll(data[k..], results[1..]);
        assert data == data[..k] + data[k..];
        if o.wire == data[k..] {
        } else {
          assert |data[..k] + o.wire| < |data|;
        }
      }
    }
  }

  /** How many bytes these results take before one that ends the loop; and what that one makes it return. */
  function Progress(results: seq<WriteRes>): nat {
    if results == [] then 0
    else match results[0]
      case Interrupted => Progress(results[1..])
      case Wrote(n) => if n == 0 then 0 else n + Progress(results[1..])
      case _ => 0
  }

  function Verdict(results: seq<WriteRes>): (rc: SendRc)
    ensures rc != Sent
  {
    if results == [] then Unfinished
    else match results[0]
      case Interrupted => Verdict(results[1..])
      case Wrote(n) => if n == 0 then SendFailed(-EPIPE) else Verdict(results[1..])
      case WroteNone => SendFailed(-EPIPE)
      case WouldBlock => SendFailed(-EAGAIN)
      case WriteErr(e) => SendFailed(-(e as int))
  }

  /** The loop succeeds exactly if the results take all the data; otherwise it returns the first error. */
  lemma {:induction false} SendAllMeans(data: seq<byte>, results: seq<WriteRes>)
    ensures var o := SendAll(data, results);
            && o.rc == (if Progress(results) >= |data| then Sent else Verdict(results))
            && |o.wire| == Min(|data|, Progress(results))
    decreases |results|
  {
    if data != [] && results != [] {
      match results[0]
      case Interrupted => SendAllMeans(data, results[1..]);
      case Wrote(n) => if n > 0 { SendAllMeans(data[Clipped(n, |data|)..], results[1..]); }
      case _ =>
    }
  }

  /** Results that are no errors and take something each time they are not interruptions. */
  predicate Willing(results: seq<WriteRes>) {
    forall i :: 0 <= i < |results| ==> results[i].Interrupted? || (results[i].Wrote? && results[i].n > 0)
  }

  function Writes(results: seq<WriteRes>): nat {
    if results == [] then 0 else (if results[0].Wrote? then 1 else 0) + Writes(results[1..])
  }

  lemma {:induction false} WillingSend(data: seq<byte>, results: seq<WriteRes>)
    requires Willing(results) && Writes(results) >= |data|
    ensures var o := SendAll(data, results);
            o.rc == Sent && Willing(o.left) && Writes(o.left) >= Writes(results) - |data|
    decreases |results|
  {
    if data != [] {
      var rest := results[1..];
      if results[0].Interrupted? {
        WillingSend(data, rest);
      } else {
        WillingSend(data[Min(results[0].n, |data|)..], rest);
      }
    }
  }

  datatype SendReq = SendReq(kind: u16, flags: u32, payload: seq<byte>)

  function FrameOf(r: SendReq): Frame
    requires |r.payload| <= PAYLOAD_MAX
  {
    Frame(Hdr(MAGIC, VERSION, r.kind, |r.payload|, r.flags, 0), r.payload)
  }

  function Bytes(f: Frame): seq<byte> {
    PutHdr(f.hdr) + f.payload
  }

  predicate Sendable(r: SendReq) {
    |r.payload| <= PAYLOAD_MAX && ValidKind(r.kind)
  }

  function SendFrame(r: SendReq, results: seq<WriteRes>): SendOut {
    if |r.payload| > PAYLOAD_MAX then SendOut([], SendFailed(-EMSGSIZE), results)
    else
      var h := FrameOf(r).hdr;
      if ValidateHdr(h) != 0 then SendOut([], SendFailed(ValidateHdr(h)), results)
      else
        var o := SendAll(PutHdr(h), results);
        if o.rc != Sent || r.payload == [] then o
        else
          var o' := SendAll(r.payload, o.left);
          o'.(wire := o.wire + o'.wire)
  }

  /** A send that succeeds puts header and payload on the wire; any other outcome puts a proper prefix of them
      there, and nothing at all if the request itself is refused. */
  lemma {:induction false} SendFrameWire(r: SendReq, results: seq<WriteRes>)
    ensures var o := SendFrame(r, results);
            && (o.rc == Sent ==> Sendable(r))
            && (Sendable(r) ==> o.wire <= Bytes(FrameOf(r)) && (o.rc == Sent <==> o.wire == Bytes(FrameOf(r))))
            && (!Sendable(r) ==> o.wire == [])
  {
    if Sendable(r) {
      var h := FrameOf(r).hdr;
      var o := SendAll(PutHdr(h), results);
      SendAllWire(PutHdr(h), results);
      if o.rc == Sent {
        SendAllWire(r.payload, o.left);
      } else {
        assert o.wire != PutHdr(h) && |o.wire| < |PutHdr(h)|;
      }
    }
  }

  /** A frame of a known kind and size is sent if the peer takes at least a byte at a time, whatever interrupts that;
      any other is refused, for its length first. */
  lemma SendFrameMeans(r: SendReq, results: seq<WriteRes>)
    ensures Sendable(r) && Willing(results) && Writes(results) >= HDR_SIZE + |r.payload| ==>
              SendFrame(r, results).rc == Sent
    ensures Sendable(r) && Progress(results) < HDR_SIZE ==> SendFrame(r, results).rc == Verdict(results)
    ensures !Sendable(r) ==> SendFrame(r, results)
                             == SendOut([], SendFailed(if |r.payload| > 1024 then -EMSGSIZE else -EPROTO), results)
  {
    if Sendable(r) {
      var h := FrameOf(r).hdr;
      assert ValidateHdr(h) == 0;
      hide PutHdr, SendAll, Willing, Progress, Verdict, Writes;
      SendAllMeans(PutHdr(h), results);
      if Willing(results) && Writes(results) >= HDR_SIZE + |r.payload| {
        WillingSend(PutHdr(h), results);
        WillingSend(r.payload, SendAll(PutHdr(h), results).left);
      }
    }
  }

  lemma ParsesBack(r: SendReq, rest: seq<byte>)
    requires Sendable(r)
    ensures Parse(Bytes(FrameOf(r)) + rest, PAYLOAD_MAX) == Got(FrameOf(r), rest)
  {
  }

  lemma ProperPrefixIsPending(r: SendReq, part: seq<byte>)
    requires Sendable(r) && part <= Bytes(FrameOf(r)) && part != Bytes(FrameOf(r))
    ensures Decode(part) == ([], Pending(part))
  {
  }

  // ---- a stream as the bytes of its frames -------------------------------------------------------

  predicate WholeFrame(f: Frame) {
    ValidateHdr(f.hdr) == 0 && |f.payload| == f.hdr.payloadLen
  }

  ghost predicate AllWhole(fs: seq<Frame>) {
    forall f :: f in fs ==> WholeFrame(f)
  }

  function Raw(fs: seq<Frame>): seq<byte> {
    if fs == [] then [] else Raw(fs[..|fs| - 1]) + Bytes(fs[|fs| - 1])
  }

  /** Writing a header that has been read gives back its bytes. */
  lemma GetHdrPutHdr(b: seq<byte>)
    requires |b| >= HDR_SIZE
    ensures PutHdr(GetHdr(b)) == b[..HDR_SIZE]
  {
    Put32Of(b, 0);
    Put16Of(b, 4);
    Put16Of(b, 6);
    Put32Of(b, 8);
    Put32Of(b, 12);
    Put32Of(b, 16);
    assert b[..HDR_SIZE] == b[0..4] + b[4..6] + b[6..8] + b[8..12] + b[12..16] + b[16..20];
  }

  lemma Put32Of(b: seq<byte>, at: nat)
    requires at + 4 <= |b|
    ensures Put32(Get32(b, at)) == b[at..at + 4]
  {
    var x2 := b[at + 2] as int + 256 * (b[at + 3] as int);
    var x1 := b[at + 1] as int + 256 * x2;
    var x := b[at] as int + 256 * x1;
    assert x % 256 == b[at] && x / 256 == x1;
    assert x1 % 256 == b[at + 1] && x1 / 256 == x2;
    assert x2 % 256 == b[at + 2] && x2 / 256 == b[at + 3];
  }

  lemma Put16Of(b: seq<byte>, at: nat)
    requires at + 2 <= |b|
    ensures Put16(Get16(b, at)) == b[at..at + 2]
  {
  }

  /** A parsed frame and what follows it are the bytes that were parsed. */
  lemma ParseLosesNothing(b: seq<byte>, cap: nat)
    ensures Parse(b, cap).Got? ==>
              WholeFrame(Parse(b, cap).frame) && b == Bytes(Parse(b, cap).frame) + Parse(b, cap).rest
  {
    if Parse(b, cap).Got? {
      GetHdrPutHdr(b);
      var total := HDR_SIZE + GetHdr(b).payloadLen;
      assert b == b[..HDR_SIZE] + b[HDR_SIZE..total] + b[total..];
    }
  }

  /** A whole frame is taken if its payload fits the space given, and refused untouched otherwise. */
  lemma WholeFrameFits(f: Frame, rest: seq<byte>, cap: nat)
    requires WholeFrame(f)
    ensures Parse(Bytes(f) + rest, cap) == if |f.payload| > cap then OverCap else Got(f, rest)
  {
    HdrRoundTrip(f.hdr, f.payload + rest);
    assert Bytes(f) + rest == PutHdr(f.hdr) + (f.payload + rest);
    hide PutHdr, GetHdr;
  }

  lemma WholeFrameParses(f: Frame, rest: seq<byte>)
    requires WholeFrame(f)
    ensures Parse(Bytes(f) + rest, PAYLOAD_MAX) == Got(f, rest)
  {
  }

  /** Frames written one after the other, followed by anything, decode to just these frames first. */
  lemma {:induction false} RawDecodes(fs: seq<Frame>, held: seq<byte>)
    requires AllWhole(fs)
    ensures Decode(Raw(fs) + held) == (fs + Decode(held).0, Decode(held).1)
    decreases |fs|
  {
    hide Decode, WholeFrame, Bytes;
    if fs == [] {
      assert Raw(fs) + held == held;
      assert fs + Decode(held).0 == Decode(held).0;
    } else {
      var front, last := fs[..|fs| - 1], fs[|fs| - 1];
      RawDecodes(front, Bytes(last) + held);
      DecodeFrame(last, held);
      assert Raw(fs) + held == Raw(front) + (Bytes(last) + held);
      assert front + ([last] + Decode(held).0) == front + [last] + Decode(held).0;
      assert front + [last] == fs;
    }
  }

  lemma DecodeFrame(f: Frame, rest: seq<byte>)
    requires WholeFrame(f)
    ensures Decode(Bytes(f) + rest) == ([f] + Decode(rest).0, Decode(rest).1)
  {
    hide Parse, Bytes, WholeFrame;
    WholeFrameParses(f, rest);
  }

  lemma {:induction false} RawOfSum(f: Frame, fs: seq<Frame>)
    ensures Raw([f] + fs) == Bytes(f) + Raw(fs)
    decreases |fs|
  {
    var all := [f] + fs;
    if fs == [] {
      assert all[..0] == fs && all == [f];
      assert Raw(all) == Raw(all[..0]) + Bytes(f);
    } else {
      assert all[..|all| - 1] == [f] + fs[..|fs| - 1];
      RawOfSum(f, fs[..|fs| - 1]);
      assert Bytes(f) + (Raw(fs[..|fs| - 1]) + Bytes(fs[|fs| - 1]))
             == Bytes(f) + Raw(fs[..|fs| - 1]) + Bytes(fs[|fs| - 1]);
    }
  }

  /** Decoding without a fault loses nothing: the bytes are those of the frames and the unconsumed rest. */
  lemma {:induction false} DecodeLosesNothing(s: seq<byte>)
    ensures var (fs, o) := Decode(s);
            o.Pending? ==> s == Raw(fs) + o.rest && AllWhole(fs)
    decreases |s|
  {
    hide Parse, WholeFrame, Bytes;
    var p := Parse(s, PAYLOAD_MAX);
    ParseLosesNothing(s, PAYLOAD_MAX);
    if p.Got? {
      DecodeLosesNothing(p.rest);
      var (fs, o) := Decode(p.rest);
      if o.Pending? {
        RawOfSum(p.frame, fs);
        assert Bytes(p.frame) + (Raw(fs) + o.rest) == Bytes(p.frame) + Raw(fs) + o.rest;
      }
    } else if p.NeedMore? {
      assert Raw([]) + s == s;
    }
  }

  /** Sends one after the other, up to the first that does not succeed: the bytes on the wire and the number
      of successful sends. */
  function SendMany(rs: seq<SendReq>, results: seq<WriteRes>): (r: (seq<byte>, nat))
    ensures r.1 <= |rs|
    decreases |rs|
  {
    if rs == [] then ([], 0)
    else
      var o := SendFrame(rs[0], results);
      if o.rc != Sent then (o.wire, 0)
      else
        var (w, n) := SendMany(rs[1..], o.left);
        (o.wire + w, n + 1)
  }

  predicate IsFrameOf(f: Frame, r: SendReq) {
    |r.payload| <= 1024 && f.payload == r.payload && f.hdr == Hdr(0x5549_4D47, 1, r.kind, |r.payload|, r.flags, 0)
  }

  lemma {:induction false} WireDecodesToSentFrames(rs: seq<SendReq>, results: seq<WriteRes>)
    ensures var (w, n) := SendMany(rs, results);
            var (fs, o) := Decode(w);
            && o.Pending? && |fs| == n
            && (forall i :: 0 <= i < n ==> IsFrameOf(fs[i], rs[i]))
            && (n == |rs| ==> o.rest == [])
    decreases |rs|
  {
    if rs != [] {
      var o := SendFrame(rs[0], results);
      SendFrameWire(rs[0], results);
      if o.rc != Sent {
        if Sendable(rs[0]) { ProperPrefixIsPending(rs[0], o.wire); }
      } else {
        var (w, n) := SendMany(rs[1..], o.left);
        WireDecodesToSentFrames(rs[1..], o.left);
        ParsesBack(rs[0], w);
      }
    }
  }

  /** End to end: whatever partial writes and interruptions happen on one side, and however the bytes are chunked
      on the other, the receiver gets exactly the frames of the successful sends, header fields and payloads
      unchanged, and no error, if and only if every chunk finds room in its buffer; else it gets the first of
      them. */
  lemma {:induction false} ReceiverGetsWhatWasSent(rs: seq<SendReq>, results: seq<WriteRes>, chunks: seq<seq<byte>>)
    requires Joined(chunks) == SendMany(rs, results).0
    ensures var (fs, o) := FedAll(chunks);
            && (|fs| == SendMany(rs, results).1 && o.Pending? <==> Roomy(chunks))
            && |fs| <= SendMany(rs, results).1
            && forall i :: 0 <= i < |fs| ==> IsFrameOf(fs[i], rs[i])
  {
    ChunkingDoesNotMatter(chunks);
    WireDecodesToSentFrames(rs, results);
  }

  /** Sends one after the other, going on after failures as the pings of a session do: the bytes on the wire and
      the frames of the successful sends. */
  function SendEach(rs: seq<SendReq>, results: seq<WriteRes>): (seq<byte>, seq<Frame>)
    decreases |rs|
  {
    if rs == [] then ([], [])
    else
      var o := SendFrame(rs[0], results);
      var (w, fs) := SendEach(rs[1..], o.left);
      (o.wire + w, (if o.rc == Sent then [FrameOf(rs[0])] else []) + fs)
  }

  /** Does one of these sends fail after part of its frame? */
  predicate LeavesFragment(rs: seq<SendReq>, results: seq<WriteRes>)
    decreases |rs|
  {
    rs != []
    && (var o := SendFrame(rs[0], results);
        (o.rc != Sent && o.wire != []) || LeavesFragment(rs[1..], o.left))
  }

  lemma {:induction false} SendEachWire(rs: seq<SendReq>, results: seq<WriteRes>)
    ensures var (w, fs) := SendEach(rs, results);
            && AllWhole(fs) && |w| >= |Raw(fs)|
            && (if LeavesFragment(rs, results) then |w| > |Raw(fs)| else w == Raw(fs))
    decreases |rs|
  {
    hide SendFrame, Raw, Bytes;
    if rs == [] {
      RawOfNone();
    } else {
      var o := SendFrame(rs[0], results);
      SendEachWire(rs[1..], o.left);
      SendFrameWire(rs[0], results);
      var (w, fs) := SendEach(rs[1..], o.left);
      if o.rc == Sent {
        RawOfSum(FrameOf(rs[0]), fs);
      } else {
        assert [] + fs == fs;
        assert o.wire == [] ==> o.wire + w == w;
      }
    }
  }

  lemma RawOfNone()
    ensures Raw([]) == []
  {
  }

  /** A connection on which sending goes on after failures carries whole frames, just those of the successful
      sends, exactly if no failed send has left part of its frame there. */
  lemma {:induction false} StreamStaysWhole(rs: seq<SendReq>, results: seq<WriteRes>)
    ensures var (w, fs) := SendEach(rs, results);
            Decode(w) == (fs, Pending([])) <==> !LeavesFragment(rs, results)
  {
    hide Decode, Raw, SendEach, LeavesFragment;
    var (w, fs) := SendEach(rs, results);
    SendEachWire(rs, results);
    if LeavesFragment(rs, results) {
      DecodeLosesNothing(w);
      assert Raw(fs) + [] == Raw(fs);
    } else {
      RawDecodes(fs, []);
      NoChunks();
      assert Raw(fs) + [] == w && fs + [] == fs;
    }
  }

  /** The sending loop of the source. `wire` is what the descriptor has taken. */
  method WriteAll(data: seq<byte>, results: seq<WriteRes>) returns (rc: SendRc, wire: seq<byte>, left: seq<WriteRes>)
    ensures SendOut(wire, rc, left) == SendAll(data, results)
  {
    var sentTotal := 0;
    wire, left := [], results;
    assert data[0..] == data;
    while sentTotal < |data|
      invariant 0 <= sentTotal <= |data|
      invariant SendAll(data, results)
                == (var o := SendAll(data[sentTotal..], left); o.(wire := wire + o.wire))
      decreases |left|
    {
      ghost var rest := data[sentTotal..];
      if left == [] {
        assert wire + [] == wire;
        return Unfinished, wire, [];
      }
      var n := left[0];
      left := left[1..];
      assert wire + [] == wire;
      match n
      case Interrupted =>
      case WouldBlock => return SendFailed(-EAGAIN), wire, left;
      case WriteErr(e) => return SendFailed(-(e as int)), wire, left;
      case WroteNone => return SendFailed(-EPIPE), wire, left;
      case Wrote(k) =>
        var took := Clipped(k, |data| - sentTotal);
        if took == 0 { return SendFailed(-EPIPE), wire, left; }
        assert rest[..took] == data[sentTotal..sentTotal + took];
        assert rest[took..] == data[sentTotal + took..];
        assert forall w: seq<byte> :: wire + (rest[..took] + w) == wire + rest[..took] + w;
        wire := wire + data[sentTotal..sentTotal + took];
        sentTotal := sentTotal + took;
    }
    assert data[sentTotal..] == [];
    assert wire + [] == wire;
    rc := Sent;
  }

  /** Header and payload are sent one after the other; a frame without payload is its header. */
  method WriteFrame(r: SendReq, results: seq<WriteRes>) returns (rc: SendRc, wire: seq<byte>, left: seq<WriteRes>)
    ensures SendOut(wire, rc, left) == SendFrame(r, results)
    ensures rc == Sent ==> |r.payload| <= PAYLOAD_MAX && wire == Bytes(FrameOf(r))
  {
    SendFrameWire(r, results);
    hide SendAll, PutHdr;
    if |r.payload| > PAYLOAD_MAX { return SendFailed(-EMSGSIZE), [], results; }
    var h := Hdr(MAGIC, VERSION, r.kind, |r.payload|, r.flags, 0);
    var v := ValidateHdr(h);
    if v != 0 { return SendFailed(v), [], results; }
    rc, wire, left := WriteAll(PutHdr(h), results);
    if rc != Sent || r.payload == [] { return; }
    var sent;
    rc, sent, left := WriteAll(r.payload, left);
    wire := wire + sent;
  }

  // ---- the receive buffer ------------------------------------------------------------------------

  class RxBuf {
    const buf: array<byte>
    var used: nat

    ghost predicate Valid()
      reads this
    {
      buf.Length == RX_BUF_CAP && used <= RX_BUF_CAP
    }

    ghost function Content(): seq<byte>
      requires Valid()
      reads this, buf
    {
      buf[..used]
    }

    constructor ()
      ensures Valid() && Content() == [] && fresh(buf)
    {
      buf := new byte[RX_BUF_CAP](_ => 0);
      used := 0;
    }

    method Clear()
      requires Valid()
      modifies this`used
      ensures Valid() && Content() == []
    {
      used := 0;
    }

    method Append(data: seq<byte>) returns (rc: int)
      requires Valid()
      modifies this`used, buf
      ensures Valid()
      ensures rc == if data == [] then -EINVAL else if |old(Content())| + |data| > RX_BUF_CAP then -ENOSPC else 0
      ensures Content() == old(Content()) + if rc == 0 then data else []
    {
      if data == [] { return -EINVAL; }
      if used + |data| > buf.Length { return -ENOSPC; }
      forall i | 0 <= i < |data| { buf[used + i] := data[i]; }
      assert buf[..used] == old(Content());
      used := used + |data|;
      rc := 0;
    }

    /** Moves what follows the first `n` bytes to the front. */
    method MoveLeft(n: nat)
      requires Valid() && n <= used
      modifies this`used, buf
      ensures Valid() && Content() == old(Content())[n..]
    {
      if n == used {
        used := 0;
        return;
      }
      forall i | 0 <= i < used - n { buf[i] := buf[i + n]; }
      used := used - n;
    }

    /** A malformed header empties the buffer; a frame is taken out of it; otherwise it stays. */
    method TryParse(cap: nat) returns (p: Parsed)
      requires Valid()
      modifies this`used, buf
      ensures Valid() && p == Parse(old(Content()), cap)
      ensures Content() == match p { case Got(_, rest) => rest case BadHeader(_) => [] case _ => old(Content()) }
    {
      if used < HDR_SIZE { return NeedMore; }
      var h := GetHdr(buf[..used]);
      var rc := ValidateHdr(h);
      if rc != 0 {
        used := 0;
        return BadHeader(rc);
      }
      var total := HDR_SIZE + h.payloadLen;
      if used < total { return NeedMore; }
      if h.payloadLen > cap { return OverCap; }
      var payload := buf[HDR_SIZE..total];
      assert payload == Content()[HDR_SIZE..total];
      MoveLeft(total);
      return Got(Frame(h, payload), buf[..used]);
    }

    /** Takes every whole frame out of the buffer. */
    method Drain() returns (frames: seq<Frame>, rc: int)
      requires Valid()
      modifies this`used, buf
      ensures Valid()
      ensures Decode(old(Content())) == (frames, if rc == 0 then Pending(Content()) else Failed(rc))
    {
      frames := [];
      ghost var todo := Content();
      assert frames + Decode(todo).0 == Decode(todo).0;
      while true
        invariant Valid() && Content() == todo
        invariant Decode(old(Content())) == (frames + Decode(todo).0, Decode(todo).1)
        decreases used
      {
        var p := TryParse(PAYLOAD_MAX);
        DecodeStep(todo, frames);
        match p
        case NeedMore => return frames, 0;
        case BadHeader(e) => return frames, e;
        case OverCap => return frames, -EMSGSIZE;
        case Got(f, rest) =>
          frames := frames + [f];
          todo := rest;
      }
    }

    static lemma {:induction false} DecodeStep(s: seq<byte>, fs: seq<Frame>)
      ensures var p := Parse(s, PAYLOAD_MAX);
              var (gs, o) := Decode(s);
              (fs + gs, o) == match p
                              case NeedMore => (fs, Pending(s))
                              case BadHeader(rc) => (fs, Failed(rc))
                              case OverCap => (fs, Failed(-EMSGSIZE))
                              case Got(f, rest) => (fs + [f] + Decode(rest).0, Decode(rest).1)
    {
      var p := Parse(s, PAYLOAD_MAX);
      if p.Got? {
        assert fs + ([p.frame] + Decode(p.rest).0) == fs + [p.frame] + Decode(p.rest).0;
      } else {
        assert Decode(s).0 == [] && fs + [] == fs;
      }
    }

    /** One round of the receive loop: a chunk is appended and every whole frame is taken out. */
    method Receive(chunk: seq<byte>) returns (frames: seq<Frame>, rc: int)
      requires Valid() && chunk != []
      modifies this`used, buf
      ensures Valid()
      ensures Fed([], Pending(old(Content())), chunk)
              == (frames, if rc == 0 then Pending(Content()) else Failed(rc))
    {
      rc := Append(chunk);
      if rc != 0 { return [], rc; }
      ghost var all := Content();
      frames, rc := Drain();
      assert [] + Decode(all).0 == Decode(all).0;
    }
  }
}

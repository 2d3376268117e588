/** What the session with a UI client achieves: new clients are held and attached, what they send is handled, and
    those that leave are let go. Each ready poll is described by the state that its events lead to; the pings and
    timeouts of the same poll then are those of a quiet poll from there. */
module UiProgress {
  import opened Common
  import opened UiProto
  import opened UiSession

  // ---- pings and timeouts ------------------------------------------------------------------------

  /** The state after letting the client go. */
  ghost function LetGo(v: View): View {
    v.(state := Idle, clientFd := -1, connected := false, lastRxMs := 0, lastTxMs := 0, lastAliveMs := 0,
       awaitPong := false, pongDeadlineMs := 0, lastSeen := 0, log := v.log + [Detach(v.clientFd)])
  }

  /** A ping is due on a clock that does not run backwards. */
  ghost predicate Pings(v: View, cfg: Config, now: nat) {
    v.state == Connected && cfg.pingIntervalMs > 0 && (v.lastTxMs == 0 || now >= v.lastTxMs + cfg.pingIntervalMs)
  }

  /** What a quiet poll that keeps its client changes: a ping that is due and does not fail for good awaits a pong,
      and counts as activity if it has been sent. */
  lemma {:induction false} QuietPollMeans(v: View, cfg: Config, input: PollInput)
    requires Ok(v) && HasClient(v) && input.polled.Quiet? && v.lastTxMs <= input.now2
    ensures var w, now, rc := Polled(v, cfg, input).0, input.now2, input.pingRc;
            var armed := Pings(v, cfg, now) && rc in {0, -EAGAIN, -EINTR};
            var sent := armed && rc == 0;
            if HasClient(w)
            then w == v.(awaitPong := v.awaitPong || armed,
                         pongDeadlineMs := if !armed then v.pongDeadlineMs
                                           else now + if cfg.pongTimeoutMs > 0 then cfg.pongTimeoutMs else 5000,
                         lastTxMs := if sent then now else v.lastTxMs,
                         lastAliveMs := if sent then now else v.lastAliveMs)
            else w == LetGo(w.(clientFd := v.clientFd, log := v.log))
  {
    hide StreamOk, LogOk;
  }

  /** Without a client a quiet poll does nothing. */
  lemma QuietPollIdles(v: View, cfg: Config, input: PollInput)
    requires Ok(v) && !HasClient(v) && input.polled.Quiet?
    ensures Polled(v, cfg, input).0 == v
  {
    hide StreamOk, LogOk;
  }

  /** A clock that has run backwards makes the client look stale: differences are taken modulo 2^64. */
  lemma BackwardClockDrops(v: View, cfg: Config, input: PollInput)
    requires Ok(v) && HasClient(v) && input.polled.Quiet?
    requires 0 < cfg.staleTimeoutMs < 0x8000_0000 && input.now2 < v.lastRxMs < 0x8000_0000_0000_0000
    ensures !HasClient(Polled(v, cfg, input).0)
  {
    hide StreamOk, LogOk;
  }

  /** Starting listens, unless that fails; stopping detaches the client, if there is one, for good. */
  lemma StartAndStop(v: View, cfg: Config, openRc: int)
    requires Ok(v)
    ensures var w := Next(v, cfg, Start(openRc));
            && (if !v.listening && openRc != 0 then w == v else w == v.(listening := true, state := w.state))
            && (w.state == if v.state == Init && w.listening && !(openRc != 0 && !v.listening) then Idle else v.state)
    ensures var w := Next(v, cfg, Stop);
            && !w.listening && w.state == Shutdown && !HasClient(w)
            && w.log == v.log + if HasClient(v) then [Detach(v.clientFd)] else []
  {
  }

  /** What the calls return: only a failing system call and a session that has been stopped are errors. */
  lemma CallsReturn(v: View, cfg: Config, input: PollInput, openRc: int)
    ensures Polled(v, cfg, input).1
            == if v.state == Shutdown then -22
               else if input.polled.PollFailed? then -(input.polled.errno as int)
               else 0
    ensures v.state == Shutdown || input.polled.PollFailed? || input.polled.PollInterrupted? ==>
              Polled(v, cfg, input).0 == v
    ensures Opened(v, openRc).1 == if v.listening then 0 else openRc
  {
  }

  /** After that no poll does anything. */
  lemma {:induction false} NothingAfterStop(v: View, cfg: Config, input: PollInput)
    ensures Polled(Next(v, cfg, Stop), cfg, input) == (Next(v, cfg, Stop), -22)
  {
  }

  /** A ready poll whose events lead to `r`. */
  ghost predicate LeadsTo(v: View, cfg: Config, input: PollInput, r: View) {
    Polled(v, cfg, input) == Polled(r, cfg, input.(polled := Quiet))
  }

  lemma ServedLeadsTo(v: View, cfg: Config, input: PollInput, r: View)
    requires v.state != Shutdown && r.state != Shutdown && input.polled.Ready? && ReadyServed(v, cfg, input) == r
    ensures LeadsTo(v, cfg, input, r)
  {
    hide ReadyServed, Pinged, Expired;
  }

  // ---- what a receive brings ---------------------------------------------------------------------

  /** The bytes received before the loop stops. */
  function DataOf(results: seq<RecvRes>): seq<byte> {
    if results == [] then []
    else match results[0]
      case RecvInterrupted => DataOf(results[1..])
      case Data(chunk) => chunk + DataOf(results[1..])
      case _ => []
  }

  /** The loop stops at the end of the stream or an error. */
  predicate Ends(results: seq<RecvRes>) {
    results != []
    && match results[0]
       case RecvInterrupted => Ends(results[1..])
       case Data(_) => Ends(results[1..])
       case RecvWouldBlock => false
       case _ => true
  }

  /** The state after these frames, with `rest` bytes left over. */
  ghost function Heard(v: View, now: nat, data: seq<byte>, fs: seq<Frame>, rest: seq<byte>): View {
    var pong := exists i :: 0 <= i < |fs| && fs[i].hdr.kind == FRAME_PONG;
    v.(lastRxMs := now, lastAliveMs := now, stream := v.stream + data, handled := v.handled + fs, held := rest,
       awaitPong := v.awaitPong && !pong, pongDeadlineMs := if pong then 0 else v.pongDeadlineMs)
  }

  lemma HeardTwice(v: View, now: nat, a: seq<byte>, b: seq<byte>, fs: seq<Frame>, gs: seq<Frame>, x: seq<byte>,
                   rest: seq<byte>)
    ensures Heard(Heard(v, now, a, fs, x), now, b, gs, rest) == Heard(v, now, a + b, fs + gs, rest)
  {
    var all := fs + gs;
    assert forall i :: 0 <= i < |fs| ==> all[i] == fs[i];
    assert forall i :: 0 <= i < |gs| ==> all[|fs| + i] == gs[i];
    assert v.stream + a + b == v.stream + (a + b) && v.handled + fs + gs == v.handled + all;
  }

  lemma TalkingIsHeard(v: View, now: nat, chunk: Chunk)
    ensures var (fs, o) := Decode(v.held + chunk);
            var (w, ok) := Talking(v, now, chunk);
            && ok == o.Pending? && (ok ==> w == Heard(v, now, chunk, fs, o.rest))
            && w.clientFd == v.clientFd && w.log == v.log
  {
    hide Decode;
  }

  /** Is the client lost with these results? */
  predicate Lost(held: seq<byte>, results: seq<RecvRes>) {
    Ends(results) || (DataOf(results) != [] && Decode(held + DataOf(results)).1.Failed?)
  }

  lemma {:induction false} ReceivedIs(v: View, now: nat, results: seq<RecvRes>)
    requires HasClient(v)
    ensures var w, data := Received(v, now, results), DataOf(results);
            var (fs, o) := Decode(v.held + data);
            if Lost(v.held, results) then w == LetGo(w.(clientFd := v.clientFd, log := v.log))
            else w == if data == [] then v else Heard(v, now, data, fs, o.rest)
    decreases |results|
  {
    hide Decode, Heard, Talking;
    if results != [] && results[0].RecvInterrupted? {
      ReceivedIs(v, now, results[1..]);
    } else if results != [] && results[0].Data? {
      var chunk, data := results[0].bytes, DataOf(results[1..]);
      var (w, ok) := Talking(v, now, chunk);
      TalkingIsHeard(v, now, chunk);
      DecodeResumes(v.held + chunk, data);
      assert v.held + (chunk + data) == v.held + chunk + data;
      if ok {
        HeardKeeps(v, now, chunk);
        ReceivedIs(w, now, results[1..]);
        var (fs, o) := Decode(v.held + chunk);
        if data == [] {
          assert chunk + data == chunk;
        } else if Decode(o.rest + data).1.Pending? {
          HeardTwice(v, now, chunk, data, fs, Decode(o.rest + data).0, o.rest, Decode(o.rest + data).1.rest);
        }
      }
    }
  }

  lemma HeardKeeps(v: View, now: nat, chunk: Chunk)
    requires Talking(v, now, chunk).1
    ensures Talking(v, now, chunk).0.held == Decode(v.held + chunk).1.rest
  {
    hide Decode;
  }

  // ---- a connected client ------------------------------------------------------------------------

  /** The client is readable and has not hung up, and nobody connects. */
  predicate OnlyReadable(v: View, input: PollInput) {
    && input.polled.Ready? && input.readable && !input.hangup
    && (v.listening && input.listenReady ==> input.accepted.NoClient?)
  }

  /** Whatever the chunks, the frames that they complete are handled, in order and each once, and the rest is kept. */
  lemma ChunksAreHandled(v: View, cfg: Config, input: PollInput, fs: seq<Frame>, rest: seq<byte>)
    requires Ok(v) && v.state == Connected && OnlyReadable(v, input)
    requires !Ends(input.recv2) && DataOf(input.recv2) != []
    requires v.held + DataOf(input.recv2) == Raw(fs) + rest && AllWhole(fs) && Decode(rest) == ([], Pending(rest))
    ensures LeadsTo(v, cfg, input, Heard(v, input.now1, DataOf(input.recv2), fs, rest))
  {
    hide Decode, Received, Heard, Raw, AllWhole, StreamOk, LogOk;
    RawDecodes(fs, rest);
    assert fs + [] == fs;
    ReceivedIs(v, input.now1, input.recv2);
    HeardState(v, input.now1, DataOf(input.recv2), fs, rest);
    ServedLeadsTo(v, cfg, input, Heard(v, input.now1, DataOf(input.recv2), fs, rest));
  }

  lemma HeardState(v: View, now: nat, data: seq<byte>, fs: seq<Frame>, rest: seq<byte>)
    ensures Heard(v, now, data, fs, rest).state == v.state
  {
  }

  /** A receive loop that brings no data and no end changes nothing. */
  lemma SilenceChangesNothing(v: View, cfg: Config, input: PollInput)
    requires Ok(v) && v.state == Connected && OnlyReadable(v, input)
    requires !Ends(input.recv2) && DataOf(input.recv2) == []
    ensures LeadsTo(v, cfg, input, v)
  {
    hide Decode, Received, StreamOk, LogOk;
    ReceivedIs(v, input.now1, input.recv2);
    ServedLeadsTo(v, cfg, input, v);
  }

  /** A PONG among the frames ends the wait for it: afterwards none is awaited unless this poll sends a ping. */
  lemma PongEndsTheAwait(v: View, cfg: Config, input: PollInput, fs: seq<Frame>, rest: seq<byte>, k: nat)
    requires Ok(v) && v.state == Connected && OnlyReadable(v, input) && v.lastTxMs <= input.now2
    requires !Ends(input.recv2) && DataOf(input.recv2) != []
    requires v.held + DataOf(input.recv2) == Raw(fs) + rest && AllWhole(fs) && Decode(rest) == ([], Pending(rest))
    requires k < |fs| && fs[k].hdr.kind == FRAME_PONG
    ensures var w := Polled(v, cfg, input).0;
            HasClient(w) ==> (w.awaitPong <==> Pings(v, cfg, input.now2) && input.pingRc in {0, -EAGAIN, -EINTR})
  {
    var r := Heard(v, input.now1, DataOf(input.recv2), fs, rest);
    ChunksAreHandled(v, cfg, input, fs, rest);
    hide StreamOk, LogOk, Decode, Raw, ReadyServed;
    ReadyOk(v, cfg, input);
    assert Ok(r) by { HeardOk(v, cfg, input, fs, rest); }
    QuietPollMeans(r, cfg, input.(polled := Quiet));
  }

  lemma HeardOk(v: View, cfg: Config, input: PollInput, fs: seq<Frame>, rest: seq<byte>)
    requires Ok(v) && v.state == Connected && OnlyReadable(v, input)
    requires !Ends(input.recv2) && DataOf(input.recv2) != []
    requires v.held + DataOf(input.recv2) == Raw(fs) + rest && AllWhole(fs) && Decode(rest) == ([], Pending(rest))
    ensures Ok(Heard(v, input.now1, DataOf(input.recv2), fs, rest))
  {
    hide Decode, Received, Heard, Raw, AllWhole, StreamOk, LogOk;
    RawDecodes(fs, rest);
    assert fs + [] == fs;
    ReceivedIs(v, input.now1, input.recv2);
    ReceivedOk(v, input.now1, input.recv2);
  }

  /** The end of the stream, an error and a bad header each end the session: the client is told to detach. */
  lemma EndDropsTheClient(v: View, cfg: Config, input: PollInput)
    requires Ok(v) && v.state == Connected && OnlyReadable(v, input) && Lost(v.held, input.recv2)
    ensures var w := Polled(v, cfg, input).0;
            w.state == Idle && w.clientFd == -1 && w.log == v.log + [Detach(v.clientFd)]
  {
    hide Decode, Received, StreamOk, LogOk, Lost;
    ReceivedIs(v, input.now1, input.recv2);
    ReceivedOk(v, input.now1, input.recv2);
    var r := Received(v, input.now1, input.recv2);
    ServedLeadsTo(v, cfg, input, r);
    QuietPollIdles(r, cfg, input.(polled := Quiet));
  }

  // ---- a handshaking client ----------------------------------------------------------------------

  /** The first result that is not an interruption. */
  function FirstOf(results: seq<RecvRes>): Option<RecvRes> {
    if results == [] then None
    else if results[0].RecvInterrupted? then FirstOf(results[1..])
    else Some(results[0])
  }

  /** The state after a HELLO that the attach callback accepts. */
  ghost function Attached(v: View, now: nat, chunk: seq<byte>, f: Frame, rest: seq<byte>): View {
    var n := LittleEndian(f.payload);
    v.(state := Connected, connected := true, lastRxMs := now, lastAliveMs := now, awaitPong := false,
       pongDeadlineMs := 0, lastSeen := n, log := v.log + [Attach(v.clientFd, n)],
       stream := v.stream + chunk, handled := v.handled + [f], held := rest)
  }

  /** What becomes of a handshaking client with these results; `w` is the state then. */
  ghost predicate GreetsAs(v: View, now: nat, results: seq<RecvRes>, attachRc: int, w: View) {
    match FirstOf(results)
    case None => w == v
    case Some(RecvWouldBlock) => w == v
    case Some(Data(chunk)) =>
      var all := v.held + chunk;
      && (Decode(all) == ([], Pending(all)) ==>
            w == v.(lastRxMs := now, lastAliveMs := now, stream := v.stream + chunk, held := all))
      && (Decode(all).0 == [] && Decode(all).1.Failed? ==> Refused(v, w, []))
      && (forall f, rest :: WholeFrame(f) && all == Bytes(f) + rest ==>
            if !IsHello(f) then Refused(v, w, [])
            else if attachRc != 0 then Refused(v, w, [Attach(v.clientFd, LittleEndian(f.payload))])
            else w == Attached(v, now, chunk, f, rest))
    case _ => Refused(v, w, [])
  }

  /** The client is let go, after these callbacks. */
  ghost predicate Refused(v: View, w: View, before: seq<Callback>) {
    w == LetGo(w.(clientFd := v.clientFd, log := v.log + before))
  }

  lemma LittleEndian64(b: seq<byte>)
    requires |b| == HELLO_SIZE
    ensures LittleEndian(b) == Get64(b)
  {
    LittleEndianOfSum(b[..4], b[4..]);
    assert b == b[..4] + b[4..];
    SlicesAreRead(b, 0);
    SlicesAreRead(b, 4);
    assert b[0..4] == b[..4] && b[4..8] == b[4..];
    hide LittleEndian;
  }

  lemma LittleEndianOfSum(a: seq<byte>, b: seq<byte>)
    requires |a| == 4
    ensures LittleEndian(a + b) == LittleEndian(a) + 0x1_0000_0000 * LittleEndian(b)
  {
    var s := a + b;
    assert s[1..] == a[1..] + b && s[1..][1..] == a[2..] + b && s[1..][1..][1..] == a[3..] + b;
    assert s[1..][1..][1..][1..] == b;
    assert LittleEndian(s[1..][1..][1..]) == a[3] as nat + 256 * LittleEndian(b);
    assert LittleEndian(s[1..][1..]) == a[2] as nat + 256 * LittleEndian(s[1..][1..][1..]);
    assert LittleEndian(s[1..]) == a[1] as nat + 256 * LittleEndian(s[1..][1..]);
    LittleEndian32(a);
  }

  lemma {:induction false} HandshakeRxIs(v: View, now: nat, results: seq<RecvRes>)
    ensures HandshakeRx(v, now, results)
            == match FirstOf(results)
               case None => (v, 1)
               case Some(RecvWouldBlock) => (v, 1)
               case Some(Data(chunk)) => Greeting(v, now, chunk)
               case Some(RecvErr(e)) => (v, -(e as int))
               case _ => (v, -EPIPE)
    decreases |results|
  {
    hide Greeting;
    if results != [] && results[0].RecvInterrupted? { HandshakeRxIs(v, now, results[1..]); }
  }

  lemma {:induction false} GreetedIs(v: View, now: nat, results: seq<RecvRes>, attachRc: int)
    requires Ok(v) && v.state == Handshake
    ensures GreetsAs(v, now, results, attachRc, Greeted(v, now, results, attachRc))
  {
    hide Parse, Decode, Get64, LittleEndian, Bytes, StreamOk, LogOk, WholeFrame;
    HandshakeRxIs(v, now, results);
    var w := Greeted(v, now, results, attachRc);
    match FirstOf(results)
    case Some(Data(chunk)) =>
      var all := v.held + chunk;
      ParseOfDecode(all);
      PendingIsShort(all, PAYLOAD_MAX);
      forall f, rest | WholeFrame(f) && all == Bytes(f) + rest
        ensures if !IsHello(f) then Refused(v, w, [])
                else if attachRc != 0 then Refused(v, w, [Attach(v.clientFd, LittleEndian(f.payload))])
                else w == Attached(v, now, chunk, f, rest)
      {
        WholeFrameParses(f, rest);
        if IsHello(f) { LittleEndian64(f.payload); }
      }
    case _ =>
  }

  lemma ParseOfDecode(s: seq<byte>)
    ensures Decode(s).0 == [] && Decode(s).1.Pending? ==> Parse(s, PAYLOAD_MAX) == NeedMore
    ensures Decode(s).0 == [] && Decode(s).1.Failed? ==> !Parse(s, PAYLOAD_MAX).NeedMore? && !Parse(s, PAYLOAD_MAX).Got?
  {
    hide Parse;
  }

  lemma GreetedStaysUp(v: View, now: nat, results: seq<RecvRes>, attachRc: int)
    requires v.state == Handshake
    ensures Greeted(v, now, results, attachRc).state != Shutdown
  {
    HandshakeRxIs(v, now, results);
    hide Parse, Get64;
  }

  /** A poll that finds a handshaking client readable: it waits for the rest of the first frame; it attaches the
      client exactly if that is a HELLO and the callback accepts it; otherwise it lets the client go. */
  lemma HandshakePollMeans(v: View, cfg: Config, input: PollInput)
    requires Ok(v) && v.state == Handshake && OnlyReadable(v, input) && !(v.listening && input.listenReady)
    ensures exists w :: GreetsAs(v, input.now1, input.recv2, input.attachRc2, w) && LeadsTo(v, cfg, input, w)
  {
    hide GreetsAs, Greeted, StreamOk, LogOk;
    var w := ReadyServed(v, cfg, input);
    GreetedIs(v, input.now1, input.recv2, input.attachRc2);
    GreetedStaysUp(v, input.now1, input.recv2, input.attachRc2);
    ServedLeadsTo(v, cfg, input, w);
  }

  // ---- a new client ------------------------------------------------------------------------------

  /** The state in which a new connection begins its handshake. */
  ghost function Taken(v: View, fd: nat, now: nat): View {
    v.(state := Handshake, clientFd := fd, connected := false, lastTxMs := 0, lastAliveMs := now, awaitPong := false,
       pongDeadlineMs := 0, lastSeen := 0, stream := [], handled := [], held := [])
  }

  /** A connection that is accepted, is trusted and can be taken over. */
  predicate Connects(v: View, input: PollInput, fd: nat) {
    input.polled.Ready? && v.listening && input.listenReady && input.accepted == NewClient(fd, true, true)
  }

  /** A new connection while there is no client is held, and its handshake begins in the same poll. */
  lemma NewClientIsHeld(v: View, cfg: Config, input: PollInput, fd: nat)
    requires Ok(v) && v.state != Shutdown && !HasClient(v) && Connects(v, input, fd)
    ensures exists w :: GreetsAs(Taken(v, fd, input.now1), input.now1, input.recv1, input.attachRc1, w)
                        && LeadsTo(v, cfg, input, w)
  {
    var h := Taken(v, fd, input.now1);
    BegunOk(v, fd, input.now1);
    hide GreetsAs, Greeted, StreamOk, LogOk;
    var w := ReadyServed(v, cfg, input);
    GreetedIs(h, input.now1, input.recv1, input.attachRc1);
    GreetedStaysUp(h, input.now1, input.recv1, input.attachRc1);
    ServedLeadsTo(v, cfg, input, w);
  }

  /** While nobody is there nothing is remembered of earlier clients. */
  ghost predicate Forgotten(v: View) {
    !HasClient(v) ==> v.lastRxMs == 0
  }

  /** A connection that cannot be taken over leaves no trace if nobody was there; if it may displace a client, that
      client is gone all the same. */
  lemma FailedTakeover(v: View, cfg: Config, input: PollInput, fd: nat)
    requires Ok(v) && v.state != Shutdown && v.listening
    requires input.polled.Ready? && input.listenReady && input.accepted == NewClient(fd, true, false)
    ensures !HasClient(v) ==> Polled(v, cfg, input) == Polled(v, cfg, input.(accepted := NoClient))
    ensures HasClient(v) && !cfg.rejectNew && (cfg.replaceOnlyStale ==> IsStale(v, cfg, input.now1)) ==>
              LeadsTo(v, cfg, input, LetGo(v))
  {
    hide Greeted, Received, Pinged, Expired, StreamOk, LogOk;
  }

  lemma {:induction false} ReceivedForgotten(v: View, now: nat, results: seq<RecvRes>)
    requires HasClient(v)
    ensures Forgotten(Received(v, now, results))
    decreases |results|
  {
    hide Decode, HasPong;
    if results != [] && results[0].RecvInterrupted? {
      ReceivedForgotten(v, now, results[1..]);
    } else if results != [] && results[0].Data? {
      var (w, ok) := Talking(v, now, results[0].bytes);
      if ok { ReceivedForgotten(w, now, results[1..]); }
    }
  }

  lemma GreetedForgotten(v: View, now: nat, results: seq<RecvRes>, attachRc: int)
    requires HasClient(v)
    ensures Forgotten(Greeted(v, now, results, attachRc))
  {
    HandshakeRxIs(v, now, results);
    hide Parse, Get64, IsHello;
  }

  lemma ReadyForgotten(v: View, cfg: Config, input: PollInput)
    requires Forgotten(v)
    ensures Forgotten(ReadyServed(v, cfg, input))
  {
    hide Greeted, Received, IsStale;
    var now := input.now1;
    var a := if v.listening && input.listenReady then Accepted(v, cfg, now, input.accepted) else v;
    if HasClient(a) { GreetedForgotten(a, now, input.recv1, input.attachRc1); }
    var g := if v.listening && input.listenReady && HasClient(a) && a.state == Handshake
             then Greeted(a, now, input.recv1, input.attachRc1) else a;
    if HasClient(g) {
      GreetedForgotten(g, now, input.recv2, input.attachRc2);
      ReceivedForgotten(g, now, input.recv2);
    }
  }

  lemma NextForgotten(v: View, cfg: Config, call: Call)
    requires Forgotten(v)
    ensures Forgotten(Next(v, cfg, call))
  {
    hide ReadyServed;
    if call.PollOnce? { ReadyForgotten(v, cfg, call.input); }
  }

  lemma {:induction false} RunForgotten(v: View, cfg: Config, calls: seq<Call>)
    requires Forgotten(v)
    ensures Forgotten(Exec(v, cfg, calls))
    decreases |calls|
  {
    hide Next, Forgotten;
    if calls != [] {
      NextForgotten(v, cfg, calls[0]);
      RunForgotten(Next(v, cfg, calls[0]), cfg, calls[1..]);
    }
  }

  lemma StartForgotten()
    ensures Forgotten(INITIAL)
  {
  }

  /** After every run that leaves the session listening without a client: a trusted connection that sends nothing yet
      is held in HANDSHAKE, unless the poll itself takes longer than a handshake may. */
  lemma {:induction false} SilentClientIsHeld(cfg: Config, calls: seq<Call>, input: PollInput, fd: nat)
    requires var v := Exec(INITIAL, cfg, calls); v.state != Shutdown && !HasClient(v) && Connects(v, input, fd)
    requires FirstOf(input.recv1) in {None, Some(RecvWouldBlock)} && input.now1 <= input.now2
    ensures var v := Exec(INITIAL, cfg, calls);
            var w := Polled(v, cfg, input).0;
            var limit := if 0 < cfg.staleTimeoutMs < 3000 then cfg.staleTimeoutMs else 3000;
            if input.now1 != 0 && input.now2 > input.now1 + limit then !HasClient(w)
            else w.clientFd == fd && w.state == Handshake && w.log == v.log && w.stream == []
  {
    var v := Exec(INITIAL, cfg, calls);
    InitialOk();
    RunKeepsOk(INITIAL, cfg, calls);
    StartForgotten();
    RunForgotten(INITIAL, cfg, calls);
    NewClientIsHeld(v, cfg, input, fd);
    BegunOk(v, fd, input.now1);
    hide Exec, ReadyServed, StreamOk, LogOk, Polled;
    var h, quiet := Taken(v, fd, input.now1), input.(polled := Quiet);
    assert LeadsTo(v, cfg, input, h);
    QuietPollDrops(h, cfg, quiet);
    QuietPollMeans(h, cfg, quiet);
  }

  /** And one whose first bytes are a HELLO is attached in the same poll with the number the HELLO carries. It stays
      connected unless a ping that is due fails for good, or the poll takes longer than a client may be silent. */
  lemma {:induction false} HelloConnects(cfg: Config, calls: seq<Call>, input: PollInput, fd: nat, chunk: Chunk,
                                         f: Frame, rest: seq<byte>)
    requires var v := Exec(INITIAL, cfg, calls); v.state != Shutdown && !HasClient(v) && Connects(v, input, fd)
    requires FirstOf(input.recv1) == Some(Data(chunk)) && input.attachRc1 == 0 && input.now1 <= input.now2
    requires chunk == Bytes(f) + rest && WholeFrame(f) && IsHello(f)
    ensures var v := Exec(INITIAL, cfg, calls);
            var w := Polled(v, cfg, input).0;
            var log := v.log + [Attach(fd, LittleEndian(f.payload))];
            var failed := cfg.pingIntervalMs > 0 && input.pingRc < 0 && input.pingRc !in {-EAGAIN, -EINTR};
            var late := cfg.staleTimeoutMs > 0 && input.now1 != 0 && input.now2 > input.now1 + cfg.staleTimeoutMs;
            if failed || late then !HasClient(w) && w.log == log + [Detach(fd)]
            else w.state == Connected && w.clientFd == fd && w.log == log && w.handled == [f] && w.held == rest
  {
    var v := Exec(INITIAL, cfg, calls);
    InitialOk();
    RunKeepsOk(INITIAL, cfg, calls);
    hide Exec, Ok, Bytes, WholeFrame, IsHello, LittleEndian, Polled;
    var h := Taken(v, fd, input.now1);
    HelloLeadsTo(v, cfg, input, fd, chunk, f, rest);
    ConnectedStays(h, Attached(h, input.now1, chunk, f, rest), cfg, input, chunk, f, rest);
  }

  lemma HelloLeadsTo(v: View, cfg: Config, input: PollInput, fd: nat, chunk: Chunk, f: Frame, rest: seq<byte>)
    requires Ok(v) && v.state != Shutdown && !HasClient(v) && Connects(v, input, fd)
    requires FirstOf(input.recv1) == Some(Data(chunk)) && input.attachRc1 == 0
    requires chunk == Bytes(f) + rest && WholeFrame(f) && IsHello(f)
    ensures Ok(Taken(v, fd, input.now1))
    ensures LeadsTo(v, cfg, input, Attached(Taken(v, fd, input.now1), input.now1, chunk, f, rest))
  {
    hide StreamOk, LogOk, Bytes, WholeFrame, IsHello, LittleEndian, LeadsTo;
    BegunOk(v, fd, input.now1);
    NewClientIsHeld(v, cfg, input, fd);
    assert Taken(v, fd, input.now1).held + chunk == Bytes(f) + rest;
  }

  lemma ConnectedStays(h: View, r: View, cfg: Config, input: PollInput, chunk: Chunk, f: Frame, rest: seq<byte>)
    requires Ok(h) && h.state == Handshake && h.held == [] && h.lastTxMs == 0 && input.now1 <= input.now2
    requires chunk == Bytes(f) + rest && WholeFrame(f) && IsHello(f) && r == Attached(h, input.now1, chunk, f, rest)
    ensures var w := Polled(r, cfg, input.(polled := Quiet)).0;
            var failed := cfg.pingIntervalMs > 0 && input.pingRc < 0 && input.pingRc !in {-EAGAIN, -EINTR};
            var late := cfg.staleTimeoutMs > 0 && input.now1 != 0 && input.now2 > input.now1 + cfg.staleTimeoutMs;
            if failed || late then !HasClient(w) && w.log == r.log + [Detach(h.clientFd)]
            else w.state == Connected && w.clientFd == h.clientFd && w.log == r.log && w.handled == r.handled
                 && w.held == rest
  {
    hide Parse, Decode, Bytes, WholeFrame, StreamOk, LogOk, LittleEndian, Polled, IsHello;
    assert Ok(r) by {
      GreetedIs(h, input.now1, [Data(chunk)], 0);
      GreetedOk(h, input.now1, [Data(chunk)], 0);
      assert h.held + chunk == Bytes(f) + rest;
    }
    QuietPollDrops(r, cfg, input.(polled := Quiet));
    QuietPollMeans(r, cfg, input.(polled := Quiet));
  }
}

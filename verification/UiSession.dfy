/** The UI session: accepting, handshaking, receiving, pinging and dropping one client, for any results of
    the system calls. Every run is a sequence of Start, PollOnce and Stop calls. */
module UiSession {
  import opened Common
  import opened UiProto

  const RECV_MAX := 512
  const HANDSHAKE_TIMEOUT_DEFAULT_MS := 3000
  const PONG_TIMEOUT_DEFAULT_MS := 5000
  const HELLO_SIZE := 8
  const EINTR := 4

  datatype State = Init | Idle | Handshake | Connected | Shutdown

  /** The callbacks made so far: attach with the client's last seen sequence number, and detach. */
  datatype Callback = Attach(fd: int, lastSeen: nat) | Detach(fd: int)

  type Chunk = b: seq<byte> | 0 < |b| <= RECV_MAX witness [0]
  type Errno = e: int | 0 < e witness 1

  datatype RecvRes = Data(bytes: Chunk) | Eof | RecvInterrupted | RecvWouldBlock | RecvErr(errno: Errno)

  /** Accepted descriptor, with the outcome of the credential check and of taking it over. */
  datatype AcceptRes = NoClient | NewClient(fd: nat, credentialsOk: bool, setOk: bool)

  datatype PollRes = Quiet | Ready | PollInterrupted | PollFailed(errno: Errno)

  datatype Config = Config(rejectNew: bool, replaceOnlyStale: bool, staleTimeoutMs: int, pingIntervalMs: int,
                           pongTimeoutMs: int)

  /** All that one poll gets from outside. The first receive results and attach result belong to the handshake
      right after an accept, the second to the client's own readiness. */
  datatype PollInput = PollInput(now1: nat, polled: PollRes, listenReady: bool, accepted: AcceptRes,
                                 recv1: seq<RecvRes>, attachRc1: int, hangup: bool, readable: bool,
                                 recv2: seq<RecvRes>, attachRc2: int, now2: nat, pingRc: int)

  /** A call into the session. */
  datatype Call = Start(openRc: int) | PollOnce(input: PollInput) | Stop

  function Get64(b: seq<byte>): nat
    requires |b| == HELLO_SIZE
  {
    Get32(b, 0) as int + 0x1_0000_0000 * (Get32(b, 4) as int)
  }

  predicate IsHello(f: Frame) {
    f.hdr.kind == FRAME_HELLO && |f.payload| == HELLO_SIZE
  }

  /** Unsigned 64-bit difference. */
  function Elapsed(now: nat, since: nat): int {
    if now >= since then now - since else now - since + 0x1_0000_0000_0000_0000
  }

  ghost predicate Alternating(log: seq<Callback>) {
    forall i, j :: 0 <= i < j < |log| && j == i + 1 && log[i].Attach? ==> log[j] == Detach(log[i].fd)
  }

  /** Between two attach callbacks there is always a detach callback, for the descriptor of the first. */
  lemma AttachesAreSeparated(log: seq<Callback>, i: nat, j: nat)
    requires Alternating(log) && i < j < |log| && log[i].Attach? && log[j].Attach?
    ensures exists k :: i < k < j && log[k] == Detach(log[i].fd)
  {
    assert log[i + 1] == Detach(log[i].fd);
  }

  /** Exactly the `handled` frames have been taken from the bytes received, and `held` is still there. */
  ghost predicate Consumed(stream: seq<byte>, handled: seq<Frame>, held: seq<byte>) {
    stream == Raw(handled) + held && AllWhole(handled)
  }

  /** That is, the handled frames are those that decoding all the bytes at once yields first. */
  lemma ConsumedIsDecoded(stream: seq<byte>, handled: seq<Frame>, held: seq<byte>)
    requires Consumed(stream, handled, held)
    ensures Decode(stream) == (handled + Decode(held).0, Decode(held).1)
  {
    RawDecodes(handled, held);
  }

  lemma ConsumedGrows(stream: seq<byte>, handled: seq<Frame>, held: seq<byte>, chunk: seq<byte>)
    requires Consumed(stream, handled, held)
    ensures Consumed(stream + chunk, handled, held + chunk)
  {
  }

  lemma ConsumedFrame(stream: seq<byte>, handled: seq<Frame>, held: seq<byte>, f: Frame, rest: seq<byte>)
    requires Consumed(stream, handled, held) && held == Bytes(f) + rest && WholeFrame(f)
    ensures Consumed(stream, handled + [f], rest)
  {
  }

  /** After an exact HELLO the buffer holds less than one receive. */
  lemma HelloLeavesLittle(held: seq<byte>, chunk: seq<byte>, f: Frame, rest: seq<byte>)
    requires Parse(held, PAYLOAD_MAX) == NeedMore && |chunk| <= RECV_MAX
    requires Parse(held + chunk, PAYLOAD_MAX) == Got(f, rest) && IsHello(f)
    ensures |rest| < RECV_MAX
  {
  }

  // ---- steps as functions ------------------------------------------------------------------------

  /** The whole session. `stream` are the bytes received on the current connection, `handled` the frames handled
      on it, `held` the bytes in the receive buffer; `log` are the callbacks made. */
  datatype View = View(state: State, listening: bool, clientFd: int, connected: bool, lastRxMs: nat, lastTxMs: nat,
                       lastAliveMs: nat, awaitPong: bool, pongDeadlineMs: nat, lastSeen: nat,
                       log: seq<Callback>, stream: seq<byte>, handled: seq<Frame>, held: seq<byte>)

  predicate HasClient(v: View) {
    v.clientFd >= 0
  }

  function Touched(v: View, now: nat): View {
    v.(lastRxMs := now, lastAliveMs := now)
  }

  function Dropped(v: View): View {
    v.(state := Idle, clientFd := -1, connected := false, lastRxMs := 0, lastTxMs := 0, lastAliveMs := 0,
       awaitPong := false, pongDeadlineMs := 0, lastSeen := 0,
       log := v.log + if v.clientFd >= 0 then [Detach(v.clientFd)] else [])
  }

  function Begun(v: View, fd: nat, now: nat): View {
    v.(state := Handshake, clientFd := fd, connected := false, lastTxMs := 0, lastAliveMs := now,
       awaitPong := false, pongDeadlineMs := 0, lastSeen := 0, stream := [], handled := [], held := [])
  }

  /** The client becomes connected if the attach callback accepts it, and is dropped otherwise. */
  function Finished(v: View, now: nat, attachRc: int): View {
    var w := v.(log := v.log + [Attach(v.clientFd, v.lastSeen)]);
    if attachRc != 0 then Dropped(w)
    else Touched(w, now).(state := Connected, connected := true, awaitPong := false, pongDeadlineMs := 0)
  }

  /** A chunk received while handshaking; 0: the HELLO is complete, 1: more data is needed. */
  function Greeting(v: View, now: nat, chunk: Chunk): (View, int) {
    var w := Touched(v, now).(stream := v.stream + chunk);
    match Parse(v.held + chunk, PAYLOAD_MAX)
    case NeedMore => (w.(held := v.held + chunk), 1)
    case BadHeader(rc) => (w.(held := []), rc)
    case OverCap => (w.(held := v.held + chunk), -EMSGSIZE)
    case Got(f, rest) =>
      if !IsHello(f) then (w.(held := rest), -EPROTO)
      else (w.(held := rest, handled := v.handled + [f], lastSeen := Get64(f.payload)), 0)
  }

  /** Receives until the first data or an end. */
  function HandshakeRx(v: View, now: nat, results: seq<RecvRes>): (View, int)
    decreases |results|
  {
    if results == [] then (v, 1)
    else match results[0]
      case RecvInterrupted => HandshakeRx(v, now, results[1..])
      case Eof => (v, -EPIPE)
      case RecvWouldBlock => (v, 1)
      case RecvErr(e) => (v, -(e as int))
      case Data(chunk) => Greeting(v, now, chunk)
  }

  /** The client becomes connected, keeps handshaking, or is dropped. */
  function Greeted(v: View, now: nat, results: seq<RecvRes>, attachRc: int): View {
    var (w, rc) := HandshakeRx(v, now, results);
    if rc == 0 then Finished(w, now, attachRc) else if rc < 0 then Dropped(w) else w
  }

  predicate HasPong(fs: seq<Frame>) {
    exists i :: 0 <= i < |fs| && fs[i].hdr.kind == FRAME_PONG
  }

  /** A PONG answers the ping and other frames are ignored. */
  function Handled(v: View, fs: seq<Frame>, held: seq<byte>): View {
    v.(handled := v.handled + fs, held := held, awaitPong := v.awaitPong && !HasPong(fs),
       pongDeadlineMs := if HasPong(fs) then 0 else v.pongDeadlineMs)
  }

  /** A chunk received while connected. False if a bad header was met. */
  function Talking(v: View, now: nat, chunk: Chunk): (View, bool) {
    var (fs, o) := Decode(v.held + chunk);
    (Handled(Touched(v, now).(stream := v.stream + chunk), fs, if o.Pending? then o.rest else []), o.Pending?)
  }

  /** Receives until nothing is left; the end of the stream, an error and a bad header drop the client. */
  function Received(v: View, now: nat, results: seq<RecvRes>): View
    decreases |results|
  {
    if results == [] then v
    else match results[0]
      case RecvInterrupted => Received(v, now, results[1..])
      case RecvWouldBlock => v
      case Eof => Dropped(v)
      case RecvErr(_) => Dropped(v)
      case Data(chunk) =>
        var (w, ok) := Talking(v, now, chunk);
        if ok then Received(w, now, results[1..]) else Dropped(w)
  }

  predicate IsStale(v: View, cfg: Config, now: nat) {
    cfg.staleTimeoutMs > 0 && v.lastRxMs != 0 && Elapsed(now, v.lastRxMs) > cfg.staleTimeoutMs
  }

  function HandshakeTimeoutMs(cfg: Config): int {
    if 0 < cfg.staleTimeoutMs < HANDSHAKE_TIMEOUT_DEFAULT_MS then cfg.staleTimeoutMs else HANDSHAKE_TIMEOUT_DEFAULT_MS
  }

  function PongTimeoutMs(cfg: Config): nat {
    if cfg.pongTimeoutMs > 0 then cfg.pongTimeoutMs else PONG_TIMEOUT_DEFAULT_MS
  }

  predicate HandshakeTimedOut(v: View, cfg: Config, now: nat) {
    v.state == Handshake && v.lastAliveMs != 0 && Elapsed(now, v.lastAliveMs) > HandshakeTimeoutMs(cfg)
  }

  predicate PongOverdue(v: View, now: nat) {
    v.awaitPong && v.pongDeadlineMs != 0 && now >= v.pongDeadlineMs
  }

  predicate PingDue(v: View, cfg: Config, now: nat) {
    cfg.pingIntervalMs > 0 && v.state == Connected
    && (v.lastTxMs == 0 || Elapsed(now, v.lastTxMs) >= cfg.pingIntervalMs)
  }

  /** A new connection: refused, taken over while there is no client, or replacing the client. */
  function Accepted(v: View, cfg: Config, now: nat, a: AcceptRes): View {
    if a.NoClient? || !a.credentialsOk then v
    else if !HasClient(v) then if a.setOk then Begun(v, a.fd, now) else v
    else if cfg.rejectNew || (cfg.replaceOnlyStale && !IsStale(v, cfg, now)) then v
    else if a.setOk then Begun(Dropped(v), a.fd, now)
    else Dropped(v)
  }

  /** A ping that cannot be sent now still arms the pong deadline; any other failure drops the client. */
  function Pinged(v: View, cfg: Config, now: nat, sendRc: int): View {
    var w := v.(awaitPong := true, pongDeadlineMs := now + PongTimeoutMs(cfg));
    if !PingDue(v, cfg, now) then v
    else if sendRc == 0 then w.(lastTxMs := now, lastAliveMs := now)
    else if sendRc == -EAGAIN || sendRc == -EINTR then w
    else if sendRc < 0 then Dropped(v)
    else v
  }

  function Expired(v: View, cfg: Config, now: nat): View {
    if HasClient(v) && (PongOverdue(v, now) || HandshakeTimedOut(v, cfg, now) || IsStale(v, cfg, now)) then Dropped(v)
    else v
  }

  /** What a client's own readiness leads to. It was polled before the accept, so `hangup` and `readable` may be
      about a client that has been replaced meanwhile. */
  function ClientServed(v: View, now: nat, hangup: bool, readable: bool, results: seq<RecvRes>, attachRc: int): View {
    if !HasClient(v) then v
    else if hangup then Dropped(v)
    else if !readable then v
    else if v.state == Handshake then Greeted(v, now, results, attachRc)
    else if v.state == Connected then Received(v, now, results)
    else v
  }

  function ReadyServed(v: View, cfg: Config, input: PollInput): View {
    var now, had := input.now1, HasClient(v);
    var a := if v.listening && input.listenReady then Accepted(v, cfg, now, input.accepted) else v;
    var g := if v.listening && input.listenReady && HasClient(a) && a.state == Handshake
             then Greeted(a, now, input.recv1, input.attachRc1) else a;
    ClientServed(g, now, had && input.hangup, had && input.readable, input.recv2, input.attachRc2)
  }

  function Polled(v: View, cfg: Config, input: PollInput): (View, int) {
    if v.state == Shutdown then (v, -EINVAL)
    else match input.polled
      case PollInterrupted => (v, 0)
      case PollFailed(e) => (v, -(e as int))
      case _ =>
        var w := if input.polled.Ready? then ReadyServed(v, cfg, input) else v;
        (Expired(Pinged(w, cfg, input.now2, input.pingRc), cfg, input.now2), 0)
  }

  function Opened(v: View, openRc: int): (View, int) {
    if !v.listening && openRc != 0 then (v, openRc)
    else (v.(listening := true, state := if v.state == Init then Idle else v.state), 0)
  }

  function Closed(v: View): View {
    Dropped(v).(listening := false, state := Shutdown)
  }

  function Next(v: View, cfg: Config, call: Call): View {
    match call
    case Start(openRc) => Opened(v, openRc).0
    case PollOnce(input) => Polled(v, cfg, input).0
    case Stop => Closed(v)
  }

  function Exec(v: View, cfg: Config, calls: seq<Call>): View
    decreases |calls|
  {
    if calls == [] then v else Exec(Next(v, cfg, calls[0]), cfg, calls[1..])
  }

  const INITIAL := View(Init, false, -1, false, 0, 0, 0, false, 0, 0, [], [], [], [])

  // ---- what holds between any two calls -----------------------------------------------------------

  /** The last callback was the attach of this very client, or there is no attach without its detach. */
  ghost predicate LogOk(v: View) {
    && Alternating(v.log)
    && (if v.state == Connected then v.log != [] && v.log[|v.log| - 1] == Attach(v.clientFd, v.lastSeen)
        else v.log == [] || v.log[|v.log| - 1].Detach?)
  }

  /** The frames handled on a connection are exactly those of the bytes received on it, as far as they have
      left the buffer. A handshaking client has sent no whole frame; a connected one began with a HELLO of
      exact size, whose content was passed to the attach callback. */
  ghost predicate StreamOk(v: View) {
    && (HasClient(v) ==> Consumed(v.stream, v.handled, v.held) && |v.held| <= PENDING_MAX)
    && (v.state == Handshake ==> v.handled == [] && v.held == v.stream
                                 && Parse(v.stream, PAYLOAD_MAX) == NeedMore)
    && (v.state == Connected ==> v.handled != [] && IsHello(v.handled[0])
                                 && v.lastSeen == Get64(v.handled[0].payload))
  }

  ghost predicate Ok(v: View) {
    && v.clientFd >= -1
    && (HasClient(v) <==> v.state in {Handshake, Connected})
    && (v.awaitPong ==> v.state == Connected)
    && (v.connected <==> v.state == Connected)
    && StreamOk(v)
    && LogOk(v)
  }

  /** A handshaking client whose HELLO has just been taken from the buffer. */
  ghost predicate SaidHello(v: View) {
    && HasClient(v) && v.state == Handshake && !v.awaitPong && !v.connected
    && Consumed(v.stream, v.handled, v.held) && |v.held| <= PENDING_MAX
    && |v.handled| == 1 && IsHello(v.handled[0]) && v.lastSeen == Get64(v.handled[0].payload)
    && LogOk(v)
  }

  lemma DroppedOk(v: View)
    requires v.clientFd >= -1 && Alternating(v.log)
    requires v.log == [] || v.log[|v.log| - 1].Detach? || (HasClient(v) && v.log[|v.log| - 1].fd == v.clientFd)
    ensures Ok(Dropped(v))
  {
  }

  lemma BegunOk(v: View, fd: nat, now: nat)
    requires Ok(v) && !HasClient(v)
    ensures Ok(Begun(v, fd, now))
  {
  }

  lemma FinishedOk(v: View, now: nat, attachRc: int)
    requires SaidHello(v)
    ensures Ok(Finished(v, now, attachRc))
  {
  }

  /** The chunk fits the buffer and the payload fits its space, whatever the peer sends. */
  lemma {:induction false} GreetingOk(v: View, now: nat, chunk: Chunk)
    requires Ok(v) && v.state == Handshake
    ensures |v.held| <= PENDING_MAX && Parse(v.held + chunk, PAYLOAD_MAX) != OverCap
    ensures var (w, rc) := Greeting(v, now, chunk);
            (rc == 0 ==> SaidHello(w)) && (rc == 1 ==> Ok(w)) && rc <= 1
            && w.log == v.log && w.clientFd == v.clientFd
  {
    hide Parse, Consumed, Get64;
    var all := v.held + chunk;
    var p := Parse(all, PAYLOAD_MAX);
    PendingIsShort(all, PAYLOAD_MAX);
    ConsumedGrows(v.stream, v.handled, v.held, chunk);
    if p.Got? && IsHello(p.frame) {
      HelloLeavesLittle(v.held, chunk, p.frame, p.rest);
      ParseLosesNothing(all, PAYLOAD_MAX);
      ConsumedFrame(v.stream + chunk, v.handled, all, p.frame, p.rest);
    }
  }

  lemma {:induction false} HandshakeRxOk(v: View, now: nat, results: seq<RecvRes>)
    requires Ok(v) && v.state == Handshake
    ensures var (w, rc) := HandshakeRx(v, now, results);
            (rc == 0 ==> SaidHello(w)) && (rc == 1 ==> Ok(w)) && rc <= 1
            && w.log == v.log && w.clientFd == v.clientFd
    decreases |results|
  {
    hide StreamOk, SaidHello, Greeting;
    if results != [] {
      if results[0].RecvInterrupted? {
        HandshakeRxOk(v, now, results[1..]);
      } else if results[0].Data? {
        GreetingOk(v, now, results[0].bytes);
      }
    }
  }

  lemma GreetedOk(v: View, now: nat, results: seq<RecvRes>, attachRc: int)
    requires Ok(v) && v.state == Handshake
    ensures Ok(Greeted(v, now, results, attachRc))
  {
    hide HandshakeRx, SaidHello, StreamOk, Finished;
    HandshakeRxOk(v, now, results);
    var (w, rc) := HandshakeRx(v, now, results);
    if rc == 0 { FinishedOk(w, now, attachRc); } else if rc < 0 { DroppedOk(w); }
  }

  lemma TalkingOk(v: View, now: nat, chunk: Chunk)
    requires Ok(v) && v.state == Connected
    ensures |v.held| <= PENDING_MAX
    ensures Talking(v, now, chunk).1 ==> Ok(Talking(v, now, chunk).0)
  {
    hide Decode, Parse, Consumed, IsHello, Get64;
    var all := v.held + chunk;
    var (fs, o) := Decode(all);
    if o.Pending? {
      DecodeLosesNothing(all);
      DecodeLeavesLittle(all);
      ConsumedGrows(v.stream, v.handled, v.held, chunk);
      ConsumedFrames(v.stream + chunk, v.handled, all, fs, o.rest);
    }
  }

  lemma {:induction false} RawOfFrames(fs: seq<Frame>, gs: seq<Frame>)
    ensures Raw(fs + gs) == Raw(fs) + Raw(gs)
    decreases |gs|
  {
    hide Bytes;
    if gs == [] {
      assert fs + gs == fs;
    } else {
      var all := fs + gs;
      assert all[..|all| - 1] == fs + gs[..|gs| - 1];
      RawOfFrames(fs, gs[..|gs| - 1]);
      assert Raw(fs) + (Raw(gs[..|gs| - 1]) + Bytes(gs[|gs| - 1]))
             == Raw(fs) + Raw(gs[..|gs| - 1]) + Bytes(gs[|gs| - 1]);
    }
  }

  lemma ConsumedFrames(stream: seq<byte>, handled: seq<Frame>, held: seq<byte>, fs: seq<Frame>, rest: seq<byte>)
    requires Consumed(stream, handled, held) && held == Raw(fs) + rest
    requires AllWhole(fs)
    ensures Consumed(stream, handled + fs, rest)
  {
    hide Raw;
    RawOfFrames(handled, fs);
    assert Raw(handled) + (Raw(fs) + rest) == Raw(handled) + Raw(fs) + rest;
  }

  lemma {:induction false} ReceivedOk(v: View, now: nat, results: seq<RecvRes>)
    requires Ok(v) && v.state == Connected
    ensures Ok(Received(v, now, results))
    decreases |results|
  {
    hide StreamOk;
    if results != [] {
      DroppedOk(v);
      match results[0]
      case RecvInterrupted => ReceivedOk(v, now, results[1..]);
      case Data(chunk) =>
        TalkingOk(v, now, chunk);
        var (w, ok) := Talking(v, now, chunk);
        if ok { ReceivedOk(w, now, results[1..]); } else { DroppedOk(w); }
      case _ =>
    }
  }

  lemma AcceptedOk(v: View, cfg: Config, now: nat, a: AcceptRes)
    requires Ok(v)
    ensures Ok(Accepted(v, cfg, now, a))
  {
    DroppedOk(v);
    BegunOk(Dropped(v), if a.NewClient? then a.fd else 0, now);
    if !HasClient(v) { BegunOk(v, if a.NewClient? then a.fd else 0, now); }
  }

  /** A client is only ever displaced under the replace policy, when stale if the policy asks for that, and it
      is told to detach first. */
  lemma OnlyPolicyDisplaces(v: View, cfg: Config, now: nat, a: AcceptRes)
    requires Ok(v) && HasClient(v)
    ensures Accepted(v, cfg, now, a) != v
            <==> a.NewClient? && a.credentialsOk && !cfg.rejectNew && (cfg.replaceOnlyStale ==> IsStale(v, cfg, now))
    ensures Accepted(v, cfg, now, a) != v ==> Accepted(v, cfg, now, a).log == v.log + [Detach(v.clientFd)]
  {
  }

  /** A connection that the policy or the credential check turns down leaves no trace: the whole poll, with all its
      receives, callbacks and timeouts, goes as if nobody had connected. */
  lemma RefusalLeavesNoTrace(v: View, cfg: Config, input: PollInput)
    requires HasClient(v) && input.accepted.NewClient?
    requires !input.accepted.credentialsOk || cfg.rejectNew
             || (cfg.replaceOnlyStale && !IsStale(v, cfg, input.now1))
    ensures Polled(v, cfg, input) == Polled(v, cfg, input.(accepted := NoClient))
  {
    hide Greeted, ClientServed, Pinged, Expired;
    assert ReadyServed(v, cfg, input) == ReadyServed(v, cfg, input.(accepted := NoClient));
  }

  lemma ClientServedOk(v: View, now: nat, hangup: bool, readable: bool, results: seq<RecvRes>, attachRc: int)
    requires Ok(v)
    ensures Ok(ClientServed(v, now, hangup, readable, results, attachRc))
  {
    hide StreamOk, Greeted, Received;
    if HasClient(v) { DroppedOk(v); }
    if v.state == Handshake {
      GreetedOk(v, now, results, attachRc);
    } else if v.state == Connected {
      ReceivedOk(v, now, results);
    }
  }

  lemma ReadyOk(v: View, cfg: Config, input: PollInput)
    requires Ok(v)
    ensures Ok(ReadyServed(v, cfg, input))
  {
    hide StreamOk, LogOk, Greeted, Accepted, ClientServed;
    var now, had, w := input.now1, HasClient(v), v;
    if v.listening && input.listenReady {
      AcceptedOk(v, cfg, now, input.accepted);
      w := Accepted(v, cfg, now, input.accepted);
      if HasClient(w) && w.state == Handshake {
        GreetedOk(w, now, input.recv1, input.attachRc1);
        w := Greeted(w, now, input.recv1, input.attachRc1);
      }
    }
    ClientServedOk(w, now, had && input.hangup, had && input.readable, input.recv2, input.attachRc2);
  }

  lemma PolledOk(v: View, cfg: Config, input: PollInput)
    requires Ok(v)
    ensures Ok(Polled(v, cfg, input).0)
  {
    hide Ok, ReadyServed, Pinged, Expired;
    ReadyOk(v, cfg, input);
    var w := if input.polled.Ready? then ReadyServed(v, cfg, input) else v;
    PingedOk(w, cfg, input.now2, input.pingRc);
    ExpiredOk(Pinged(w, cfg, input.now2, input.pingRc), cfg, input.now2);
  }

  lemma PingedOk(v: View, cfg: Config, now: nat, sendRc: int)
    requires Ok(v)
    ensures Ok(Pinged(v, cfg, now, sendRc))
  {
    DroppedOk(v);
  }

  lemma ExpiredOk(v: View, cfg: Config, now: nat)
    requires Ok(v)
    ensures Ok(Expired(v, cfg, now))
  {
  }

  lemma NextOk(v: View, cfg: Config, call: Call)
    requires Ok(v)
    ensures Ok(Next(v, cfg, call))
  {
    hide Polled, Ok;
    match call
    case Start(openRc) => StartOk(v, openRc);
    case PollOnce(input) => PolledOk(v, cfg, input);
    case Stop => StopOk(v);
  }

  /** In every run of start, poll and stop, whatever the system calls return and the peers send: a descriptor is
      held exactly while handshaking or connected, a pong is awaited only while connected, the frames handled
      are those of the bytes received on the connection and begin with a HELLO of exact size, and attaches are
      separated by detaches. */
  lemma {:induction false} RunKeepsOk(v: View, cfg: Config, calls: seq<Call>)
    requires Ok(v)
    ensures Ok(Exec(v, cfg, calls))
    decreases |calls|
  {
    hide Next, Ok;
    if calls != [] {
      NextOk(v, cfg, calls[0]);
      RunKeepsOk(Next(v, cfg, calls[0]), cfg, calls[1..]);
    }
  }

  lemma StartOk(v: View, openRc: int)
    requires Ok(v)
    ensures Ok(Opened(v, openRc).0)
  {
  }

  lemma StopOk(v: View)
    requires Ok(v)
    ensures Ok(Closed(v))
  {
  }

  lemma InitialOk()
    ensures Ok(INITIAL)
  {
  }

  /** The same, spelled out for a run from the start. Frames that came in one chunk with the HELLO may still be
      in the buffer of a connected client. */
  lemma {:induction false} EveryRun(cfg: Config, calls: seq<Call>, i: nat, j: nat)
    ensures var v := Exec(INITIAL, cfg, calls);
            && (v.clientFd >= 0 <==> v.state in {Handshake, Connected})
            && (v.awaitPong ==> v.state == Connected)
            && (v.state == Handshake ==> v.handled == [] && v.held == v.stream)
            && (v.state == Connected ==>
                  && v.handled != [] && IsHello(v.handled[0])
                  && v.log != [] && v.log[|v.log| - 1] == Attach(v.clientFd, Get64(v.handled[0].payload)))
            && (v.clientFd >= 0 ==> Decode(v.stream) == (v.handled + Decode(v.held).0, Decode(v.held).1)
                                    && |v.held| <= PENDING_MAX)
            && (i < j < |v.log| && v.log[i].Attach? && v.log[j].Attach? ==>
                  exists k :: i < k < j && v.log[k] == Detach(v.log[i].fd))
  {
    hide Exec, Decode, Consumed, IsHello, Get64, Alternating;
    InitialOk();
    RunKeepsOk(INITIAL, cfg, calls);
    var v := Exec(INITIAL, cfg, calls);
    if v.clientFd >= 0 { ConsumedIsDecoded(v.stream, v.handled, v.held); }
    if i < j < |v.log| && v.log[i].Attach? && v.log[j].Attach? { AttachesAreSeparated(v.log, i, j); }
  }

  // ---- the pong deadline --------------------------------------------------------------------------

  /** The deadline is never earlier than the timeout after the last ping that was sent. */
  ghost predicate PingOk(v: View, cfg: Config, t: nat) {
    && v.lastTxMs <= t
    && (v.awaitPong ==> v.lastTxMs == 0 || v.pongDeadlineMs >= v.lastTxMs + PongTimeoutMs(cfg))
  }

  lemma {:induction false} HandshakePingOk(v: View, cfg: Config, t: nat, now: nat, results: seq<RecvRes>)
    requires PingOk(v, cfg, t)
    ensures PingOk(HandshakeRx(v, now, results).0, cfg, t)
    decreases |results|
  {
    hide Parse, IsHello, Get64, PongTimeoutMs;
    if results != [] && results[0].RecvInterrupted? { HandshakePingOk(v, cfg, t, now, results[1..]); }
  }

  lemma {:induction false} ReceivedPingOk(v: View, cfg: Config, t: nat, now: nat, results: seq<RecvRes>)
    requires PingOk(v, cfg, t)
    ensures PingOk(Received(v, now, results), cfg, t)
    decreases |results|
  {
    hide Decode, HasPong, PongTimeoutMs;
    if results != [] {
      if results[0].RecvInterrupted? {
        ReceivedPingOk(v, cfg, t, now, results[1..]);
      } else if results[0].Data? && Talking(v, now, results[0].bytes).1 {
        ReceivedPingOk(Talking(v, now, results[0].bytes).0, cfg, t, now, results[1..]);
      }
    }
  }

  lemma ReadyPingOk(v: View, cfg: Config, t: nat, input: PollInput)
    requires PingOk(v, cfg, t)
    ensures PingOk(ReadyServed(v, cfg, input), cfg, t)
  {
    hide HandshakeRx, Received, PongTimeoutMs, IsStale;
    var now := input.now1;
    var a := if v.listening && input.listenReady then Accepted(v, cfg, now, input.accepted) else v;
    HandshakePingOk(a, cfg, t, now, input.recv1);
    var g := if v.listening && input.listenReady && HasClient(a) && a.state == Handshake
             then Greeted(a, now, input.recv1, input.attachRc1) else a;
    HandshakePingOk(g, cfg, t, now, input.recv2);
    ReceivedPingOk(g, cfg, t, now, input.recv2);
  }

  /** Does the poll find, when it looks for expired clients, that a pong is overdue? */
  predicate FindsPongOverdue(v: View, cfg: Config, input: PollInput) {
    && v.state != Shutdown && (input.polled.Quiet? || input.polled.Ready?)
    && var w := if input.polled.Ready? then ReadyServed(v, cfg, input) else v;
       PongOverdue(Pinged(w, cfg, input.now2, input.pingRc), input.now2)
  }

  /** A ping that is due arms the deadline anew before the deadline is looked at. */
  lemma OverdueOnlyWithoutPing(v: View, cfg: Config, now: nat, sendRc: int)
    requires sendRc in {0, -EAGAIN, -EINTR}
    ensures PongOverdue(Pinged(v, cfg, now, sendRc), now) <==> PongOverdue(v, now) && !PingDue(v, cfg, now)
  {
  }

  /** The clock does not run backwards, and no ping fails for good. */
  ghost predicate Regular(calls: seq<Call>, t: nat) {
    calls == []
    || (var c := calls[0];
        (c.PollOnce? ==> t <= c.input.now2 && c.input.pingRc in {0, -EAGAIN, -EINTR})
        && Regular(calls[1..], if c.PollOnce? then c.input.now2 else t))
  }

  lemma PingOkLater(v: View, cfg: Config, t: nat, now: nat)
    requires PingOk(v, cfg, t) && t <= now
    ensures PingOk(v, cfg, now)
  {
  }

  lemma ExpiredPingOk(v: View, cfg: Config, now: nat)
    requires PingOk(v, cfg, now)
    ensures PingOk(Expired(v, cfg, now), cfg, now)
  {
  }

  lemma PingedPingOk(v: View, cfg: Config, t: nat, now: nat, sendRc: int)
    requires PingOk(v, cfg, t) && t <= now && sendRc in {0, -EAGAIN, -EINTR}
    requires 0 < cfg.pingIntervalMs <= PongTimeoutMs(cfg) && Ok(v)
    ensures PingOk(Pinged(v, cfg, now, sendRc), cfg, now) && !PongOverdue(Pinged(v, cfg, now, sendRc), now)
  {
  }

  lemma PolledPingOk(v: View, cfg: Config, t: nat, input: PollInput)
    requires PingOk(v, cfg, t) && t <= input.now2 && input.pingRc in {0, -EAGAIN, -EINTR}
    requires 0 < cfg.pingIntervalMs <= PongTimeoutMs(cfg) && Ok(v)
    ensures PingOk(Polled(v, cfg, input).0, cfg, input.now2) && !FindsPongOverdue(v, cfg, input)
  {
    hide ReadyServed, Pinged, Expired, PingOk, Ok, PongOverdue, PongTimeoutMs;
    ReadyPingOk(v, cfg, t, input);
    ReadyOk(v, cfg, input);
    var w := if input.polled.Ready? then ReadyServed(v, cfg, input) else v;
    PingedPingOk(w, cfg, t, input.now2, input.pingRc);
    ExpiredPingOk(Pinged(w, cfg, input.now2, input.pingRc), cfg, input.now2);
    PingOkLater(v, cfg, t, input.now2);
  }

  /** If a ping is sent at least as often as the pong timeout, the timeout never strikes: in no run
      does a poll find a pong overdue, however long the client has been silent. */
  lemma {:induction false} FrequentPingsDisableThePongTimeout(v: View, cfg: Config, t: nat, calls: seq<Call>, k: nat)
    requires Ok(v) && PingOk(v, cfg, t) && Regular(calls, t)
    requires 0 < cfg.pingIntervalMs <= PongTimeoutMs(cfg)
    requires k < |calls| && calls[k].PollOnce?
    ensures !FindsPongOverdue(Exec(v, cfg, calls[..k]), cfg, calls[k].input)
    decreases |calls|
  {
    hide Polled, FindsPongOverdue, StreamOk, LogOk;
    var c := calls[0];
    if c.PollOnce? { PolledPingOk(v, cfg, t, c.input); }
    if k > 0 {
      assert calls[..k][0] == c && calls[..k][1..] == calls[1..][..k - 1];
      NextOk(v, cfg, c);
      var t' := if c.PollOnce? then c.input.now2 else t;
      FrequentPingsDisableThePongTimeout(Next(v, cfg, c), cfg, t', calls[1..], k - 1);
    }
  }

  /** Exactly when a poll without events drops the client, on a clock that does not run backwards: a handshake
      has taken too long, nothing has been received for too long, a pong is overdue and no ping is due, or a ping
      that is due fails for good. */
  lemma {:induction false} QuietPollDrops(v: View, cfg: Config, input: PollInput)
    requires Ok(v) && HasClient(v) && input.polled.Quiet?
    requires v.lastRxMs <= input.now2 && v.lastTxMs <= input.now2 && v.lastAliveMs <= input.now2
    ensures var now, rc := input.now2, input.pingRc;
            var due := v.state == Connected && cfg.pingIntervalMs > 0
                       && (v.lastTxMs == 0 || now >= v.lastTxMs + cfg.pingIntervalMs);
            var pinged := due && rc in {0, -EAGAIN, -EINTR};
            !HasClient(Polled(v, cfg, input).0) <==>
              || (due && !pinged && rc < 0)
              || (v.state == Handshake && v.lastAliveMs != 0
                  && now > v.lastAliveMs + if 0 < cfg.staleTimeoutMs < 3000 then cfg.staleTimeoutMs else 3000)
              || (cfg.staleTimeoutMs > 0 && v.lastRxMs != 0 && now > v.lastRxMs + cfg.staleTimeoutMs)
              || (v.awaitPong && !pinged && v.pongDeadlineMs != 0 && now >= v.pongDeadlineMs)
  {
    hide StreamOk, LogOk;
  }

  /** A quiet poll that sends a ping at time `t`, and another quiet poll later: the second finds the pong overdue
      exactly if its time is at least `t` plus the pong timeout and no ping is due yet. So an interval longer than
      the timeout is what makes the timeout strike. */
  lemma {:induction false} PongTimeoutStrikes(v: View, cfg: Config, first: PollInput, second: PollInput)
    requires first.polled.Quiet? && second.polled.Quiet? && 0 < first.now2 <= second.now2
    requires PingDue(v, cfg, first.now2) && first.pingRc == 0 && second.pingRc in {0, -EAGAIN, -EINTR}
    requires HasClient(Polled(v, cfg, first).0)
    ensures var t, w := first.now2, Polled(v, cfg, first).0;
            && (FindsPongOverdue(w, cfg, second)
                <==> t + PongTimeoutMs(cfg) <= second.now2 < t + cfg.pingIntervalMs)
            && (FindsPongOverdue(w, cfg, second) ==> Polled(w, cfg, second) == (Dropped(w), 0))
  {
    var w := Polled(v, cfg, first).0;
    assert w == Pinged(v, cfg, first.now2, 0);
    OverdueOnlyWithoutPing(w, cfg, second.now2, second.pingRc);
  }

  // ---- what is left over from before -------------------------------------------------------------

  predicate NoData(results: seq<RecvRes>) {
    forall r :: r in results ==> r.RecvInterrupted? || r.RecvWouldBlock?
  }

  lemma {:induction false} NoDataNoChange(v: View, now: nat, results: seq<RecvRes>)
    requires NoData(results)
    ensures HandshakeRx(v, now, results) == (v, 1) && Received(v, now, results) == v
    decreases |results|
  {
    if results != [] && results[0].RecvInterrupted? { NoDataNoChange(v, now, results[1..]); }
  }

  /** A client that replaces another during a poll, and has sent nothing yet, outlives the events of this poll
      exactly if its predecessor had not hung up. */
  lemma HangupHitsTheSuccessor(v: View, cfg: Config, input: PollInput)
    requires HasClient(v) && v.listening && input.listenReady
    requires input.accepted.NewClient? && input.accepted.setOk && Accepted(v, cfg, input.now1, input.accepted) != v
    requires NoData(input.recv1) && NoData(input.recv2)
    ensures HasClient(ReadyServed(v, cfg, input)) <==> !input.hangup
    ensures !input.hangup ==> ReadyServed(v, cfg, input) == Begun(Dropped(v), input.accepted.fd, input.now1)
  {
    var a := Begun(Dropped(v), input.accepted.fd, input.now1);
    NoDataNoChange(a, input.now1, input.recv1);
    NoDataNoChange(a, input.now1, input.recv2);
  }

  /** Whatever arrives and whoever connects, after a hangup of the client the poll started with nobody is there. */
  lemma HangupLeavesNobody(v: View, cfg: Config, input: PollInput)
    requires HasClient(v) && input.hangup
    ensures !HasClient(ReadyServed(v, cfg, input))
  {
  }

  /** The chunk that completes the HELLO: only the first of its frames is handled. The others stay in the buffer,
      and there are any exactly if the chunk held more than one. */
  lemma {:induction false} FramesBehindHelloWait(v: View, now: nat, chunk: Chunk)
    requires Ok(v) && v.state == Handshake && Greeting(v, now, chunk).1 == 0
    ensures var w := Greeted(v, now, [Data(chunk)], 0);
            && w.state == Connected && |w.handled| == 1
            && Decode(v.held + chunk) == (w.handled + Decode(w.held).0, Decode(w.held).1)
            && (Decode(w.held).0 != [] <==> |Decode(v.held + chunk).0| > 1)
  {
    hide Parse, Greeting, Greeted, Decode, IsHello, Ok;
    var w := Greeted(v, now, [Data(chunk)], 0);
    HelloOnly(v, now, chunk);
    DecodeFirst(v.held + chunk, w.handled[0], w.held);
    assert w.handled == [w.handled[0]];
  }

  /** As long as no data arrives they stay there; the next chunk brings them out. */
  lemma TheyWaitForData(w: View, now: nat, more: seq<RecvRes>, next: Chunk)
    requires NoData(more)
    ensures Received(w, now, more) == w
    ensures Talking(w, now, next).0.handled == w.handled + Decode(w.held + next).0
    ensures Decode(w.held).0 <= Decode(w.held + next).0
  {
    hide Decode;
    NoDataNoChange(w, now, more);
    DecodeResumes(w.held, next);
  }

  lemma {:induction false} HelloOnly(v: View, now: nat, chunk: Chunk)
    requires Ok(v) && v.state == Handshake && Greeting(v, now, chunk).1 == 0
    ensures var w := Greeted(v, now, [Data(chunk)], 0);
            && w.state == Connected && |w.handled| == 1
            && Parse(v.held + chunk, PAYLOAD_MAX) == Got(w.handled[0], w.held)
  {
    hide Parse, StreamOk, LogOk, IsHello, Get64;
    HandshakeHasNone(v);
    GreetingOfHello(v, now, chunk);
    assert HandshakeRx(v, now, [Data(chunk)]) == Greeting(v, now, chunk);
  }

  lemma HandshakeHasNone(v: View)
    requires Ok(v) && v.state == Handshake
    ensures v.handled == []
  {
  }

  lemma {:induction false} GreetingOfHello(v: View, now: nat, chunk: Chunk)
    requires v.handled == []
    ensures var (w, rc) := Greeting(v, now, chunk);
            rc == 0 ==> |w.handled| == 1 && Parse(v.held + chunk, PAYLOAD_MAX) == Got(w.handled[0], w.held)
  {
    hide Parse, IsHello, Get64;
    var p := Parse(v.held + chunk, PAYLOAD_MAX);
  }

  lemma DecodeFirst(s: seq<byte>, f: Frame, rest: seq<byte>)
    requires Parse(s, PAYLOAD_MAX) == Got(f, rest)
    ensures Decode(s) == ([f] + Decode(rest).0, Decode(rest).1)
  {
    hide Parse;
  }

  function HelloFrame(seen: seq<byte>): Frame
    requires |seen| == HELLO_SIZE
  {
    FrameOf(SendReq(FRAME_HELLO, 0, seen))
  }

  const PONG_FRAME: Frame := FrameOf(SendReq(FRAME_PONG, 0, []))

  lemma HelloAndPong(seen: seq<byte>)
    requires |seen| == HELLO_SIZE
    ensures |Bytes(HelloFrame(seen)) + Bytes(PONG_FRAME)| <= RECV_MAX
    ensures Parse(Bytes(HelloFrame(seen)) + Bytes(PONG_FRAME), PAYLOAD_MAX)
            == Got(HelloFrame(seen), Bytes(PONG_FRAME))
    ensures Decode(Bytes(PONG_FRAME)) == ([PONG_FRAME], Pending([]))
  {
    hide Parse, Decode;
    ParsesBack(SendReq(FRAME_HELLO, 0, seen), Bytes(PONG_FRAME));
    ParsesBack(SendReq(FRAME_PONG, 0, []), []);
    assert Bytes(PONG_FRAME) + [] == Bytes(PONG_FRAME);
    DecodeFirst(Bytes(PONG_FRAME), PONG_FRAME, []);
    NoChunks();
    assert [PONG_FRAME] + [] == [PONG_FRAME];
  }

  /** There are such chunks: a HELLO with any number and a PONG fit into one. */
  lemma PongBehindHelloWaits(v: View, now: nat, seen: seq<byte>)
    requires Ok(v) && v.state == Handshake && v.held == [] && |seen| == HELLO_SIZE
    ensures var chunk := Bytes(HelloFrame(seen)) + Bytes(PONG_FRAME);
            && |chunk| <= RECV_MAX
            && var w := Greeted(v, now, [Data(chunk)], 0);
               w.state == Connected && w.handled == [HelloFrame(seen)] && Decode(w.held).0 == [PONG_FRAME]
  {
    hide Parse, Decode, Bytes, Ok, Get64, Greeted;
    HelloAndPong(seen);
    var chunk: Chunk := Bytes(HelloFrame(seen)) + Bytes(PONG_FRAME);
    assert v.held + chunk == chunk;
    HelloOnly(v, now, chunk);
    var w := Greeted(v, now, [Data(chunk)], 0);
    assert Parse(chunk, PAYLOAD_MAX) == Got(w.handled[0], w.held);
    assert w.handled == [HelloFrame(seen)] && w.held == Bytes(PONG_FRAME);
  }

  class UiMgr {
    const cfg: Config
    const rx: RxBuf
    var state: State
    var listening: bool
    var clientFd: int
    var connected: bool
    var lastRxMs: nat
    var lastTxMs: nat
    var lastAliveMs: nat
    var awaitPong: bool
    var pongDeadlineMs: nat
    var helloLastSeen: nat
    ghost var log: seq<Callback>
    ghost var stream: seq<byte>
    ghost var handled: seq<Frame>

    ghost function Snap(): View
      requires rx.Valid()
      reads this, rx, rx.buf
    {
      View(state, listening, clientFd, connected, lastRxMs, lastTxMs, lastAliveMs, awaitPong, pongDeadlineMs,
           helloLastSeen, log, stream, handled, rx.Content())
    }

    ghost predicate Inv()
      reads this, rx, rx.buf
    {
      rx.Valid() && Ok(Snap())
    }

    constructor (cfg: Config)
      ensures Inv() && fresh(rx) && fresh(rx.buf)
      ensures Snap() == INITIAL && this.cfg == cfg
    {
      this.cfg := cfg;
      rx := new RxBuf();
      state, listening, clientFd, connected := Init, false, -1, false;
      lastRxMs, lastTxMs, lastAliveMs := 0, 0, 0;
      awaitPong, pongDeadlineMs, helloLastSeen := false, 0, 0;
      log, stream, handled := [], [], [];
      new;
      InitialOk();
    }

    method ClearMarks()
      modifies this`lastRxMs, this`lastTxMs, this`lastAliveMs, this`connected, this`awaitPong, this`pongDeadlineMs,
               this`helloLastSeen
      ensures lastRxMs == lastTxMs == lastAliveMs == pongDeadlineMs == helloLastSeen == 0
      ensures !connected && !awaitPong
    {
      lastRxMs, lastTxMs, lastAliveMs := 0, 0, 0;
      connected := false;
      awaitPong, pongDeadlineMs := false, 0;
      helloLastSeen := 0;
    }

    method DropUi()
      requires rx.Valid()
      modifies this
      ensures rx.Valid() && Snap() == Dropped(old(Snap()))
    {
      if clientFd >= 0 { log := log + [Detach(clientFd)]; }
      clientFd := -1;
      ClearMarks();
      state := Idle;
    }

    method AttachBegin(fd: nat, now: nat)
      requires rx.Valid()
      modifies this, rx
      ensures rx.Valid() && Snap() == Begun(old(Snap()), fd, now)
    {
      rx.Clear();
      clientFd := fd;
      lastTxMs, lastAliveMs := 0, now;
      connected := false;
      awaitPong, pongDeadlineMs := false, 0;
      helloLastSeen := 0;
      stream, handled := [], [];
      state := Handshake;
    }

    method MarkConnected(now: nat)
      modifies this`state, this`connected, this`lastRxMs, this`lastAliveMs, this`awaitPong, this`pongDeadlineMs
      ensures state == Connected && connected && lastRxMs == lastAliveMs == now && !awaitPong && pongDeadlineMs == 0
    {
      connected := true;
      lastRxMs, lastAliveMs := now, now;
      awaitPong, pongDeadlineMs := false, 0;
      state := Connected;
    }

    method FinishAttach(now: nat, attachRc: int)
      requires rx.Valid()
      modifies this
      ensures rx.Valid() && Snap() == Finished(old(Snap()), now, attachRc)
    {
      log := log + [Attach(clientFd, helloLastSeen)];
      if attachRc != 0 {
        DropUi();
        return;
      }
      MarkConnected(now);
    }

    /** Takes a received chunk into the buffer, which has room for it. */
    method TakeIn(now: nat, chunk: Chunk)
      requires rx.Valid() && |rx.Content()| <= PENDING_MAX
      modifies this`lastRxMs, this`lastAliveMs, this`stream, rx`used, rx.buf
      ensures rx.Valid() && rx.Content() == old(rx.Content()) + chunk
      ensures lastRxMs == lastAliveMs == now && stream == old(stream) + chunk
    {
      lastRxMs, lastAliveMs := now, now;
      var rc := rx.Append(chunk);
      if rc != 0 { assert false; }
      stream := stream + chunk;
    }

    /** Data received while handshaking. The buffer has room and the payload fits, whatever the peer sends. */
    method TakeHello(now: nat, chunk: Chunk) returns (rc: int)
      requires Inv() && state == Handshake
      modifies this, rx, rx.buf
      ensures rx.Valid() && (Snap(), rc) == Greeting(old(Snap()), now, chunk)
    {
      hide Parse, Ok, Consumed, Get64, ValidKind;
      GreetingOk(Snap(), now, chunk);
      TakeIn(now, chunk);
      var p := rx.TryParse(PAYLOAD_MAX);
      match p
      case NeedMore => return 1;
      case OverCap => assert false;
      case BadHeader(e) => return e;
      case Got(f, rest) =>
        if f.hdr.kind != FRAME_HELLO { return -EPROTO; }
        if |f.payload| != HELLO_SIZE { return -EPROTO; }
        helloLastSeen := Get64(f.payload);
        handled := handled + [f];
        return 0;
    }

    method RxHandshake(now: nat, results: seq<RecvRes>) returns (rc: int)
      requires Inv() && state == Handshake
      modifies this, rx, rx.buf
      ensures rx.Valid() && (Snap(), rc) == HandshakeRx(old(Snap()), now, results)
    {
      hide Ok, Greeting;
      var i := 0;
      assert results[0..] == results;
      while i < |results| && results[i].RecvInterrupted?
        invariant i <= |results| && Inv() && Snap() == old(Snap())
        invariant HandshakeRx(Snap(), now, results) == HandshakeRx(Snap(), now, results[i..])
      {
        assert results[i..][1..] == results[i + 1..];
        i := i + 1;
      }
      if i == |results| { return 1; }
      match results[i]
      case RecvInterrupted => assert false;
      case Eof => return -EPIPE;
      case RecvWouldBlock => return 1;
      case RecvErr(e) => return -(e as int);
      case Data(chunk) => rc := TakeHello(now, chunk);
    }

    method TryGreet(now: nat, results: seq<RecvRes>, attachRc: int)
      requires Inv() && state == Handshake
      modifies this, rx, rx.buf
      ensures Inv() && Snap() == Greeted(old(Snap()), now, results, attachRc)
    {
      GreetedOk(Snap(), now, results, attachRc);
      hide HandshakeRx, Ok, Dropped, Finished;
      var rc := RxHandshake(now, results);
      if rc == 0 {
        FinishAttach(now, attachRc);
      } else if rc < 0 {
        DropUi();
      }
    }

    method HandleFrame(f: Frame)
      requires rx.Valid()
      modifies this
      ensures rx.Valid() && Snap() == Handled(old(Snap()), [f], old(rx.Content()))
    {
      assert [f][0] == f;
      if f.hdr.kind == FRAME_PONG { awaitPong, pongDeadlineMs := false, 0; }
      handled := handled + [f];
    }

    static lemma HandledMore(v: View, fs: seq<Frame>, f: Frame, held: seq<byte>)
      ensures Handled(Handled(v, fs, held), [f], held) == Handled(v, fs + [f], held)
    {
      var gs := fs + [f];
      assert gs[|fs|] == f;
      forall i | 0 <= i < |fs| ensures gs[i] == fs[i] {}
      assert HasPong(gs) <==> HasPong(fs) || HasPong([f]);
      assert v.handled + fs + [f] == v.handled + gs;
    }

    /** Data received while connected, frame by frame. The buffer has room and every payload fits. */
    method TakeFrames(now: nat, chunk: Chunk) returns (ok: bool)
      requires Inv() && state == Connected
      modifies this, rx, rx.buf
      ensures rx.Valid() && (Snap(), ok) == Talking(old(Snap()), now, chunk)
    {
      hide Ok, Decode, HasPong;
      TalkingOk(Snap(), now, chunk);
      TakeIn(now, chunk);
      ok := DrainFrames();
    }

    method DrainFrames() returns (ok: bool)
      requires rx.Valid()
      modifies this, rx, rx.buf
      ensures rx.Valid()
      ensures var (fs, o) := Decode(old(rx.Content()));
              (Snap(), ok) == (Handled(old(Snap()), fs, if o.Pending? then o.rest else []), o.Pending?)
    {
      ghost var all := rx.Content();
      ghost var todo := all;
      ghost var fs: seq<Frame> := [];
      assert fs + Decode(all).0 == Decode(all).0;
      assert Handled(Snap(), fs, todo) == Snap() by { assert handled + fs == handled; }
      hide Decode, Parse, HasPong, Handled;
      while true
        invariant rx.Valid() && rx.Content() == todo
        invariant Decode(all) == (fs + Decode(todo).0, Decode(todo).1)
        invariant Snap() == Handled(old(Snap()), fs, todo)
        decreases rx.used
      {
        RxBuf.DecodeStep(todo, fs);
        PendingIsShort(todo, PAYLOAD_MAX);
        HandledElsewhere(old(Snap()), fs, todo);
        var p := rx.TryParse(PAYLOAD_MAX);
        match p
        case NeedMore => return true;
        case BadHeader(e) =>
          return false;
        case OverCap => assert false;
        case Got(f, rest) =>
          HandleFrame(f);
          HandledMore(old(Snap()), fs, f, rest);
          fs := fs + [f];
          todo := rest;
      }
    }

    static lemma HandledElsewhere(v: View, fs: seq<Frame>, held: seq<byte>)
      ensures forall h: seq<byte> :: Handled(v, fs, held).(held := h) == Handled(v, fs, h)
    {
    }

    static lemma StaysConnected(v: View, now: nat, chunk: Chunk)
      ensures var w := Talking(v, now, chunk).0; w.state == v.state && w.log == v.log && w.clientFd == v.clientFd
    {
    }

    /** A bad header drops the client. */
    method TakeChunk(now: nat, chunk: Chunk) returns (ok: bool)
      requires Inv() && state == Connected
      modifies this, rx, rx.buf
      ensures Inv() && (ok ==> state == Connected)
      ensures var (w, good) := Talking(old(Snap()), now, chunk);
              ok == good && Snap() == if good then w else Dropped(w)
    {
      TalkingOk(Snap(), now, chunk);
      StaysConnected(Snap(), now, chunk);
      hide Talking, StreamOk;
      ghost var (w, good) := Talking(Snap(), now, chunk);
      ok := TakeFrames(now, chunk);
      if !ok {
        DroppedOk(w);
        DropUi();
      }
    }

    method HandleUiRx(now: nat, results: seq<RecvRes>)
      requires Inv() && state == Connected
      modifies this, rx, rx.buf
      ensures Inv() && Snap() == Received(old(Snap()), now, results)
    {
      ReceivedOk(Snap(), now, results);
      hide Ok, Talking, Dropped;
      var i := 0;
      assert results[0..] == results;
      while i < |results|
        invariant i <= |results| && Inv() && state == Connected
        invariant Received(old(Snap()), now, results) == Received(Snap(), now, results[i..])
      {
        var res := results[i];
        assert results[i..][1..] == results[i + 1..];
        i := i + 1;
        match res
        case RecvInterrupted =>
        case RecvWouldBlock => return;
        case Eof =>
          DropUi();
          return;
        case RecvErr(_) =>
          DropUi();
          return;
        case Data(chunk) =>
          var ok := TakeChunk(now, chunk);
          if !ok { return; }
      }
    }

    method HandleAccept(now: nat, a: AcceptRes)
      requires Inv()
      modifies this, rx
      ensures Inv() && Snap() == Accepted(old(Snap()), cfg, now, a)
    {
      hide Ok;
      AcceptedOk(Snap(), cfg, now, a);
      if a.NoClient? || !a.credentialsOk { return; }
      if clientFd < 0 {
        if a.setOk { AttachBegin(a.fd, now); }
        return;
      }
      if cfg.rejectNew { return; }
      if cfg.replaceOnlyStale {
        var stale := cfg.staleTimeoutMs > 0 && lastRxMs != 0 && Elapsed(now, lastRxMs) > cfg.staleTimeoutMs;
        if !stale { return; }
      }
      DropUi();
      if a.setOk { AttachBegin(a.fd, now); }
    }

    method MaybePing(now: nat, sendRc: int)
      requires Inv()
      modifies this
      ensures Inv() && Snap() == Pinged(old(Snap()), cfg, now, sendRc)
    {
      hide Ok;
      PingedOk(Snap(), cfg, now, sendRc);
      if cfg.pingIntervalMs <= 0 || state != Connected { return; }
      if lastTxMs != 0 && Elapsed(now, lastTxMs) < cfg.pingIntervalMs { return; }
      var timeout := if cfg.pongTimeoutMs > 0 then cfg.pongTimeoutMs else PONG_TIMEOUT_DEFAULT_MS;
      if sendRc == 0 {
        lastTxMs, lastAliveMs := now, now;
        awaitPong, pongDeadlineMs := true, now + timeout;
      } else if sendRc == -EAGAIN || sendRc == -EINTR {
        awaitPong, pongDeadlineMs := true, now + timeout;
      } else if sendRc < 0 {
        DropUi();
      }
    }

    method HandleStale(now: nat)
      requires Inv()
      modifies this
      ensures Inv() && Snap() == Expired(old(Snap()), cfg, now)
    {
      hide Ok;
      ExpiredOk(Snap(), cfg, now);
      if clientFd < 0 { return; }
      if awaitPong && pongDeadlineMs != 0 && now >= pongDeadlineMs {
        DropUi();
        return;
      }
      if state == Handshake && lastAliveMs != 0 && Elapsed(now, lastAliveMs) > HandshakeTimeoutMs(cfg) {
        DropUi();
        return;
      }
      if cfg.staleTimeoutMs > 0 && lastRxMs != 0 && Elapsed(now, lastRxMs) > cfg.staleTimeoutMs { DropUi(); }
    }

    method HandleClient(now: nat, hangup: bool, readable: bool, results: seq<RecvRes>, attachRc: int)
      requires Inv()
      modifies this, rx, rx.buf
      ensures Inv() && Snap() == ClientServed(old(Snap()), now, hangup, readable, results, attachRc)
    {
      ClientServedOk(Snap(), now, hangup, readable, results, attachRc);
      hide Ok, Greeted, Received, Dropped;
      if clientFd < 0 { return; }
      if hangup {
        DropUi();
      } else if readable {
        if state == Handshake {
          TryGreet(now, results, attachRc);
        } else if state == Connected {
          HandleUiRx(now, results);
        }
      }
    }

    method HandleReady(input: PollInput)
      requires Inv()
      modifies this, rx, rx.buf
      ensures Inv() && Snap() == ReadyServed(old(Snap()), cfg, input)
    {
      hide Ok, Accepted, Greeted, ClientServed;
      var had := clientFd >= 0;
      if listening && input.listenReady {
        HandleAccept(input.now1, input.accepted);
        if clientFd >= 0 && state == Handshake { TryGreet(input.now1, input.recv1, input.attachRc1); }
      }
      HandleClient(input.now1, had && input.hangup, had && input.readable, input.recv2, input.attachRc2);
    }

    method Poll(input: PollInput) returns (rc: int)
      requires Inv()
      modifies this, rx, rx.buf
      ensures Inv() && (Snap(), rc) == Polled(old(Snap()), cfg, input)
    {
      hide Ok, ReadyServed, Pinged, Expired;
      if state == Shutdown { return -EINVAL; }
      if input.polled.PollInterrupted? { return 0; }
      if input.polled.PollFailed? { return -(input.polled.errno as int); }
      if input.polled.Ready? { HandleReady(input); }
      MaybePing(input.now2, input.pingRc);
      HandleStale(input.now2);
      rc := 0;
    }

    method Open(openRc: int) returns (rc: int)
      requires Inv()
      modifies this
      ensures Inv() && (Snap(), rc) == Opened(old(Snap()), openRc)
    {
      StartOk(Snap(), openRc);
      hide Ok;
      if !listening {
        if openRc != 0 { return openRc; }
        listening := true;
      }
      if state == Init { state := Idle; }
      rc := 0;
    }

    method Close()
      requires Inv()
      modifies this
      ensures Inv() && Snap() == Closed(old(Snap()))
    {
      StopOk(Snap());
      hide Ok;
      DropUi();
      listening := false;
      state := Shutdown;
    }
  }
}

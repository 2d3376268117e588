/** Every interleaving of any number of producers, cancellers and wakers with one consumer.
    A run is a list of steps; each step is one region that the source runs under its mutex. */
module DispatchRuns {
  import opened Common
  import opened Modular
  import opened Dispatch
  import CT = CancelTable

  /** The outcome of one finished pop: node number `ticket` and what was reported for it, with the epoch at its
      peek and the number of flushes since then. */
  datatype Result = Result(ticket: nat, rc: Rc, peekEpoch: nat, flushes: nat)

  /** How a node left the ring: by a flush, or by the commit of the pop that had peeked node `by`. */
  datatype Fate = Flushed | Committed(popOf: nat)

  datatype Spot = AtTop | Sleeping(how: Sleep, signalled: bool)

  /** The consumer's position. `flushes` counts the flushes since its peek. */
  datatype Phase =
    | Idle
    | Popping(p: Peek, ticket: nat, flushes: nat)
    | Waiting(timeout: nat, deadline: nat, at: Spot)

  /** `gone` and `results` are the history of the run; `cancelled` are the ids cancelled since the last
      cancel-all and `exact` says that no insertion has overflowed since then; `worst` is the largest
      number of flushes that fell between a peek and its commit. */
  datatype Sys = Sys(core: Core, phase: Phase, gone: seq<Fate>, results: seq<Result>, returned: seq<nat>,
                     cancelled: set<nat>, exact: bool, worst: nat)

  datatype Step =
    | Push(evt: Event)
    | CancelReq(id: nat)
    | CancelAll(flush: bool)
    | Wakeup
    | BeginPop
    | EndPop(dec: int, waitMs: nat, now: nat)
    | BeginWait(limit: nat, start: nat)
    | RunWait(now1: nat, now2: nat, timedOut: bool)

  function Signalled(ph: Phase): Phase {
    if ph.Waiting? && ph.at.Sleeping? then ph.(at := ph.at.(signalled := true)) else ph
  }

  function Settled(s: Sys, c: Core, out: WaitOut): Sys
    requires s.phase.Waiting?
  {
    match out
    case Return(r) => s.(core := c, phase := Idle, returned := s.returned + [r])
    case Asleep(how) => s.(core := c, phase := s.phase.(at := Sleeping(how, false)))
    case Again => s.(core := c, phase := s.phase.(at := AtTop))
  }

  /** The waiting consumer runs until it returns or goes to sleep (again). */
  function AfterRunWait(s: Sys, cfg: Cfg, now1: nat, now2: nat, timedOut: bool): (r: Sys)
    requires CoreOk(s.core, cfg) && s.phase.Waiting?
    ensures CoreOk(r.core, cfg)
  {
    var (c, out) := if s.phase.at.AtTop? then (s.core, Again)
                    else WaitWake(s.core, s.phase.timeout, s.phase.at.how, timedOut);
    if out.Again? then
      var (c', out') := WaitTop(c, s.phase.timeout, s.phase.deadline, now1, now2);
      Settled(s, c', out')
    else Settled(s, c, out)
  }

  function Next(s: Sys, cfg: Cfg, e: Step): (r: Sys)
    requires CoreOk(s.core, cfg)
    ensures CoreOk(r.core, cfg)
  {
    match e
    case Push(evt) =>
      var (c, rc) := AfterPush(s.core, cfg, evt);
      s.(core := c, phase := if rc == Pushed then Signalled(s.phase) else s.phase)
    case CancelReq(id) =>
      s.(core := AfterCancelReq(s.core, cfg, id), cancelled := if id == 0 then s.cancelled else s.cancelled + {id},
         exact := s.exact && (id == 0 || !CT.Overflows(s.core.tab, cfg.hash, id)))
    case CancelAll(flush) =>
      var t := s.(core := AfterCancelAll(s.core, cfg, flush), cancelled := {}, exact := true);
      if flush then
        t.(gone := s.gone + seq(|s.core.accepted| - s.core.taken, i => Flushed),
           phase := if s.phase.Popping? then s.phase.(flushes := s.phase.flushes + 1) else s.phase)
      else t
    case Wakeup => s.(core := AfterWakeup(s.core), phase := Signalled(s.phase))
    case BeginPop =>
      if !s.phase.Idle? then s
      else
        var p := PeekOf(s.core, cfg);
        if p.None? then s else s.(phase := Popping(p.value, s.core.taken, 0))
    case EndPop(dec, waitMs, now) =>
      if !s.phase.Popping? then s
      else
        var p := s.phase.p;
        var c := AfterFinish(s.core, cfg, p, dec, waitMs, now);
        s.(core := c, phase := Idle,
           gone := s.gone + (if c.taken > s.core.taken then [Committed(s.phase.ticket)] else []),
           results := s.results + [Result(s.phase.ticket, Verdict(cfg, p, dec), p.active, s.phase.flushes)],
           worst := if s.phase.flushes > s.worst then s.phase.flushes else s.worst)
    case BeginWait(limit, start) =>
      if s.phase.Idle? then s.(phase := Waiting(limit, Deadline(start, limit), AtTop)) else s
    case RunWait(now1, now2, timedOut) =>
      if s.phase.Waiting? then AfterRunWait(s, cfg, now1, now2, timedOut) else s
  }

  function Exec(s: Sys, cfg: Cfg, es: seq<Step>): (r: Sys)
    requires CoreOk(s.core, cfg)
    ensures CoreOk(r.core, cfg)
    decreases |es|
  {
    if es == [] then s else Exec(Next(s, cfg, es[0]), cfg, es[1..])
  }

  function Start(tabCap: nat): Sys {
    Sys(Core([], 0, 1, false, 0, 1, 1, seq(tabCap, i => CT.EMPTY)), Idle, [], [], [], {}, true, 0)
  }

  // ---- the invariant ---------------------------------------------------------------------------

  ghost predicate EpochsOrdered(c: Core) {
    && (forall i, j :: 0 <= i <= j < |c.accepted| ==> c.accepted[i].epoch <= c.accepted[j].epoch)
    && (forall i :: 0 <= i < |c.accepted| ==> c.accepted[i].epoch <= c.epoch)
  }

  /** Settled nodes, i.e. those with a result other than DEFER, come in ring order, each once, and have
      left the ring by their own commit or by a flush. */
  ghost predicate ResultsOk(s: Sys, bound: nat) {
    && (forall i, j :: 0 <= i < j < |s.results| && s.results[i].rc != Defer && s.results[j].rc != Defer
                       ==> s.results[i].ticket < s.results[j].ticket)
    && (forall i :: 0 <= i < |s.results| && s.results[i].rc != Defer
                    ==> s.results[i].ticket < bound <= |s.gone|
                        && s.gone[s.results[i].ticket] in {Flushed, Committed(s.results[i].ticket)})
    && (forall i :: 0 <= i < |s.results| ==> ResultOk(s, s.results[i]))
  }

  ghost predicate ResultOk(s: Sys, r: Result) {
    && r.ticket < |s.core.accepted|
    && r.peekEpoch <= s.core.epoch
    && (r.rc != DropEpoch <==> s.core.accepted[r.ticket].epoch == r.peekEpoch)
  }

  ghost predicate HasResult(s: Sys, ticket: nat) {
    exists i :: 0 <= i < |s.results| && s.results[i].ticket == ticket && s.results[i].rc != Defer
  }

  /** Every node that left the ring without a flush was committed; the committing pop had peeked that
      very node, unless two flushes fell into one peek-commit window. */
  ghost predicate FatesOk(s: Sys) {
    && |s.gone| == s.core.taken
    && (forall i :: 0 <= i < |s.gone| && s.gone[i].Committed? ==> HasResult(s, s.gone[i].popOf))
    && (forall i :: 0 <= i < |s.gone| && s.gone[i].Committed? && s.worst <= 1 ==> s.gone[i].popOf == i)
  }

  ghost predicate PhaseOk(s: Sys, cfg: Cfg)
    requires CoreOk(s.core, cfg) && |s.gone| == s.core.taken
  {
    var c := s.core;
    match s.phase
    case Idle => true
    case Popping(p, t, flushes) =>
      && t <= c.taken && t < |c.accepted|
      && p.node == c.accepted[t] && p.idx == t % cfg.cap
      && p.mismatch == (p.node.epoch != p.active) && p.active <= c.epoch
      && (flushes == 0 <==> c.taken == t)
      && (flushes <= 1 ==> c.taken < t + cfg.cap)
      && (c.taken > t ==> s.gone[t] == Flushed)
    case Waiting(timeout, _, at) =>
      // A consumer that sleeps and has not been signalled has something to wait for.
      at.Sleeping? && !at.signalled && c.taken < |c.accepted|
      ==> c.deferActive && (timeout == 0 ==> c.deferUntil != 0 || c.wakeSeq == c.deferSeq)
  }

  ghost predicate Inv(s: Sys, cfg: Cfg) {
    && CoreOk(s.core, cfg)
    && EpochsOrdered(s.core)
    && FatesOk(s)
    && ResultsOk(s, if s.phase.Popping? then s.phase.ticket else s.core.taken)
    && PhaseOk(s, cfg)
    && CT.Tracks(s.core.tab, cfg.hash, s.core.epoch, s.cancelled, s.exact)
  }

  /** Where the head stands when a pop commits, for any number of flushes since its peek. */
  lemma CommitHits(s: Sys, cfg: Cfg)
    requires CoreOk(s.core, cfg) && |s.gone| == s.core.taken
    requires PhaseOk(s, cfg) && s.phase.Popping?
    ensures s.phase.flushes == 1 ==> s.core.taken % cfg.cap != s.phase.p.idx
  {
    if s.phase.flushes == 1 {
      DistinctCells(s.phase.ticket, s.core.taken, cfg.cap);
    }
  }

  lemma InitialInv(cfg: Cfg, tabCap: nat)
    requires cfg.cap >= 2 && tabCap > 0
    ensures Inv(Start(tabCap), cfg)
  {
  }

  lemma {:induction false} WaitFrame(s: Sys, cfg: Cfg, now1: nat, now2: nat, timedOut: bool)
    requires CoreOk(s.core, cfg) && s.phase.Waiting?
    ensures var t := AfterRunWait(s, cfg, now1, now2, timedOut);
            && t.core.tab == s.core.tab && t.core.epoch == s.core.epoch
            && t.core.accepted == s.core.accepted && t.core.taken == s.core.taken
            && t == s.(core := t.core, phase := t.phase, returned := t.returned)
            && !t.phase.Popping? && (t.core.deferActive ==> s.core.deferActive)
            && ((s.core.deferActive || s.core.deferUntil == 0) && !t.core.deferActive ==> t.core.deferUntil == 0)
  {
  }

  lemma {:induction false} CoreFrame(s: Sys, cfg: Cfg, e: Step)
    requires CoreOk(s.core, cfg) && !e.CancelReq? && !e.CancelAll?
    ensures var t := Next(s, cfg, e);
            && t.core.tab == s.core.tab && t.core.epoch == s.core.epoch
            && t.cancelled == s.cancelled && t.exact == s.exact
            && (!e.Push? ==> t.core.accepted == s.core.accepted)
            && (!e.EndPop? ==> t.core.taken == s.core.taken && t.gone == s.gone && t.results == s.results)
  {
    hide AfterRunWait;
    if e.RunWait? && s.phase.Waiting? { WaitFrame(s, cfg, e.now1, e.now2, e.timedOut); }
  }

  lemma {:induction false} TableInv(s: Sys, cfg: Cfg, e: Step)
    requires Inv(s, cfg)
    ensures var t := Next(s, cfg, e); CT.Tracks(t.core.tab, cfg.hash, t.core.epoch, t.cancelled, t.exact)
  {
    if e.CancelReq? {
      if e.id != 0 {
        CT.TracksInsert(s.core.tab, cfg.hash, cfg.policy, s.core.epoch, s.cancelled, s.exact, e.id);
      }
    } else if e.CancelAll? {
      CT.TracksCancelAll(s.core.tab, cfg.hash, s.core.epoch, s.cancelled, s.exact);
    } else {
      CoreFrame(s, cfg, e);
    }
  }

  /** A finished pop adds one result and removes at most one node. */
  lemma {:induction false} EndPopShape(s: Sys, cfg: Cfg, dec: int, waitMs: nat, now: nat)
    requires Inv(s, cfg) && s.phase.Popping?
    ensures var t := Next(s, cfg, EndPop(dec, waitMs, now));
            var k := s.phase.ticket;
            var r := Result(k, Verdict(cfg, s.phase.p, dec), s.phase.p.active, s.phase.flushes);
            && t.results == s.results + [r]
            && t.core.accepted == s.core.accepted && t.core.epoch == s.core.epoch
            && t.worst >= s.worst && t.worst >= s.phase.flushes
            && t.core.taken == |t.gone| && !t.phase.Popping?
            && (if t.core.taken == s.core.taken then t.gone == s.gone else t.gone == s.gone + [Committed(k)])
            && (t.core.taken != s.core.taken ==> r.rc != Defer && (t.worst <= 1 ==> k == s.core.taken))
            && (r.rc != Defer ==> k < t.core.taken && t.gone[k] in {Flushed, Committed(k)})
  {
    CommitHits(s, cfg);
  }

  lemma EndPopFates(s: Sys, cfg: Cfg, dec: int, waitMs: nat, now: nat)
    requires Inv(s, cfg) && s.phase.Popping?
    ensures FatesOk(Next(s, cfg, EndPop(dec, waitMs, now)))
  {
    var t := Next(s, cfg, EndPop(dec, waitMs, now));
    EndPopShape(s, cfg, dec, waitMs, now);
    forall k | HasResult(s, k) ensures HasResult(t, k) {
      var i :| 0 <= i < |s.results| && s.results[i].ticket == k && s.results[i].rc != Defer;
      assert t.results[i] == s.results[i];
    }
    assert t.results[|s.results|].rc != Defer ==> HasResult(t, s.phase.ticket);
  }

  lemma {:induction false} EndPopResults(s: Sys, cfg: Cfg, dec: int, waitMs: nat, now: nat)
    requires Inv(s, cfg) && s.phase.Popping?
    ensures var t := Next(s, cfg, EndPop(dec, waitMs, now)); ResultsOk(t, t.core.taken)
  {
    hide Next, CT.Tracks;
    var t := Next(s, cfg, EndPop(dec, waitMs, now));
    EndPopShape(s, cfg, dec, waitMs, now);
    forall i | 0 <= i < |s.results|
      ensures t.results[i] == s.results[i] && ResultOk(t, t.results[i])
    {
      assert ResultOk(s, s.results[i]);
    }
  }

  /** History survives pushes, epoch changes and flushes. */
  lemma HistoryKept(s: Sys, t: Sys, b: nat, b': nat)
    requires FatesOk(s) && ResultsOk(s, b)
    requires t.results == s.results && t.worst == s.worst
    requires s.gone <= t.gone && |t.gone| == t.core.taken
    requires forall i :: |s.gone| <= i < |t.gone| ==> t.gone[i] == Flushed
    requires s.core.accepted <= t.core.accepted && s.core.epoch <= t.core.epoch
    requires b <= b' <= |t.gone|
    ensures FatesOk(t) && ResultsOk(t, b')
  {
  }

  lemma {:induction false} QuietInv(s: Sys, cfg: Cfg, e: Step)
    requires Inv(s, cfg) && !(e.EndPop? && s.phase.Popping?)
    ensures var t := Next(s, cfg, e);
            FatesOk(t) && ResultsOk(t, if t.phase.Popping? then t.phase.ticket else t.core.taken)
  {
    hide EpochsOrdered, CT.Tracks, CT.Inserted, CT.Overflows, CT.Reported;
    var t := Next(s, cfg, e);
    if !e.CancelReq? && !e.CancelAll? { CoreFrame(s, cfg, e); }
    HistoryKept(s, t, if s.phase.Popping? then s.phase.ticket else s.core.taken,
                if t.phase.Popping? then t.phase.ticket else t.core.taken);
  }

  lemma EpochsInv(s: Sys, cfg: Cfg, e: Step)
    requires CoreOk(s.core, cfg) && EpochsOrdered(s.core)
    ensures EpochsOrdered(Next(s, cfg, e).core)
  {
    if !e.CancelReq? && !e.CancelAll? { CoreFrame(s, cfg, e); }
  }

  lemma {:induction false} PhaseAfterWait(s: Sys, cfg: Cfg, now1: nat, now2: nat, timedOut: bool)
    requires CoreOk(s.core, cfg) && |s.gone| == s.core.taken && s.phase.Waiting? && PhaseOk(s, cfg)
    ensures var t := AfterRunWait(s, cfg, now1, now2, timedOut); |t.gone| == t.core.taken && PhaseOk(t, cfg)
  {
  }

  lemma PhaseInv(s: Sys, cfg: Cfg, e: Step)
    requires Inv(s, cfg)
    ensures |Next(s, cfg, e).gone| == Next(s, cfg, e).core.taken
    ensures PhaseOk(Next(s, cfg, e), cfg)
  {
    hide AfterRunWait, ResultsOk, EpochsOrdered, CT.Tracks, Verdict;
    if e.RunWait? && s.phase.Waiting? { PhaseAfterWait(s, cfg, e.now1, e.now2, e.timedOut); }
  }

  /** Every step of every thread keeps the invariant. */
  lemma StepKeepsInv(s: Sys, cfg: Cfg, e: Step)
    requires Inv(s, cfg)
    ensures Inv(Next(s, cfg, e), cfg)
  {
    TableInv(s, cfg, e);
    PhaseInv(s, cfg, e);
    EpochsInv(s, cfg, e);
    if e.EndPop? && s.phase.Popping? {
      EndPopFates(s, cfg, e.dec, e.waitMs, e.now);
      EndPopResults(s, cfg, e.dec, e.waitMs, e.now);
    } else {
      QuietInv(s, cfg, e);
    }
  }

  lemma {:induction false} RunKeepsInv(s: Sys, cfg: Cfg, es: seq<Step>)
    requires Inv(s, cfg)
    ensures Inv(Exec(s, cfg, es), cfg)
    decreases |es|
  {
    if es != [] {
      StepKeepsInv(s, cfg, es[0]);
      RunKeepsInv(Next(s, cfg, es[0]), cfg, es[1..]);
    }
  }

  // ---- what holds over whole runs ----------------------------------------------------------------

  /** Accounting over any run: the accepted nodes are those that left the ring followed by the ring's
      contents; no node gets two results other than DEFER; and a node that left without a flush was
      committed by a finished pop, its own one if no peek-commit window held two flushes. */
  lemma {:induction false} EveryNodeIsAccountedFor(cfg: Cfg, tabCap: nat, es: seq<Step>)
    requires cfg.cap >= 2 && tabCap > 0
    ensures var t := Exec(Start(tabCap), cfg, es);
            && |t.gone| + |Queue(t.core)| == |t.core.accepted|
            && (forall i, j :: 0 <= i < j < |t.results| && t.results[i].rc != Defer && t.results[j].rc != Defer
                               ==> t.results[i].ticket != t.results[j].ticket)
            && (forall i :: 0 <= i < |t.gone| && t.gone[i].Committed?
                            ==> HasResult(t, t.gone[i].popOf) && (t.worst <= 1 ==> t.gone[i].popOf == i))
            && (forall k: nat :: HasResult(t, k) ==> k < |t.gone| && t.gone[k] in {Flushed, Committed(k)})
  {
    InitialInv(cfg, tabCap);
    RunKeepsInv(Start(tabCap), cfg, es);
  }

  /** The commit removes the peeked node exactly when no flush came in between. After one flush it removes
      nothing; after more it removes the head, a node nobody peeked, exactly when that node sits in the
      peeked cell again. */
  lemma {:induction false} CommitRemovesThePeekedNode(s: Sys, cfg: Cfg, dec: int, waitMs: nat, now: nat)
    requires Inv(s, cfg) && s.phase.Popping? && Verdict(cfg, s.phase.p, dec) != Defer
    ensures var t := Next(s, cfg, EndPop(dec, waitMs, now));
            var k := s.phase.ticket;
            && (t.gone == s.gone + [Committed(k)] && k == |s.gone| <==> s.phase.flushes == 0)
            && (s.phase.flushes == 1 ==> t.gone == s.gone)
            && (s.phase.flushes >= 1 ==>
                  s.gone[k] == Flushed
                  && (t.gone != s.gone <==> Queue(s.core) != [] && s.core.taken % cfg.cap == k % cfg.cap))
  {
    CommitHits(s, cfg);
    EndPopShape(s, cfg, dec, waitMs, now);
    if s.phase.flushes == 0 {
      assert s.core.taken < |s.core.accepted|;
    }
  }

  /** Two flushes in one window can make the commit drop a node that never gets a result. */
  lemma {:induction false} TwoFlushesLoseANode(cfg: Cfg, evt: Event)
    requires cfg.cap == 2 && evt.reqId == 0 && evt.ev != cfg.evCancel && evt.ev != cfg.evCancelReq
    ensures var t := Exec(Start(1), cfg, [Push(evt), BeginPop, CancelAll(true), Push(evt), CancelAll(true),
                                          Push(evt), EndPop(DECIDE_CONSUME, 0, 0)]);
            && t.gone == [Flushed, Flushed, Committed(0)] && Queue(t.core) == []
            && t.results == [Result(0, Ok, 1, 2)] && !HasResult(t, 2)
  {
    var es := [Push(evt), BeginPop, CancelAll(true), Push(evt), CancelAll(true), Push(evt),
               EndPop(DECIDE_CONSUME, 0, 0)];
    SevenSteps(Start(1), cfg, es);
    var s3 := FlushedPop(cfg, evt);
    FlushedAgain(s3, cfg, evt);
  }

  lemma {:induction false} FlushedAgain(s: Sys, cfg: Cfg, evt: Event)
    requires cfg.cap == 2 && evt.ev != cfg.evCancel && evt.ev != cfg.evCancelReq
    requires s.phase == Popping(Peek(Node(evt, 1), 0, 1, false, false), 0, 1)
    requires s.core == Core([Node(evt, 1)], 1, 2, false, 0, 1, 1, [CT.EMPTY])
    requires s.gone == [Flushed] && s.results == []
    ensures var u := Next(Next(Next(s, cfg, Push(evt)), cfg, CancelAll(true)), cfg, Push(evt));
            var t := Next(u, cfg, EndPop(DECIDE_CONSUME, 0, 0));
            && t.gone == [Flushed, Flushed, Committed(0)] && Queue(t.core) == [] && t.results == [Result(0, Ok, 1, 2)]
  {
    var s5 := Next(Next(s, cfg, Push(evt)), cfg, CancelAll(true));
    assert s5.gone == [Flushed, Flushed] && s5.core.taken == |s5.core.accepted| == 2;
    var s6 := Next(s5, cfg, Push(evt));
    assert |s6.core.accepted| == 3 && s6.phase == s.phase.(flushes := 2);
    var s7 := Next(s6, cfg, EndPop(DECIDE_CONSUME, 0, 0));
    assert s7.gone == [Flushed, Flushed, Committed(0)];
  }

  /** A flush between the peek of the first node and what follows. */
  lemma {:induction false} FlushedPop(cfg: Cfg, evt: Event) returns (s: Sys)
    requires cfg.cap >= 2 && evt.reqId == 0
    ensures s == Next(Next(Next(Start(1), cfg, Push(evt)), cfg, BeginPop), cfg, CancelAll(true))
    ensures s.phase == Popping(Peek(Node(evt, 1), 0, 1, false, false), 0, 1)
    ensures s.core == Core([Node(evt, 1)], 1, 2, false, 0, 1, 1, [CT.EMPTY])
    ensures s.gone == [Flushed] && s.results == [] && s.returned == []
  {
    var s1 := Next(Start(1), cfg, Push(evt));
    assert s1.core.accepted == [Node(evt, 1)];
    var s2 := Next(s1, cfg, BeginPop);
    s := Next(s2, cfg, CancelAll(true));
    assert s.gone == [Flushed];
    assert seq(1, i => CT.EMPTY) == [CT.EMPTY];
  }

  lemma ExecFrom(s: Sys, cfg: Cfg, es: seq<Step>, i: nat)
    requires CoreOk(s.core, cfg) && i < |es|
    ensures Exec(s, cfg, es[i..]) == Exec(Next(s, cfg, es[i]), cfg, es[i + 1..])
  {
  }

  lemma SevenSteps(s: Sys, cfg: Cfg, es: seq<Step>)
    requires CoreOk(s.core, cfg) && |es| == 7
    ensures Exec(s, cfg, es)
            == Next(Next(Next(Next(Next(Next(Next(s, cfg, es[0]), cfg, es[1]), cfg, es[2]), cfg, es[3]), cfg, es[4]),
                         cfg, es[5]), cfg, es[6])
  {
    hide Next, CoreOk;
    var t := s;
    assert es[0..] == es;
    ExecFrom(t, cfg, es, 0);
    t := Next(t, cfg, es[0]);
    ExecFrom(t, cfg, es, 1);
    t := Next(t, cfg, es[1]);
    ExecFrom(t, cfg, es, 2);
    t := Next(t, cfg, es[2]);
    ExecFrom(t, cfg, es, 3);
    t := Next(t, cfg, es[3]);
    ExecFrom(t, cfg, es, 4);
    t := Next(t, cfg, es[4]);
    ExecFrom(t, cfg, es, 5);
    t := Next(t, cfg, es[5]);
    ExecFrom(t, cfg, es, 6);
    assert es[7..] == [];
  }

  /** While the defer flag is up, the last result is the DEFER that raised it. */
  ghost predicate DeferOk(s: Sys) {
    if !s.core.deferActive then s.core.deferUntil == 0
    else
      && s.results != []
      && var r := s.results[|s.results| - 1];
         && r.rc == Defer && r.ticket <= s.core.taken == |s.gone|
         && (r.flushes == 0 <==> r.ticket == s.core.taken)
         && (r.flushes > 0 ==> s.gone[r.ticket] == Flushed)
  }

  lemma {:induction false} DeferStep(s: Sys, cfg: Cfg, e: Step)
    requires Inv(s, cfg) && DeferOk(s)
    ensures DeferOk(Next(s, cfg, e))
  {
    hide ResultsOk, EpochsOrdered, CT.Tracks, CT.Inserted, CT.Overflows, CT.Reported, AfterRunWait;
    if e.RunWait? && s.phase.Waiting? { WaitFrame(s, cfg, e.now1, e.now2, e.timedOut); }
  }

  lemma {:induction false} DeferRun(s: Sys, cfg: Cfg, es: seq<Step>)
    requires Inv(s, cfg) && DeferOk(s)
    ensures DeferOk(Exec(s, cfg, es))
    decreases |es|
  {
    hide Next, DeferOk;
    if es != [] {
      StepKeepsInv(s, cfg, es[0]);
      DeferStep(s, cfg, es[0]);
      DeferRun(Next(s, cfg, es[0]), cfg, es[1..]);
    }
  }

  /** Over every run: the defer flag belongs to the head of the queue exactly if no flush fell between the peek of
      the deferred node and its DEFER. Otherwise that node has been flushed, and the flag holds up nodes that came
      after it. */
  lemma {:induction false} DeferBelongsToTheHead(cfg: Cfg, tabCap: nat, es: seq<Step>)
    requires cfg.cap >= 2 && tabCap > 0
    ensures var t := Exec(Start(tabCap), cfg, es);
            if !t.core.deferActive then t.core.deferUntil == 0
            else
              && t.results != []
              && var r := t.results[|t.results| - 1];
                 && r.rc == Defer
                 && (Queue(t.core) != [] && t.core.taken == r.ticket <==> r.flushes == 0)
                 && (r.flushes > 0 ==> r.ticket < t.core.taken == |t.gone| && t.gone[r.ticket] == Flushed)
  {
    InitialInv(cfg, tabCap);
    DeferRun(Start(tabCap), cfg, es);
    RunKeepsInv(Start(tabCap), cfg, es);
    var t := Exec(Start(tabCap), cfg, es);
    if t.core.deferActive { assert ResultOk(t, t.results[|t.results| - 1]); }
  }

  /** Such a run: a consumer that waits without limit sleeps unsignalled on a queue none of whose nodes it has
      ever peeked, and goes on sleeping when another one is pushed. */
  lemma {:induction false} StaleDeferHoldsUpTheNext(cfg: Cfg, evt: Event, next: Event)
    requires cfg.cap >= 3 && evt.reqId == 0 && evt.ev != cfg.evCancel && evt.ev != cfg.evCancelReq
    ensures var t := Exec(Start(1), cfg, [Push(evt), BeginPop, CancelAll(true), EndPop(DECIDE_DEFER, 0, 0),
                                          Push(next), BeginWait(0, 0), RunWait(0, 0, false)]);
            var u := Next(Next(t, cfg, Push(next)), cfg, RunWait(0, 0, false));
            && t.results == [Result(0, Defer, 1, 1)] && t.core.taken == 1
            && Queue(t.core) == [Node(next, 2)] && Queue(u.core) == [Node(next, 2), Node(next, 2)]
            && t.phase == u.phase == Waiting(0, 0, Sleeping(Forever, false))
  {
    var es := [Push(evt), BeginPop, CancelAll(true), EndPop(DECIDE_DEFER, 0, 0), Push(next), BeginWait(0, 0),
               RunWait(0, 0, false)];
    SevenSteps(Start(1), cfg, es);
    var s3 := FlushedPop(cfg, evt);
    StaleDefer(s3, cfg, evt, next);
  }

  lemma {:induction false} StaleDefer(s: Sys, cfg: Cfg, evt: Event, next: Event)
    requires cfg.cap >= 3 && evt.ev != cfg.evCancel && evt.ev != cfg.evCancelReq
    requires s.phase == Popping(Peek(Node(evt, 1), 0, 1, false, false), 0, 1)
    requires s.core == Core([Node(evt, 1)], 1, 2, false, 0, 1, 1, [CT.EMPTY]) && s.results == []
    ensures var d := Next(Next(s, cfg, EndPop(DECIDE_DEFER, 0, 0)), cfg, Push(next));
            var t := Next(Next(d, cfg, BeginWait(0, 0)), cfg, RunWait(0, 0, false));
            var u := Next(Next(t, cfg, Push(next)), cfg, RunWait(0, 0, false));
            && t.results == [Result(0, Defer, 1, 1)] && t.core.taken == 1
            && Queue(t.core) == [Node(next, 2)] && Queue(u.core) == [Node(next, 2), Node(next, 2)]
            && t.phase == u.phase == Waiting(0, 0, Sleeping(Forever, false))
  {
    var d := Next(Next(s, cfg, EndPop(DECIDE_DEFER, 0, 0)), cfg, Push(next));
    assert d.core == Core([Node(evt, 1), Node(next, 2)], 1, 2, true, 0, 1, 1, [CT.EMPTY]);
  }

  /** `base` results were there before, or belong to a pop that had peeked before, some moment at which the
      epoch was `epoch` and `n` nodes had been accepted. */
  ghost predicate Later(t: Sys, base: nat, epoch: nat, earlier: seq<Node>) {
    && earlier <= t.core.accepted && epoch <= t.core.epoch
    && (forall i :: base <= i < |t.results| ==> t.results[i].peekEpoch >= epoch)
    && (t.phase.Popping? ==> t.phase.p.active >= epoch || |t.results| < base)
  }

  lemma {:induction false} LaterStays(t: Sys, cfg: Cfg, es: seq<Step>, base: nat, epoch: nat, earlier: seq<Node>)
    requires Inv(t, cfg) && Later(t, base, epoch, earlier)
    ensures Later(Exec(t, cfg, es), base, epoch, earlier)
    decreases |es|
  {
    if es != [] {
      StepKeepsInv(t, cfg, es[0]);
      LaterStep(t, cfg, es[0], base, epoch, earlier);
      LaterStays(Next(t, cfg, es[0]), cfg, es[1..], base, epoch, earlier);
    }
  }

  lemma LaterStep(t: Sys, cfg: Cfg, e: Step, base: nat, epoch: nat, earlier: seq<Node>)
    requires Inv(t, cfg) && Later(t, base, epoch, earlier)
    ensures Later(Next(t, cfg, e), base, epoch, earlier)
  {
    hide FatesOk, ResultsOk, EpochsOrdered, CT.Tracks, CT.Inserted, CT.Overflows, CT.Reported;
    if e.EndPop? && t.phase.Popping? {
      EndPopShape(t, cfg, e.dec, e.waitMs, e.now);
    } else if !e.CancelReq? && !e.CancelAll? {
      CoreFrame(t, cfg, e);
    }
  }

  /** Flushed or not: a pop that peeks after a cancel-all reports DROP_EPOCH for every node accepted before. */
  lemma {:induction false} CancelAllIsFinal(s: Sys, cfg: Cfg, flush: bool, es: seq<Step>)
    requires Inv(s, cfg)
    ensures var t := Exec(Next(s, cfg, CancelAll(flush)), cfg, es);
            forall i :: |s.results| + (if s.phase.Popping? then 1 else 0) <= i < |t.results|
                        && t.results[i].ticket < |s.core.accepted|
                        ==> t.results[i].rc == DropEpoch
  {
    var s0 := Next(s, cfg, CancelAll(flush));
    var base := |s.results| + if s.phase.Popping? then 1 else 0;
    StepKeepsInv(s, cfg, CancelAll(flush));
    LaterStays(s0, cfg, es, base, s0.core.epoch, s0.core.accepted);
    RunKeepsInv(s0, cfg, es);
    var t := Exec(s0, cfg, es);
    forall i | base <= i < |t.results| && t.results[i].ticket < |s.core.accepted|
      ensures t.results[i].rc == DropEpoch
    {
      assert ResultOk(t, t.results[i]);
      assert t.core.accepted[t.results[i].ticket] == s.core.accepted[t.results[i].ticket];
    }
  }

  /** A pop of a current node reports it as cancelled only if its request was cancelled since the last
      cancel-all, and always does so as long as no table insertion has overflowed since then. */
  lemma {:induction false} PopReportsCancelledRequests(s: Sys, cfg: Cfg, dec: int)
    requires Inv(s, cfg) && s.phase.Idle? && Queue(s.core) != []
    ensures var t := Next(s, cfg, BeginPop);
            var n := Queue(s.core)[0];
            && t.phase.Popping? && t.phase.p.node == n
            && (Verdict(cfg, t.phase.p, dec) == DropReq ==> n.evt.reqId != 0 && n.evt.reqId in s.cancelled)
            && (s.exact && n.epoch == s.core.epoch && n.evt.reqId != 0 ==>
                  (Verdict(cfg, t.phase.p, dec) == DropReq <==> n.evt.reqId in s.cancelled))
  {
    CT.TracksReports(s.core.tab, cfg.hash, s.core.epoch, s.cancelled, s.exact, Queue(s.core)[0].evt.reqId);
  }

  function IdOf(e: Step): set<nat> {
    if e.CancelReq? && e.id != 0 then {e.id} else {}
  }

  /** The ids that these steps ask to cancel. */
  function Asked(es: seq<Step>): set<nat> {
    if es == [] then {} else IdOf(es[0]) + Asked(es[1..])
  }

  predicate OverflowsAt(s: Sys, cfg: Cfg, e: Step)
    requires CoreOk(s.core, cfg)
  {
    e.CancelReq? && e.id != 0 && CT.Overflows(s.core.tab, cfg.hash, e.id)
  }

  /** Does an insertion of this run find no slot? */
  predicate Overflowing(s: Sys, cfg: Cfg, es: seq<Step>)
    requires CoreOk(s.core, cfg)
    decreases |es|
  {
    es != [] && (OverflowsAt(s, cfg, es[0]) || Overflowing(Next(s, cfg, es[0]), cfg, es[1..]))
  }

  lemma TableFrame(s: Sys, cfg: Cfg, e: Step)
    requires CoreOk(s.core, cfg)
    ensures var t := Next(s, cfg, e);
            if e.CancelReq? && e.id != 0 then
              && t.core.tab == CT.Inserted(s.core.tab, cfg.hash, cfg.policy, e.id, s.core.epoch)
              && t.exact == (s.exact && !OverflowsAt(s, cfg, e))
            else t.core.tab == s.core.tab && (s.exact ==> t.exact)
  {
    if !e.CancelReq? && !e.CancelAll? { CoreFrame(s, cfg, e); }
  }

  /** One step, with the ids asked for later. */
  lemma IdsStep(s: Sys, cfg: Cfg, e: Step, rest: set<nat>)
    requires CoreOk(s.core, cfg) && CT.WellFormed(s.core.tab, cfg.hash)
    ensures var t, all := Next(s, cfg, e), CT.Ids(s.core.tab) + (IdOf(e) + rest);
            if OverflowsAt(s, cfg, e) then |all| > |s.core.tab|
            else
              && CT.WellFormed(t.core.tab, cfg.hash) && |t.core.tab| == |s.core.tab|
              && CT.Ids(t.core.tab) + rest == all && (s.exact ==> t.exact)
  {
    hide CT.WellFormed, CT.Ids, CT.Overflows, CT.Inserted, Next;
    var known := CT.Ids(s.core.tab);
    TableFrame(s, cfg, e);
    if e.CancelReq? && e.id != 0 {
      CT.InsertedIds(s.core.tab, cfg.hash, cfg.policy, e.id, s.core.epoch);
      Larger(known + {e.id}, known + (IdOf(e) + rest));
    }
  }

  lemma {:induction false} TableFills(s: Sys, cfg: Cfg, es: seq<Step>)
    requires CoreOk(s.core, cfg) && CT.WellFormed(s.core.tab, cfg.hash)
    ensures Overflowing(s, cfg, es) <==> |CT.Ids(s.core.tab) + Asked(es)| > |s.core.tab|
    ensures s.exact && !Overflowing(s, cfg, es) ==> Exec(s, cfg, es).exact
    decreases |es|
  {
    hide CT.WellFormed, CT.Ids, OverflowsAt, Next, IdOf;
    if es == [] {
      CT.IdsFit(s.core.tab, cfg.hash);
      assert CT.Ids(s.core.tab) + {} == CT.Ids(s.core.tab);
    } else {
      IdsStep(s, cfg, es[0], Asked(es[1..]));
      if !OverflowsAt(s, cfg, es[0]) { TableFills(Next(s, cfg, es[0]), cfg, es[1..]); }
    }
  }

  lemma Larger(a: set<nat>, b: set<nat>)
    requires a <= b
    ensures |a| <= |b|
  {
    assert b == a + (b - a);
  }

  /** The table never forgets an id, not even at a cancel-all: some insertion of a run overflows exactly if the
      run asks to cancel more different ids than the table has slots. Up to then every report is exact. */
  lemma {:induction false} OverflowNeedsTooManyIds(cfg: Cfg, tabCap: nat, es: seq<Step>)
    requires cfg.cap >= 2 && tabCap > 0
    ensures Overflowing(Start(tabCap), cfg, es) <==> |Asked(es)| > tabCap
    ensures |Asked(es)| <= tabCap ==> Exec(Start(tabCap), cfg, es).exact
  {
    InitialInv(cfg, tabCap);
    TableFills(Start(tabCap), cfg, es);
    assert CT.Ids(Start(tabCap).core.tab) == {};
    assert {} + Asked(es) == Asked(es);
  }

  // ---- waking up -----------------------------------------------------------------------------------

  predicate ByOthers(e: Step) {
    e.Push? || e.CancelReq? || e.CancelAll? || e.Wakeup?
  }

  /** What may happen after an indefinite DEFER: any steps of the other threads, and the consumer waiting without
      a limit, at any moment and for any number of rounds. */
  predicate AroundAWait(e: Step) {
    ByOthers(e) || e.RunWait? || (e.BeginWait? && e.limit == 0)
  }

  /** `base` waits had returned at the DEFER. Until one more returns, the latch is as the DEFER left it but for the
      wake-ups since. */
  ghost predicate Latched(s: Sys, base: nat, woken: bool) {
    if |s.returned| > base then s.returned[base] == 1
    else
      && |s.returned| == base
      && (s.phase.Idle? || (s.phase.Waiting? && s.phase.timeout == 0))
      && s.core.wakeSeq >= s.core.deferSeq
      && (s.core.deferActive ==> s.core.deferUntil == 0 && (woken ==> s.core.wakeSeq > s.core.deferSeq))
  }

  lemma LatchedRound(s: Sys, cfg: Cfg, now1: nat, now2: nat, timedOut: bool, base: nat, woken: bool)
    requires CoreOk(s.core, cfg) && Latched(s, base, woken) && s.phase.Waiting?
    ensures Latched(AfterRunWait(s, cfg, now1, now2, timedOut), base, woken)
  {
  }

  lemma LatchedStep(s: Sys, cfg: Cfg, e: Step, base: nat, woken: bool)
    requires CoreOk(s.core, cfg) && Latched(s, base, woken) && AroundAWait(e)
    ensures Latched(Next(s, cfg, e), base, woken || e == Wakeup)
  {
    hide AfterRunWait, CT.Inserted, CT.Overflows;
    if e.RunWait? && s.phase.Waiting? { LatchedRound(s, cfg, e.now1, e.now2, e.timedOut, base, woken); }
  }

  lemma {:induction false} LatchStays(s: Sys, cfg: Cfg, es: seq<Step>, base: nat, woken: bool)
    requires CoreOk(s.core, cfg) && Latched(s, base, woken)
    requires forall i :: 0 <= i < |es| ==> AroundAWait(es[i])
    ensures Latched(Exec(s, cfg, es), base, woken || Wakeup in es)
    decreases |es|
  {
    hide Next, Latched;
    if es != [] {
      LatchedStep(s, cfg, es[0], base, woken);
      LatchStays(Next(s, cfg, es[0]), cfg, es[1..], base, woken || es[0] == Wakeup);
      assert es == [es[0]] + es[1..];
    }
  }

  lemma {:induction false} WokenWaitReturns(t: Sys, cfg: Cfg, now1: nat, now2: nat, timedOut: bool)
    requires CoreOk(t.core, cfg) && |t.gone| == t.core.taken && PhaseOk(t, cfg)
    requires Latched(t, |t.returned|, true) && t.phase.Waiting? && t.core.taken < |t.core.accepted|
    ensures t.phase.at.Sleeping? ==> t.phase.at.signalled
    ensures var u := Next(t, cfg, RunWait(now1, now2, timedOut));
            u.phase.Idle? && u.returned == t.returned + [1] && !u.core.deferActive
  {
  }

  lemma {:induction false} NextRoundReturns(t: Sys, cfg: Cfg, start: nat, now1: nat, now2: nat, timedOut: bool)
    requires Inv(t, cfg) && Latched(t, |t.returned|, true) && Queue(t.core) != []
    ensures t.phase.Waiting? && t.phase.at.Sleeping? ==> t.phase.at.signalled
    ensures var w := if t.phase.Idle? then Next(t, cfg, BeginWait(0, start)) else t;
            var u := Next(w, cfg, RunWait(now1, now2, timedOut));
            u.phase.Idle? && u.returned == t.returned + [1] && !u.core.deferActive
  {
    var w := if t.phase.Idle? then Next(t, cfg, BeginWait(0, start)) else t;
    StepKeepsInv(t, cfg, BeginWait(0, start));
    WokenWaitReturns(w, cfg, now1, now2, timedOut);
  }

  /** An indefinite DEFER keeps its node and sets the latch. */
  lemma {:induction false} DeferStoresTheSnapshot(s: Sys, cfg: Cfg, dec: int, now: nat)
    requires Inv(s, cfg) && s.phase.Popping? && Verdict(cfg, s.phase.p, dec) == Defer
    ensures var t := Next(s, cfg, EndPop(dec, 0, now));
            && Inv(t, cfg) && Latched(t, |s.returned|, false)
            && t.core.deferActive && t.gone == s.gone && t.core.accepted == s.core.accepted
  {
    StepKeepsInv(s, cfg, EndPop(dec, 0, now));
  }

  /** No lost wake-up: after an indefinite DEFER, let the other threads do anything that includes a wakeup, and
      let the consumer begin to wait without a limit before, between or after that, and run any rounds of its
      wait. If the queue is non-empty then, either the wait has returned 1 already, or the consumer is not
      asleep unsignalled, and its next round, the first of a wait it has yet to begin included, returns 1 with
      the defer flag clear. */
  lemma {:induction false} NoLostWakeup(s: Sys, cfg: Cfg, dec: int, now: nat, es: seq<Step>,
                                        start: nat, now1: nat, now2: nat, timedOut: bool)
    requires Inv(s, cfg) && s.phase.Popping? && Verdict(cfg, s.phase.p, dec) == Defer
    requires forall i :: 0 <= i < |es| ==> AroundAWait(es[i])
    requires Wakeup in es
    requires Queue(Exec(Next(s, cfg, EndPop(dec, 0, now)), cfg, es).core) != []
    ensures var t := Exec(Next(s, cfg, EndPop(dec, 0, now)), cfg, es);
            if |t.returned| > |s.returned| then t.returned[|s.returned|] == 1
            else
              && (t.phase.Waiting? && t.phase.at.Sleeping? ==> t.phase.at.signalled)
              && var w := if t.phase.Idle? then Next(t, cfg, BeginWait(0, start)) else t;
                 var u := Next(w, cfg, RunWait(now1, now2, timedOut));
                 u.phase.Idle? && u.returned == t.returned + [1] && !u.core.deferActive
  {
    var s0 := Next(s, cfg, EndPop(dec, 0, now));
    DeferStoresTheSnapshot(s, cfg, dec, now);
    LatchStays(s0, cfg, es, |s.returned|, false);
    RunKeepsInv(s0, cfg, es);
    var t := Exec(s0, cfg, es);
    if |t.returned| <= |s.returned| { NextRoundReturns(t, cfg, start, now1, now2, timedOut); }
  }

  // ---- how a wait ends ---------------------------------------------------------------------------

  /** The sleep ended at its time limit, which is that of the wait. */
  ghost predicate TimedOut(s: Sys, timedOut: bool)
    requires s.phase.Waiting?
  {
    var at := s.phase.at;
    at.Sleeping? && timedOut && s.phase.timeout != 0
    && (at.how.OnEmpty? || (at.how.Timed? && s.core.deferUntil == 0))
  }

  /** The sleep ended before, and a wakeup has come since the DEFER. */
  ghost predicate Awoken(s: Sys, timedOut: bool)
    requires s.phase.Waiting?
  {
    var at := s.phase.at;
    at.Sleeping? && s.core.wakeSeq != s.core.deferSeq
    && (at.how.Forever? || (at.how.Timed? && !timedOut && s.core.deferUntil == 0))
  }

  /** The deadline has come; the time left is cut to 32 bits. */
  ghost predicate PastDeadline(s: Sys, now: nat)
    requires s.phase.Waiting?
  {
    s.phase.timeout != 0 && (now >= s.phase.deadline || (s.phase.deadline - now) % 0x1_0000_0000 == 0)
  }

  /** Nothing holds the head back: no DEFER, or a timed one that is over, or an indefinite one after a wakeup, which
      only a wait without limit looks at. */
  ghost predicate Ready(s: Sys, now: nat)
    requires s.phase.Waiting?
  {
    var c := s.core;
    !c.deferActive
    || (if c.deferUntil != 0 then now >= c.deferUntil else s.phase.timeout == 0 && c.wakeSeq != c.deferSeq)
  }

  ghost predicate Returns(s: Sys, t: Sys, r: nat) {
    t.phase.Idle? && t.returned == s.returned + [r]
  }

  /** The core when a wait returns 1: a flag that was up is cleared, and nothing else has changed. */
  ghost predicate Cleared(c: Core, d: Core) {
    !d.deferActive
    && d == if c.deferActive then c.(deferActive := false, deferUntil := 0, deferSeq := c.wakeSeq)
            else c.(deferUntil := d.deferUntil, deferSeq := d.deferSeq)
  }

  /** How long it sleeps: until something comes, or the deadline; on a timed DEFER no longer than that lasts. */
  ghost predicate SleepsFor(s: Sys, now1: nat, now2: nat, how: Sleep)
    requires s.phase.Waiting? && s.core.taken <= |s.core.accepted|
  {
    var left := if s.phase.timeout == 0 then 0 else (s.phase.deadline - now1) % 0x1_0000_0000;
    if Queue(s.core) == [] then how == OnEmpty(left)
    else if s.core.deferUntil == 0 then how == if s.phase.timeout == 0 then Forever else Timed(left)
    else
      var rest := s.core.deferUntil - now2;
      rest > 0 && how.Timed? && how.ms == Min(if 0 < left <= rest then left else rest, 0xFFFF_FFFF)
  }

  lemma WakeMeans(s: Sys, timedOut: bool)
    requires s.phase.Waiting? && s.phase.at.Sleeping?
    ensures var (c, out) := WaitWake(s.core, s.phase.timeout, s.phase.at.how, timedOut);
            && (out == Return(0) <==> TimedOut(s, timedOut))
            && (out == Return(1) <==> Awoken(s, timedOut) && !TimedOut(s, timedOut))
            && (out == Return(1) ==> Cleared(s.core, c))
            && (out != Return(1) ==> c == s.core)
            && out in {Return(0), Return(1), Again}
  {
  }

  lemma TopMeans(s: Sys, now1: nat, now2: nat)
    requires s.phase.Waiting? && s.core.taken <= |s.core.accepted|
    ensures var (c, out) := WaitTop(s.core, s.phase.timeout, s.phase.deadline, now1, now2);
            var late, go := PastDeadline(s, now1), Queue(s.core) != [] && Ready(s, now2);
            && (out == Return(0) <==> late)
            && (out == Return(1) <==> !late && go)
            && (out.Asleep? <==> !late && !go)
            && (out.Asleep? ==> SleepsFor(s, now1, now2, out.how))
            && (out == Return(1) ==> Cleared(s.core, c))
            && (out != Return(1) ==> c == s.core)
  {
  }

  /** One round of a wait: it returns 0 exactly at its deadline or after a sleep that lasted until then; 1 exactly if
      it was woken from a DEFER, or there is a node and nothing holds it back; and sleeps otherwise. */
  lemma {:induction false} RoundMeans(s: Sys, cfg: Cfg, now1: nat, now2: nat, timedOut: bool)
    requires CoreOk(s.core, cfg) && s.phase.Waiting?
    ensures var t := Next(s, cfg, RunWait(now1, now2, timedOut));
            var gaveUp, woken, late := TimedOut(s, timedOut), Awoken(s, timedOut), PastDeadline(s, now1);
            var go := woken || (!late && Queue(s.core) != [] && Ready(s, now2));
            && (Returns(s, t, 0) <==> gaveUp || (!woken && late))
            && (Returns(s, t, 1) <==> !gaveUp && go)
            && (t.phase.Idle? ==> Returns(s, t, 0) || Returns(s, t, 1))
            && (!t.phase.Idle? ==>
                  && t == s.(phase := s.phase.(at := t.phase.at)) && t.phase.at.Sleeping? && !t.phase.at.signalled
                  && SleepsFor(s, now1, now2, t.phase.at.how))
            && (Returns(s, t, 0) ==> t == s.(phase := Idle, returned := t.returned))
            && (Returns(s, t, 1) ==> t == s.(core := t.core, phase := Idle, returned := t.returned)
                                     && Cleared(s.core, t.core))
  {
    assert (s.returned + [0])[|s.returned|] == 0 && (s.returned + [1])[|s.returned|] == 1;
    if s.phase.at.Sleeping? { WakeMeans(s, timedOut); }
    TopMeans(s, now1, now2);
    hide WaitTop, WaitWake, Awoken, TimedOut, PastDeadline, Ready, SleepsFor, Cleared;
    assert s.phase.at.AtTop? ==> !TimedOut(s, timedOut) && !Awoken(s, timedOut) by { AtTopIsAwake(s, timedOut); }
  }

  lemma AtTopIsAwake(s: Sys, timedOut: bool)
    requires s.phase.Waiting?
    ensures s.phase.at.AtTop? ==> !TimedOut(s, timedOut) && !Awoken(s, timedOut)
  {
  }

  /** The deadline of a wait: its beginning and its limit, up to the largest time there is. */
  lemma WaitBegins(s: Sys, cfg: Cfg, limit: nat, start: nat)
    requires CoreOk(s.core, cfg) && s.phase.Idle? && start < 0x1_0000_0000_0000_0000
    ensures var t := Next(s, cfg, BeginWait(limit, start));
            && t == s.(phase := Waiting(limit, t.phase.deadline, AtTop))
            && (limit != 0 ==> t.phase.deadline == Min(start + limit, 0xFFFF_FFFF_FFFF_FFFF))
  {
  }

  /** Over every run, whatever its limit: a consumer that sleeps and has not been signalled has no node to take, or
      a DEFER holds it back. */
  lemma {:induction false} SleeperHasAReason(cfg: Cfg, tabCap: nat, es: seq<Step>)
    requires cfg.cap >= 2 && tabCap > 0
    ensures var t := Exec(Start(tabCap), cfg, es);
            t.phase.Waiting? && t.phase.at.Sleeping? && !t.phase.at.signalled ==>
              Queue(t.core) == [] || t.core.deferActive
  {
    InitialInv(cfg, tabCap);
    RunKeepsInv(Start(tabCap), cfg, es);
  }

  /** What may happen during a timed DEFER: any steps of the other threads but flushes, and the consumer waiting with
      any limits as long as no clock it reads has reached the end. */
  predicate Meanwhile(e: Step, until: nat) {
    match e
    case CancelAll(flush) => !flush
    case BeginPop => false
    case EndPop(_, _, _) => false
    case RunWait(_, now2, _) => now2 < until
    case _ => true
  }

  /** `base` waits had returned at the DEFER. */
  ghost predicate HeldUntil(s: Sys, base: nat, until: nat) {
    && s.core.deferActive && s.core.deferUntil == until > 0 && !s.phase.Popping?
    && (s.phase.Waiting? && s.phase.at.Sleeping? ==> !s.phase.at.how.Forever?)
    && base <= |s.returned| && forall i :: base <= i < |s.returned| ==> s.returned[i] == 0
  }

  lemma HeldStep(s: Sys, cfg: Cfg, e: Step, base: nat, until: nat)
    requires CoreOk(s.core, cfg) && HeldUntil(s, base, until) && Meanwhile(e, until)
    ensures HeldUntil(Next(s, cfg, e), base, until)
  {
    if e.RunWait? && s.phase.Waiting? {
      RoundMeans(s, cfg, e.now1, e.now2, e.timedOut);
      hide Next;
    } else {
      hide AfterRunWait, CT.Inserted, CT.Overflows;
    }
  }

  lemma {:induction false} HeldRun(s: Sys, cfg: Cfg, es: seq<Step>, base: nat, until: nat)
    requires CoreOk(s.core, cfg) && HeldUntil(s, base, until)
    requires forall i :: 0 <= i < |es| ==> Meanwhile(es[i], until)
    ensures HeldUntil(Exec(s, cfg, es), base, until)
    decreases |es|
  {
    hide Next, HeldUntil;
    if es != [] {
      HeldStep(s, cfg, es[0], base, until);
      HeldRun(Next(s, cfg, es[0]), cfg, es[1..], base, until);
    }
  }

  /** A DEFER for `ms` milliseconds at time `now` ends at `now + ms`: until then no wait returns 1, whatever its limit
      and whatever the other threads do short of a flush; from then on a round that finds a node returns 1 with the
      flag clear, unless the wait itself is over. */
  lemma {:induction false} TimedDeferEnds(s: Sys, cfg: Cfg, dec: int, ms: nat, now: nat, es: seq<Step>,
                                          now1: nat, now2: nat, timedOut: bool)
    requires Inv(s, cfg) && s.phase.Popping? && Verdict(cfg, s.phase.p, dec) == Defer && ms > 0
    requires forall i :: 0 <= i < |es| ==> Meanwhile(es[i], now + ms)
    ensures var t := Exec(Next(s, cfg, EndPop(dec, ms, now)), cfg, es);
            && t.core.deferActive && t.core.deferUntil == now + ms
            && (forall i :: |s.returned| <= i < |t.returned| ==> t.returned[i] == 0)
            && (t.phase.Waiting? && Queue(t.core) != [] && now2 >= now + ms
                && !TimedOut(t, timedOut) && !PastDeadline(t, now1) ==>
                  var u := Next(t, cfg, RunWait(now1, now2, timedOut)); Returns(t, u, 1) && !u.core.deferActive)
  {
    var s0 := Next(s, cfg, EndPop(dec, ms, now));
    HeldRun(s0, cfg, es, |s.returned|, now + ms);
    var t := Exec(s0, cfg, es);
    if t.phase.Waiting? {
      RoundMeans(t, cfg, now1, now2, timedOut);
      hide Next, TimedOut, PastDeadline;
    }
  }

  // ---- what a pop reports ------------------------------------------------------------------------

  /** The result of a pop in terms of the node it peeked, the epoch and the cancellations at that moment, and the
      decision of the policy, which is only asked about nodes that are neither cancelled nor control events. */
  lemma {:induction false} PopMeans(s: Sys, cfg: Cfg, dec: int, waitMs: nat, now: nat)
    requires Inv(s, cfg) && s.phase.Popping?
    ensures var t := Next(s, cfg, EndPop(dec, waitMs, now));
            var n, p := s.core.accepted[s.phase.ticket], s.phase.p;
            var current := n.epoch == p.active && !p.cancelled;
            var asked := current && n.evt.ev !in {cfg.evCancel, cfg.evCancelReq};
            && |t.results| == |s.results| + 1 && t.results[..|s.results|] == s.results && t.phase.Idle?
            && var r := t.results[|s.results|];
               && r.ticket == s.phase.ticket && r.peekEpoch == p.active && r.flushes == s.phase.flushes
               && (r.rc == DropEpoch <==> n.epoch != p.active)
               && (r.rc == DropReq <==> n.epoch == p.active && p.cancelled)
               && (r.rc == CtrlCancelAll <==> current && n.evt.ev == cfg.evCancel)
               && (r.rc == CtrlCancelReq <==> current && n.evt.ev == cfg.evCancelReq != cfg.evCancel)
               && (r.rc == Ok <==> asked && dec == 0)
               && (r.rc == Defer <==> asked && dec == 2)
               && (r.rc == DropPolicy <==> asked && dec !in {0, 2})
               && (t.core.deferActive <==> r.rc == Defer)
  {
  }

  /** Every return of 1 leaves the defer flag clear, for every kind of wait. */
  lemma {:induction false} WaitReturnsUndeferred(s: Sys, cfg: Cfg, now1: nat, now2: nat, timedOut: bool)
    requires CoreOk(s.core, cfg) && s.phase.Waiting?
    ensures var t := Next(s, cfg, RunWait(now1, now2, timedOut));
            && (t.phase.Idle? ==> |t.returned| == |s.returned| + 1 && t.returned[|s.returned|] in {0, 1})
            && (t.phase.Idle? && t.returned[|s.returned|] == 1 ==> !t.core.deferActive)
            && (s.phase.timeout == 0 && t.phase.Idle? ==> t.returned[|s.returned|] == 1)
  {
  }

  /** With a finite limit the latch is not looked at before sleeping: a wakeup that came after the snapshot
      but before the wait is honoured at once exactly when the wait has no limit. */
  lemma PendingWakeupNeedsUnlimitedWait(c: Core, timeout: nat, deadline: nat, now1: nat, now2: nat)
    requires c.taken < |c.accepted| && c.deferActive && c.deferUntil == 0 && c.wakeSeq != c.deferSeq
    ensures WaitTop(c, timeout, deadline, now1, now2).1 == Return(1) <==> timeout == 0
  {
  }
}

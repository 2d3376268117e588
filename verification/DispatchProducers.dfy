/** Producers that wait for room in the ring: with those that sleep on the condition variable and those that have
    been signalled but have not run again, every run of the dispatcher with any number of them. */
module DispatchProducers {
  import opened Common
  import opened Dispatch
  import R = DispatchRuns

  /** `asleep` and `woken` are the events of the producers in either state. `entered` are the events of all pushes
      so far, `dropped` those that were given up because the ring was full. */
  datatype Hall = Hall(sys: R.Sys, asleep: seq<Event>, woken: seq<Event>, entered: seq<Event>, dropped: seq<Event>)

  /** A producer calls push, or goes on after its sleep, or wakes up for no reason; or another thread runs, and if
      it signals, the system wakes the producer it picks. */
  datatype Move = Enter(evt: Event) | Resume(i: nat) | Stir(i: nat) | Other(e: R.Step, pick: nat)

  function Room(h: Hall, cfg: Cfg): int {
    cfg.cap - 1 - (|h.sys.core.accepted| - h.sys.core.taken)
  }

  function Without(s: seq<Event>, i: nat): seq<Event>
    requires i < |s|
  {
    s[..i] + s[i + 1..]
  }

  /** The loop of a push from its top until it is done or goes to sleep. */
  function Tried(h: Hall, cfg: Cfg, evt: Event): (r: Hall)
    requires CoreOk(h.sys.core, cfg)
    ensures CoreOk(r.sys.core, cfg)
  {
    match AfterPush(h.sys.core, cfg, evt).1
    case Pushed => h.(sys := R.Next(h.sys, cfg, R.Push(evt)))
    case Dropped => h.(dropped := h.dropped + [evt])
    case Blocked => h.(asleep := h.asleep + [evt])
  }

  function Roused(h: Hall, i: nat): Hall
    requires i < |h.asleep|
  {
    h.(asleep := Without(h.asleep, i), woken := h.woken + [h.asleep[i]])
  }

  /** One signal wakes one sleeping producer, if there is any. */
  function Signalled(h: Hall, pick: nat): Hall {
    if h.asleep == [] then h else Roused(h, pick % |h.asleep|)
  }

  function Broadcast(h: Hall): Hall {
    h.(asleep := [], woken := h.woken + h.asleep)
  }

  function AfterOther(h: Hall, cfg: Cfg, e: R.Step, pick: nat): (r: Hall)
    requires CoreOk(h.sys.core, cfg)
    ensures CoreOk(r.sys.core, cfg)
  {
    var g := h.(sys := R.Next(h.sys, cfg, e));
    if e.CancelAll? && e.flush then Broadcast(g)
    else if e.EndPop? && g.sys.core.taken > h.sys.core.taken then Signalled(g, pick)
    else g
  }

  function Next(h: Hall, cfg: Cfg, m: Move): (r: Hall)
    requires CoreOk(h.sys.core, cfg)
    ensures CoreOk(r.sys.core, cfg)
  {
    match m
    case Enter(evt) => Tried(h.(entered := h.entered + [evt]), cfg, evt)
    case Resume(i) => if i < |h.woken| then Tried(h.(woken := Without(h.woken, i)), cfg, h.woken[i]) else h
    case Stir(i) => if i < |h.asleep| then Roused(h, i) else h
    case Other(e, pick) => if e.Push? then h else AfterOther(h, cfg, e, pick)
  }

  function Exec(h: Hall, cfg: Cfg, ms: seq<Move>): (r: Hall)
    requires CoreOk(h.sys.core, cfg)
    ensures CoreOk(r.sys.core, cfg)
    decreases |ms|
  {
    if ms == [] then h else Exec(Next(h, cfg, ms[0]), cfg, ms[1..])
  }

  function Start(tabCap: nat): Hall {
    Hall(R.Start(tabCap), [], [], [], [])
  }

  // ---- the runs below ----------------------------------------------------------------------------

  /** The regions of the dispatcher that a move runs: a push that has to sleep changes nothing. */
  function Regions(h: Hall, m: Move): seq<R.Step> {
    match m
    case Enter(evt) => [R.Push(evt)]
    case Resume(i) => if i < |h.woken| then [R.Push(h.woken[i])] else []
    case Stir(_) => []
    case Other(e, _) => if e.Push? then [] else [e]
  }

  function Trace(h: Hall, cfg: Cfg, ms: seq<Move>): seq<R.Step>
    requires CoreOk(h.sys.core, cfg)
    decreases |ms|
  {
    if ms == [] then [] else Regions(h, ms[0]) + Trace(Next(h, cfg, ms[0]), cfg, ms[1..])
  }

  lemma MoveIsRegions(h: Hall, cfg: Cfg, m: Move, rest: seq<R.Step>)
    requires CoreOk(h.sys.core, cfg)
    ensures R.Exec(h.sys, cfg, Regions(h, m) + rest) == R.Exec(Next(h, cfg, m).sys, cfg, rest)
  {
    var es := Regions(h, m) + rest;
    if Regions(h, m) == [] {
      assert es == rest;
    } else {
      assert es[0] == Regions(h, m)[0] && es[1..] == rest;
    }
  }

  /** Whatever the producers do, the dispatcher goes through one of its runs. */
  lemma {:induction false} RunsAreRuns(h: Hall, cfg: Cfg, ms: seq<Move>)
    requires CoreOk(h.sys.core, cfg)
    ensures Exec(h, cfg, ms).sys == R.Exec(h.sys, cfg, Trace(h, cfg, ms))
    decreases |ms|
  {
    hide Next, Regions;
    if ms != [] {
      MoveIsRegions(h, cfg, ms[0], Trace(Next(h, cfg, ms[0]), cfg, ms[1..]));
      RunsAreRuns(Next(h, cfg, ms[0]), cfg, ms[1..]);
    }
  }

  // ---- what holds over whole runs ----------------------------------------------------------------

  function EventsOf(nodes: seq<Node>): (r: seq<Event>)
    ensures |r| == |nodes|
  {
    seq(|nodes|, i requires 0 <= i < |nodes| => nodes[i].evt)
  }

  /** Every push is accounted for: its event was accepted or dropped, or its producer still waits. */
  ghost predicate Accounted(h: Hall) {
    multiset(h.entered)
    == multiset(EventsOf(h.sys.core.accepted)) + multiset(h.dropped) + multiset(h.asleep) + multiset(h.woken)
  }

  /** While a producer sleeps, at least as many others are on their way as there is room for. */
  ghost predicate Inv(h: Hall, cfg: Cfg) {
    && CoreOk(h.sys.core, cfg)
    && (h.asleep == [] || |h.woken| >= Room(h, cfg))
    && (if cfg.dropOnFull then h.asleep == h.woken == [] else h.dropped == [])
    && Accounted(h)
  }

  lemma Picked(s: seq<Event>, i: nat)
    requires i < |s|
    ensures multiset(Without(s, i)) + multiset{s[i]} == multiset(s)
  {
    assert s == s[..i] + [s[i]] + s[i + 1..];
  }

  /** A try adds the event to exactly one of the three places. */
  lemma TriedShape(h: Hall, cfg: Cfg, evt: Event)
    requires CoreOk(h.sys.core, cfg)
    ensures var t, full := Tried(h, cfg, evt), Room(h, cfg) == 0;
            && t.woken == h.woken && t.entered == h.entered && t.sys.core.taken == h.sys.core.taken
            && EventsOf(t.sys.core.accepted) == EventsOf(h.sys.core.accepted) + (if full then [] else [evt])
            && t.dropped == h.dropped + (if full && cfg.dropOnFull then [evt] else [])
            && t.asleep == h.asleep + (if full && !cfg.dropOnFull then [evt] else [])
  {
  }

  lemma TriedAccounted(h: Hall, cfg: Cfg, evt: Event)
    requires CoreOk(h.sys.core, cfg)
    requires multiset(h.entered) == multiset(EventsOf(h.sys.core.accepted)) + multiset(h.dropped)
                                    + multiset(h.asleep) + multiset(h.woken) + multiset{evt}
    ensures Accounted(Tried(h, cfg, evt))
  {
    hide Tried, EventsOf;
    TriedShape(h, cfg, evt);
  }

  /** A try from a state in which the event is not counted anywhere yet. */
  lemma TriedInv(h: Hall, cfg: Cfg, evt: Event)
    requires CoreOk(h.sys.core, cfg)
    requires h.asleep == [] || |h.woken| + 1 >= Room(h, cfg)
    requires if cfg.dropOnFull then h.asleep == h.woken == [] else h.dropped == []
    requires multiset(h.entered) == multiset(EventsOf(h.sys.core.accepted)) + multiset(h.dropped)
                                    + multiset(h.asleep) + multiset(h.woken) + multiset{evt}
    ensures Inv(Tried(h, cfg, evt), cfg)
  {
    hide Tried, EventsOf, Accounted;
    TriedShape(h, cfg, evt);
    TriedAccounted(h, cfg, evt);
  }

  lemma RousedInv(h: Hall, cfg: Cfg, i: nat)
    requires CoreOk(h.sys.core, cfg) && i < |h.asleep| && !cfg.dropOnFull && h.dropped == [] && Accounted(h)
    requires |h.woken| + 1 >= Room(h, cfg)
    ensures Inv(Roused(h, i), cfg)
  {
    Picked(h.asleep, i);
  }

  /** What the other threads do to the ring. */
  lemma OtherFrame(s: R.Sys, cfg: Cfg, e: R.Step)
    requires CoreOk(s.core, cfg) && !e.Push?
    ensures var t := R.Next(s, cfg, e);
            && t.core.accepted == s.core.accepted
            && (if e.CancelAll? && e.flush then t.core.taken == |s.core.accepted|
                else if e.EndPop? then s.core.taken <= t.core.taken <= s.core.taken + 1
                else t.core.taken == s.core.taken)
  {
    if !e.CancelAll? && !e.CancelReq? { R.CoreFrame(s, cfg, e); }
  }

  lemma OtherInv(h: Hall, cfg: Cfg, e: R.Step, pick: nat)
    requires Inv(h, cfg) && !e.Push?
    ensures Inv(AfterOther(h, cfg, e, pick), cfg)
  {
    OtherFrame(h.sys, cfg, e);
    hide R.Next;
    var g := h.(sys := R.Next(h.sys, cfg, e));
    if !(e.CancelAll? && e.flush) && e.EndPop? && g.sys.core.taken > h.sys.core.taken && g.asleep != [] {
      RousedInv(g, cfg, pick % |g.asleep|);
    }
  }

  lemma MoveKeepsInv(h: Hall, cfg: Cfg, m: Move)
    requires Inv(h, cfg)
    ensures Inv(Next(h, cfg, m), cfg)
  {
    hide Tried, AfterOther;
    match m
    case Enter(evt) =>
      TriedInv(h.(entered := h.entered + [evt]), cfg, evt);
    case Resume(i) =>
      if i < |h.woken| {
        Picked(h.woken, i);
        TriedInv(h.(woken := Without(h.woken, i)), cfg, h.woken[i]);
      }
    case Stir(i) =>
      if i < |h.asleep| { RousedInv(h, cfg, i); }
    case Other(e, pick) =>
      if !e.Push? { OtherInv(h, cfg, e, pick); }
  }

  lemma {:induction false} RunKeepsInv(h: Hall, cfg: Cfg, ms: seq<Move>)
    requires Inv(h, cfg)
    ensures Inv(Exec(h, cfg, ms), cfg)
    decreases |ms|
  {
    hide Next;
    if ms != [] {
      MoveKeepsInv(h, cfg, ms[0]);
      RunKeepsInv(Next(h, cfg, ms[0]), cfg, ms[1..]);
    }
  }

  /** Over every run: no producer is left asleep beside room, since as long as one sleeps, at least as many others
      have been woken as there are free cells; when those have run, the ring is full or nobody sleeps. No push is
      lost: its event has been accepted, or dropped, which only happens in drop mode, or its producer waits, which
      only happens otherwise. */
  lemma {:induction false} NoProducerSleepsBesideRoom(cfg: Cfg, tabCap: nat, ms: seq<Move>)
    requires cfg.cap >= 2 && tabCap > 0
    ensures var t := Exec(Start(tabCap), cfg, ms);
            && (t.asleep != [] ==> |Queue(t.sys.core)| + |t.woken| >= cfg.cap - 1)
            && (t.asleep != [] && t.woken == [] ==> |Queue(t.sys.core)| == cfg.cap - 1)
            && multiset(t.entered) == multiset(EventsOf(t.sys.core.accepted)) + multiset(t.dropped)
                                      + multiset(t.asleep) + multiset(t.woken)
            && (if cfg.dropOnFull then t.asleep == t.woken == [] else t.dropped == [])
  {
    RunKeepsInv(Start(tabCap), cfg, ms);
  }
}

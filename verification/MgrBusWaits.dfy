/** Pops that wait on the bus: with those that sleep on the condition variable and those that have been woken but
    have not run again, every run of the bus with any number of them. */
module MgrBusWaits {
  import opened Common
  import opened MgrBus
  import B = MgrBus

  /** A pop from any inbox, or for one address. */
  datatype Waiter = AnyInbox(timeoutMs: int) | InboxOf(dst: nat, timeoutMs: int)

  datatype Hall = Hall(bus: Bus, asleep: seq<Waiter>, woken: seq<Waiter>)

  /** A pop is called, or goes on after its sleep, or wakes up for no reason, or times out; or a message is pushed;
      or everybody is woken up. */
  datatype Move = Enter(w: Waiter) | Resume(i: nat) | Stir(i: nat) | GiveUp(i: nat) | Send(msg: Msg) | WakeAll

  function Round(s: Bus, w: Waiter): (Bus, PopRc) {
    match w
    case AnyInbox(timeoutMs) => AfterPop(s, timeoutMs)
    case InboxOf(dst, timeoutMs) => AfterPopFor(s, dst, timeoutMs)
  }

  function Without(s: seq<Waiter>, i: nat): seq<Waiter>
    requires i < |s|
  {
    s[..i] + s[i + 1..]
  }

  function Tried(h: Hall, w: Waiter): Hall {
    var (b, rc) := Round(h.bus, w);
    if rc == Wait then h.(asleep := h.asleep + [w]) else h.(bus := b)
  }

  function Broadcast(h: Hall): Hall {
    h.(asleep := [], woken := h.woken + h.asleep)
  }

  /** A unicast that fails wakes nobody; a broadcast always wakes everybody. */
  function Sent(h: Hall, m: Msg): Hall {
    var (b, rc) := AfterPush(h.bus, m);
    if m.dst == BROADCAST || rc == 0 then Broadcast(h.(bus := b)) else h.(bus := b)
  }

  function Next(h: Hall, m: Move): Hall {
    match m
    case Enter(w) => Tried(h, w)
    case Resume(i) => if i < |h.woken| then Tried(h.(woken := Without(h.woken, i)), h.woken[i]) else h
    case Stir(i) =>
      if i < |h.asleep| then h.(asleep := Without(h.asleep, i), woken := h.woken + [h.asleep[i]]) else h
    case GiveUp(i) => if i < |h.asleep| && h.asleep[i].timeoutMs > 0 then h.(asleep := Without(h.asleep, i)) else h
    case Send(m) => Sent(h, m)
    case WakeAll => Broadcast(h.(bus := h.bus.(wake := true)))
  }

  function Exec(h: Hall, ms: seq<Move>): Hall
    decreases |ms|
  {
    if ms == [] then h else Exec(Next(h, ms[0]), ms[1..])
  }

  // ---- the runs below ----------------------------------------------------------------------------

  function RoundStep(w: Waiter): Step {
    match w
    case AnyInbox(timeoutMs) => Pop(timeoutMs)
    case InboxOf(dst, timeoutMs) => PopFor(dst, timeoutMs)
  }

  /** The regions of the bus that a move runs: a round that has to wait changes nothing. */
  function Regions(h: Hall, m: Move): seq<Step> {
    match m
    case Enter(w) => [RoundStep(w)]
    case Resume(i) => if i < |h.woken| then [RoundStep(h.woken[i])] else []
    case Send(m) => [Push(m)]
    case WakeAll => [Wakeup]
    case _ => []
  }

  function Trace(h: Hall, ms: seq<Move>): seq<Step>
    decreases |ms|
  {
    if ms == [] then [] else Regions(h, ms[0]) + Trace(Next(h, ms[0]), ms[1..])
  }

  lemma MoveIsRegions(h: Hall, m: Move, rest: seq<Step>)
    ensures B.Exec(h.bus, Regions(h, m) + rest) == B.Exec(Next(h, m).bus, rest)
  {
    var steps := Regions(h, m) + rest;
    if Regions(h, m) == [] {
      assert steps == rest;
    } else {
      assert steps[0] == Regions(h, m)[0] && steps[1..] == rest;
    }
  }

  /** Whoever waits, the bus goes through one of its runs. */
  lemma {:induction false} RunsAreRuns(h: Hall, ms: seq<Move>)
    ensures Exec(h, ms).bus == B.Exec(h.bus, Trace(h, ms))
    decreases |ms|
  {
    hide Next, Regions;
    if ms != [] {
      MoveIsRegions(h, ms[0], Trace(Next(h, ms[0]), ms[1..]));
      RunsAreRuns(Next(h, ms[0]), ms[1..]);
    }
  }

  // ---- what holds over whole runs ----------------------------------------------------------------

  /** Nobody sleeps who would not go back to sleep at once. */
  ghost predicate SleepersWait(h: Hall) {
    forall w :: w in h.asleep ==> Round(h.bus, w).1 == Wait
  }

  /** Taking a message out gives no sleeper a reason to wake. */
  lemma TakeLetsSleep(s: Bus, i: nat, w: Waiter)
    requires i < |s.boxes| && s.boxes[i].queue != [] && Round(s, w).1 == Wait
    ensures Round(Take(s, i), w).1 == Wait
  {
    FirstNonEmptyIs(s.boxes, 0);
    if w.InboxOf? { SameFirst(s.boxes, Take(s, i).boxes, w.dst, 0); }
  }

  lemma TriedLetsSleep(h: Hall, v: Waiter)
    requires SleepersWait(h)
    ensures SleepersWait(Tried(h, v))
  {
    var t := Tried(h, v);
    if Round(h.bus, v).1.Got? {
      var i := if v.AnyInbox? then FirstNonEmpty(h.bus.boxes, 0).value else FirstWith(h.bus.boxes, v.dst).value;
      assert t.bus == Take(h.bus, i);
      hide Round, Take;
      forall w | w in t.asleep ensures Round(t.bus, w).1 == Wait { TakeLetsSleep(h.bus, i, w); }
    }
  }

  lemma MoveLetsSleep(h: Hall, m: Move)
    requires SleepersWait(h)
    ensures SleepersWait(Next(h, m))
  {
    hide Round, Tried;
    match m
    case Enter(w) => TriedLetsSleep(h, w);
    case Resume(i) => if i < |h.woken| { TriedLetsSleep(h.(woken := Without(h.woken, i)), h.woken[i]); }
    case _ =>
  }

  lemma {:induction false} RunLetsSleep(h: Hall, ms: seq<Move>)
    requires SleepersWait(h)
    ensures SleepersWait(Exec(h, ms))
    decreases |ms|
  {
    hide Next, SleepersWait;
    if ms != [] {
      MoveLetsSleep(h, ms[0]);
      RunLetsSleep(Next(h, ms[0]), ms[1..]);
    }
  }

  /** Over every run from a bus on which nobody waits: a pop that is asleep and has not been woken has nothing to
      take, in any inbox or in the first one with its address, and nobody has asked it to stop. */
  lemma {:induction false} NoPopSleepsBesideAMessage(s: Bus, ms: seq<Move>, w: Waiter)
    requires w in Exec(Hall(s, [], []), ms).asleep
    ensures var t := Exec(Hall(s, [], []), ms).bus;
            && !t.wake
            && match w
               case AnyInbox(_) => forall i :: 0 <= i < |t.boxes| ==> t.boxes[i].queue == []
               case InboxOf(dst, _) =>
                 FirstWith(t.boxes, dst).Some? && t.boxes[FirstWith(t.boxes, dst).value].queue == []
  {
    RunLetsSleep(Hall(s, [], []), ms);
    FirstNonEmptyIs(Exec(Hall(s, [], []), ms).bus.boxes, 0);
  }
}

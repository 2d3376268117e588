/** The bus between managers: one bounded FIFO per address, unicast and broadcast, and two kinds of pop. Each
    function below is one region under the bus mutex; a pop that has to wait is a series of rounds. */
module MgrBus {
  import opened Common
  import opened Modular

  const BROADCAST: nat := 0xFFFF_FFFF
  const DEFAULT_QCAP := 64

  datatype Msg = Msg(dst: nat, src: nat, code: nat, a: int, b: int, ts: nat)

  datatype Box = Box(addr: nat, cap: nat, queue: seq<Msg>)

  /** What has happened to an inbox: a message was stored in it, or taken out of it. */
  datatype Event = Stored(inbox: nat, msg: Msg) | Taken(inbox: nat, msg: Msg)

  datatype Bus = Bus(boxes: seq<Box>, wake: bool, log: seq<Event>)

  /** `Wait`: the caller goes to sleep on the condition variable and comes back for another round. */
  datatype PopRc = Got(msg: Msg) | Empty | Failed | Wait

  // ---- regions as functions ----------------------------------------------------------------------

  predicate HasRoom(box: Box) {
    |box.queue| < box.cap
  }

  function FirstWith(boxes: seq<Box>, addr: nat): Option<nat> {
    FirstFrom(boxes, addr, 0)
  }

  function FirstFrom(boxes: seq<Box>, addr: nat, i: nat): (r: Option<nat>)
    requires i <= |boxes|
    ensures r.Some? ==> i <= r.value < |boxes|
    decreases |boxes| - i
  {
    if i == |boxes| then None else if boxes[i].addr == addr then Some(i) else FirstFrom(boxes, addr, i + 1)
  }

  function FirstNonEmpty(boxes: seq<Box>, i: nat): (r: Option<nat>)
    requires i <= |boxes|
    ensures r.Some? ==> i <= r.value < |boxes| && boxes[r.value].queue != []
    decreases |boxes| - i
  {
    if i == |boxes| then None else if boxes[i].queue != [] then Some(i) else FirstNonEmpty(boxes, i + 1)
  }

  function Store(s: Bus, i: nat, m: Msg): Bus
    requires i < |s.boxes|
  {
    var box := s.boxes[i];
    if !HasRoom(box) then s
    else s.(boxes := s.boxes[i := box.(queue := box.queue + [m])], log := s.log + [Stored(i, m)])
  }

  /** The first `k` inboxes have been tried. */
  function StoreUpTo(s: Bus, m: Msg, k: nat): (t: Bus)
    requires k <= |s.boxes|
    ensures |t.boxes| == |s.boxes|
  {
    if k == 0 then s else Store(StoreUpTo(s, m, k - 1), k - 1, m)
  }

  predicate AllHaveRoom(boxes: seq<Box>) {
    forall i :: 0 <= i < |boxes| ==> HasRoom(boxes[i])
  }

  function AfterPush(s: Bus, m: Msg): (Bus, int) {
    if m.dst == BROADCAST then
      (StoreUpTo(s, m, |s.boxes|), if s.boxes != [] && AllHaveRoom(s.boxes) then 0 else -1)
    else
      match FirstWith(s.boxes, m.dst)
      case None => (s, -1)
      case Some(i) => (Store(s, i, m), if HasRoom(s.boxes[i]) then 0 else -1)
  }

  function Take(s: Bus, i: nat): Bus
    requires i < |s.boxes| && s.boxes[i].queue != []
  {
    var box := s.boxes[i];
    s.(boxes := s.boxes[i := box.(queue := box.queue[1..])], log := s.log + [Taken(i, box.queue[0])])
  }

  function AfterPop(s: Bus, timeoutMs: int): (Bus, PopRc) {
    if s.wake then (s, Failed)
    else
      match FirstNonEmpty(s.boxes, 0)
      case Some(i) => (Take(s, i), Got(s.boxes[i].queue[0]))
      case None => (s, if timeoutMs == 0 then Empty else Wait)
  }

  function AfterPopFor(s: Bus, dst: nat, timeoutMs: int): (Bus, PopRc) {
    match FirstWith(s.boxes, dst)
    case None => (s, Failed)
    case Some(i) =>
      if s.wake then (s, Failed)
      else if s.boxes[i].queue == [] then (s, if timeoutMs == 0 then Empty else Wait)
      else (Take(s, i), Got(s.boxes[i].queue[0]))
  }

  // ---- what a broadcast reaches ------------------------------------------------------------------

  lemma {:induction false} FirstWithIsFirst(boxes: seq<Box>, addr: nat, i: nat)
    requires i <= |boxes|
    ensures match FirstFrom(boxes, addr, i)
            case None => forall j :: i <= j < |boxes| ==> boxes[j].addr != addr
            case Some(k) => boxes[k].addr == addr && forall j :: i <= j < k ==> boxes[j].addr != addr
    decreases |boxes| - i
  {
    if i < |boxes| && boxes[i].addr != addr { FirstWithIsFirst(boxes, addr, i + 1); }
  }

  lemma {:induction false} StoredUpTo(s: Bus, m: Msg, k: nat)
    requires k <= |s.boxes|
    ensures var t := StoreUpTo(s, m, k);
            forall i :: 0 <= i < |s.boxes| ==>
              t.boxes[i] == if i < k && HasRoom(s.boxes[i]) then s.boxes[i].(queue := s.boxes[i].queue + [m])
                            else s.boxes[i]
  {
    if k > 0 { StoredUpTo(s, m, k - 1); }
  }

  /** A broadcast, whatever it reports, has reached exactly the inboxes that had room; it reports success just
      when these are all inboxes and there is one. */
  lemma {:induction false} BroadcastReaches(s: Bus, m: Msg)
    requires m.dst == BROADCAST
    ensures var (t, rc) := AfterPush(s, m);
            && |t.boxes| == |s.boxes| && t.wake == s.wake
            && (forall i :: 0 <= i < |s.boxes| ==>
                  t.boxes[i] == if HasRoom(s.boxes[i]) then s.boxes[i].(queue := s.boxes[i].queue + [m])
                                else s.boxes[i])
            && rc in {0, -1}
            && (rc == 0 <==> s.boxes != [] && forall i :: 0 <= i < |s.boxes| ==> t.boxes[i] != s.boxes[i])
  {
    var t := AfterPush(s, m).0;
    StoredUpTo(s, m, |s.boxes|);
    StoreKeepsWake(s, m, |s.boxes|);
    forall i | 0 <= i < |s.boxes| ensures t.boxes[i] != s.boxes[i] <==> HasRoom(s.boxes[i]) {
      assert |s.boxes[i].queue + [m]| == |s.boxes[i].queue| + 1;
    }
  }

  lemma {:induction false} StoreKeepsWake(s: Bus, m: Msg, k: nat)
    requires k <= |s.boxes|
    ensures StoreUpTo(s, m, k).wake == s.wake
  {
    if k > 0 { StoreKeepsWake(s, m, k - 1); }
  }

  /** Inbox `i` is the one that messages to `addr` are meant for. */
  ghost predicate IsFirst(boxes: seq<Box>, addr: nat, i: nat) {
    i < |boxes| && boxes[i].addr == addr && forall j :: 0 <= j < i ==> boxes[j].addr != addr
  }

  lemma FirstIs(boxes: seq<Box>, addr: nat, i: nat)
    requires IsFirst(boxes, addr, i)
    ensures FirstWith(boxes, addr) == Some(i)
  {
    FirstWithIsFirst(boxes, addr, 0);
  }

  /** A unicast reports success exactly if there is an inbox with its address and the first such one has room. Then
      the message is at the end of that queue, and on no other; otherwise nothing has changed. */
  lemma UnicastReaches(s: Bus, m: Msg)
    requires m.dst != BROADCAST
    ensures var (t, rc) := AfterPush(s, m);
            && rc in {0, -1}
            && (rc == 0 <==> exists i: nat :: IsFirst(s.boxes, m.dst, i) && |s.boxes[i].queue| < s.boxes[i].cap)
            && (rc == 0 ==> forall i: nat :: IsFirst(s.boxes, m.dst, i) ==>
                  && |t.boxes| == |s.boxes| && t.wake == s.wake && t.log == s.log + [Stored(i, m)]
                  && t.boxes[i] == Box(m.dst, s.boxes[i].cap, s.boxes[i].queue + [m])
                  && forall j :: 0 <= j < |s.boxes| && j != i ==> t.boxes[j] == s.boxes[j])
            && (rc != 0 ==> t == s)
  {
    FirstWithIsFirst(s.boxes, m.dst, 0);
    if exists i: nat :: IsFirst(s.boxes, m.dst, i) {
      var i: nat :| IsFirst(s.boxes, m.dst, i);
      FirstIs(s.boxes, m.dst, i);
    }
  }

  /** The message at the head of inbox `i` is taken out and noted as taken. */
  ghost predicate Delivered(s: Bus, t: Bus, i: nat, m: Msg) {
    && i < |s.boxes| == |t.boxes| && s.boxes[i].queue != [] && s.boxes[i].queue == [m] + t.boxes[i].queue
    && t.boxes[i].addr == s.boxes[i].addr && t.boxes[i].cap == s.boxes[i].cap
    && (forall j :: 0 <= j < |s.boxes| && j != i ==> t.boxes[j] == s.boxes[j])
    && t.wake == s.wake && t.log == s.log + [Taken(i, m)]
  }

  lemma TakeDelivers(s: Bus, i: nat)
    requires i < |s.boxes| && s.boxes[i].queue != []
    ensures Delivered(s, Take(s, i), i, s.boxes[i].queue[0])
  {
  }

  lemma {:induction false} FirstNonEmptyIs(boxes: seq<Box>, i: nat)
    requires i <= |boxes|
    ensures match FirstNonEmpty(boxes, i)
            case None => forall j :: i <= j < |boxes| ==> boxes[j].queue == []
            case Some(k) => forall j :: i <= j < k ==> boxes[j].queue == []
    decreases |boxes| - i
  {
    if i < |boxes| && boxes[i].queue == [] { FirstNonEmptyIs(boxes, i + 1); }
  }

  /** A round of a pop from any inbox: refused once woken, otherwise it delivers the head of the first inbox that
      holds anything, and comes back empty or waits exactly if none does. */
  lemma PopMeans(s: Bus, timeoutMs: int)
    ensures var (t, rc) := AfterPop(s, timeoutMs);
            var empty := forall i :: 0 <= i < |s.boxes| ==> s.boxes[i].queue == [];
            && (rc == Failed <==> s.wake)
            && (rc == Empty <==> !s.wake && empty && timeoutMs == 0)
            && (rc == Wait <==> !s.wake && empty && timeoutMs != 0)
            && (!rc.Got? ==> t == s)
            && (rc.Got? ==>
                  exists i: nat :: Delivered(s, t, i, rc.msg) && forall j :: 0 <= j < i ==> s.boxes[j].queue == [])
  {
    FirstNonEmptyIs(s.boxes, 0);
    var i := FirstNonEmpty(s.boxes, 0);
    if i.Some? { TakeDelivers(s, i.value); }
  }

  /** The same for one address: only the first inbox with it counts, and without one the pop fails. */
  lemma PopForMeans(s: Bus, dst: nat, timeoutMs: int)
    ensures var (t, rc) := AfterPopFor(s, dst, timeoutMs);
            && (rc == Failed <==> s.wake || forall j :: 0 <= j < |s.boxes| ==> s.boxes[j].addr != dst)
            && (forall i: nat :: IsFirst(s.boxes, dst, i) && !s.wake ==>
                  && (rc == Empty <==> s.boxes[i].queue == [] && timeoutMs == 0)
                  && (rc == Wait <==> s.boxes[i].queue == [] && timeoutMs != 0)
                  && (rc.Got? ==> Delivered(s, t, i, rc.msg)))
            && (!rc.Got? ==> t == s)
  {
    FirstWithIsFirst(s.boxes, dst, 0);
    forall i: nat | IsFirst(s.boxes, dst, i) && !s.wake && s.boxes[i].queue != []
      ensures Delivered(s, AfterPopFor(s, dst, timeoutMs).0, i, s.boxes[i].queue[0])
    {
      FirstIs(s.boxes, dst, i);
      TakeDelivers(s, i);
    }
    forall i: nat | IsFirst(s.boxes, dst, i) ensures FirstWith(s.boxes, dst) == Some(i) { FirstIs(s.boxes, dst, i); }
  }

  // ---- runs --------------------------------------------------------------------------------------

  datatype Step = Push(msg: Msg) | Pop(timeoutMs: int) | PopFor(dst: nat, timeoutMs: int) | Wakeup

  function Next(s: Bus, step: Step): Bus {
    match step
    case Push(m) => AfterPush(s, m).0
    case Pop(timeoutMs) => AfterPop(s, timeoutMs).0
    case PopFor(dst, timeoutMs) => AfterPopFor(s, dst, timeoutMs).0
    case Wakeup => s.(wake := true)
  }

  function Exec(s: Bus, steps: seq<Step>): Bus
    decreases |steps|
  {
    if steps == [] then s else Exec(Next(s, steps[0]), steps[1..])
  }

  function StoredIn(log: seq<Event>, i: nat): seq<Msg> {
    if log == [] then []
    else
      var e := log[|log| - 1];
      StoredIn(log[..|log| - 1], i) + if e.Stored? && e.inbox == i then [e.msg] else []
  }

  function TakenFrom(log: seq<Event>, i: nat): seq<Msg> {
    if log == [] then []
    else
      var e := log[|log| - 1];
      TakenFrom(log[..|log| - 1], i) + if e.Taken? && e.inbox == i then [e.msg] else []
  }

  lemma LogGrows(log: seq<Event>, e: Event, i: nat)
    ensures StoredIn(log + [e], i) == StoredIn(log, i) + if e.Stored? && e.inbox == i then [e.msg] else []
    ensures TakenFrom(log + [e], i) == TakenFrom(log, i) + if e.Taken? && e.inbox == i then [e.msg] else []
  {
  }

  /** A message belongs in every inbox if it is a broadcast, else in the first one with its address. */
  predicate BelongsIn(boxes: seq<Box>, i: nat, m: Msg) {
    m.dst == BROADCAST || FirstWith(boxes, m.dst) == Some(i)
  }

  /** Everything stored in an inbox, in order, is what was taken from it followed by what is in it. */
  ghost predicate BoxOk(s: Bus, i: nat)
    requires i < |s.boxes|
  {
    && StoredIn(s.log, i) == TakenFrom(s.log, i) + s.boxes[i].queue
    && |s.boxes[i].queue| <= s.boxes[i].cap
    && forall m :: m in StoredIn(s.log, i) ==> BelongsIn(s.boxes, i, m)
  }

  ghost predicate Inv(s: Bus) {
    forall i :: 0 <= i < |s.boxes| ==> BoxOk(s, i)
  }

  predicate SameAddrs(a: seq<Box>, b: seq<Box>) {
    |a| == |b| && forall i :: 0 <= i < |a| ==> a[i].addr == b[i].addr && a[i].cap == b[i].cap
  }

  lemma {:induction false} SameFirst(a: seq<Box>, b: seq<Box>, addr: nat, i: nat)
    requires SameAddrs(a, b) && i <= |a|
    ensures FirstFrom(a, addr, i) == FirstFrom(b, addr, i)
    decreases |a| - i
  {
    if i < |a| { SameFirst(a, b, addr, i + 1); }
  }

  lemma SameBelongs(a: seq<Box>, b: seq<Box>, i: nat, m: Msg)
    requires SameAddrs(a, b)
    ensures BelongsIn(a, i, m) <==> BelongsIn(b, i, m)
  {
    SameFirst(a, b, m.dst, 0);
  }

  lemma StoreKeepsInv(s: Bus, i: nat, m: Msg)
    requires Inv(s) && i < |s.boxes| && BelongsIn(s.boxes, i, m)
    ensures Inv(Store(s, i, m)) && SameAddrs(s.boxes, Store(s, i, m).boxes)
  {
    if HasRoom(s.boxes[i]) {
      var t := Store(s, i, m);
      forall j | 0 <= j < |t.boxes| ensures BoxOk(t, j) {
        assert BoxOk(s, j);
        LogGrows(s.log, Stored(i, m), j);
        forall x | x in StoredIn(t.log, j) ensures BelongsIn(t.boxes, j, x) {
          SameBelongs(s.boxes, t.boxes, j, x);
        }
      }
    }
  }

  lemma {:induction false} StoreUpToKeepsInv(s: Bus, m: Msg, k: nat)
    requires Inv(s) && k <= |s.boxes| && m.dst == BROADCAST
    ensures Inv(StoreUpTo(s, m, k)) && SameAddrs(s.boxes, StoreUpTo(s, m, k).boxes)
  {
    if k > 0 {
      StoreUpToKeepsInv(s, m, k - 1);
      StoreKeepsInv(StoreUpTo(s, m, k - 1), k - 1, m);
    }
  }

  lemma TakeKeepsInv(s: Bus, i: nat)
    requires Inv(s) && i < |s.boxes| && s.boxes[i].queue != []
    ensures Inv(Take(s, i)) && SameAddrs(s.boxes, Take(s, i).boxes)
  {
    var t := Take(s, i);
    var q := s.boxes[i].queue;
    assert q == [q[0]] + q[1..];
    forall j | 0 <= j < |t.boxes| ensures BoxOk(t, j) {
      assert BoxOk(s, j);
      LogGrows(s.log, Taken(i, q[0]), j);
      forall x | x in StoredIn(t.log, j) ensures BelongsIn(t.boxes, j, x) {
        SameBelongs(s.boxes, t.boxes, j, x);
      }
    }
  }

  lemma StepKeepsInv(s: Bus, step: Step)
    requires Inv(s)
    ensures Inv(Next(s, step)) && SameAddrs(s.boxes, Next(s, step).boxes)
  {
    match step
    case Push(m) =>
      if m.dst == BROADCAST {
        StoreUpToKeepsInv(s, m, |s.boxes|);
      } else if FirstWith(s.boxes, m.dst).Some? {
        StoreKeepsInv(s, FirstWith(s.boxes, m.dst).value, m);
      }
    case Pop(timeoutMs) =>
      var i := FirstNonEmpty(s.boxes, 0);
      if i.Some? { TakeKeepsInv(s, i.value); }
    case PopFor(dst, timeoutMs) =>
      var i := FirstWith(s.boxes, dst);
      if i.Some? && s.boxes[i.value].queue != [] { TakeKeepsInv(s, i.value); }
    case Wakeup =>
      forall j | 0 <= j < |s.boxes| ensures BoxOk(Next(s, step), j) { assert BoxOk(s, j); }
  }

  /** Over any run of unicasts, broadcasts, pops of both kinds and wake-ups from an empty bus, each inbox is a
      FIFO: the messages stored in it are, in order, those taken from it followed by those in it; it never
      exceeds its capacity, and holds only broadcasts and messages for which it is the first with their
      address. */
  lemma {:induction false} RunKeepsInv(s: Bus, steps: seq<Step>)
    requires Inv(s)
    ensures Inv(Exec(s, steps)) && SameAddrs(s.boxes, Exec(s, steps).boxes)
    decreases |steps|
  {
    if steps != [] {
      StepKeepsInv(s, steps[0]);
      RunKeepsInv(Next(s, steps[0]), steps[1..]);
    }
  }

  /** The wake flag is never cleared: after a wake-up nothing is delivered any more. */
  lemma {:induction false} NothingDeliveredAfterWakeup(s: Bus, steps: seq<Step>, i: nat)
    ensures var t := Exec(Next(s, Wakeup), steps); t.wake && TakenFrom(t.log, i) == TakenFrom(s.log, i)
  {
    StaysWoken(Next(s, Wakeup), steps, i);
  }

  lemma {:induction false} StaysWoken(s: Bus, steps: seq<Step>, i: nat)
    requires s.wake
    ensures Exec(s, steps).wake && TakenFrom(Exec(s, steps).log, i) == TakenFrom(s.log, i)
    decreases |steps|
  {
    if steps != [] {
      var t := Next(s, steps[0]);
      if steps[0].Push? { PushTakesNothing(s, steps[0].msg, i); }
      StaysWoken(t, steps[1..], i);
    }
  }

  lemma PushTakesNothing(s: Bus, m: Msg, i: nat)
    ensures TakenFrom(AfterPush(s, m).0.log, i) == TakenFrom(s.log, i) && AfterPush(s, m).0.wake == s.wake
  {
    if m.dst == BROADCAST {
      StoreUpToTakesNothing(s, m, |s.boxes|, i);
      StoreKeepsWake(s, m, |s.boxes|);
    } else if FirstWith(s.boxes, m.dst).Some? {
      LogGrows(s.log, Stored(FirstWith(s.boxes, m.dst).value, m), i);
    }
  }

  lemma {:induction false} StoreUpToTakesNothing(s: Bus, m: Msg, k: nat, i: nat)
    requires k <= |s.boxes|
    ensures TakenFrom(StoreUpTo(s, m, k).log, i) == TakenFrom(s.log, i)
  {
    if k > 0 {
      StoreUpToTakesNothing(s, m, k - 1, i);
      LogGrows(StoreUpTo(s, m, k - 1).log, Stored(k - 1, m), i);
    }
  }

  // ---- an inbox ----------------------------------------------------------------------------------

  class Inbox {
    const addr: nat
    const q: array<Msg>
    var r: nat
    var w: nat
    var n: nat
    ghost var stored: seq<Msg>
    ghost var taken: nat

    ghost predicate Valid()
      reads this, q
    {
      && q.Length > 0
      && taken <= |stored| <= taken + q.Length
      && n == |stored| - taken
      && r == taken % q.Length && w == |stored| % q.Length
      && forall k :: taken <= k < |stored| ==> q[k % q.Length] == stored[k]
    }

    ghost function View(): Box
      requires taken <= |stored|
      reads this
    {
      Box(addr, q.Length, stored[taken..])
    }

    constructor (addr: nat, cap: nat, blank: Msg)
      requires cap > 0
      ensures Valid() && fresh(q) && View() == Box(addr, cap, [])
    {
      this.addr := addr;
      q := new Msg[cap](_ => blank);
      r, w, n := 0, 0, 0;
      stored, taken := [], 0;
    }

    method TryPush(m: Msg) returns (rc: int)
      requires Valid()
      modifies this, q
      ensures Valid()
      ensures rc == (if HasRoom(old(View())) then 0 else -1)
      ensures View() == if rc == 0 then old(View()).(queue := old(View()).queue + [m]) else old(View())
    {
      if n >= q.Length { return -1; }
      forall k | taken <= k < |stored| ensures k % q.Length != w { DistinctCells(k, |stored|, q.Length); }
      q[w] := m;
      Advance(|stored|, q.Length);
      w := (w + 1) % q.Length;
      n := n + 1;
      stored := stored + [m];
      rc := 0;
    }

    method TryPop() returns (m: Option<Msg>)
      requires Valid()
      modifies this
      ensures Valid()
      ensures m == if old(View()).queue == [] then None else Some(old(View()).queue[0])
      ensures View() == if m.None? then old(View()) else old(View()).(queue := old(View()).queue[1..])
    {
      if n == 0 { return None; }
      m := Some(q[r]);
      Advance(taken, q.Length);
      r := (r + 1) % q.Length;
      n := n - 1;
      taken := taken + 1;
    }
  }

  // ---- the bus -----------------------------------------------------------------------------------

  class MgrBus {
    const inboxes: seq<Inbox>
    var wake: bool
    ghost var boxes: seq<Box>
    ghost var log: seq<Event>

    ghost function View(): Bus
      reads this
    {
      Bus(boxes, wake, log)
    }

    ghost predicate BoxValid(i: nat)
      requires i < |inboxes| && |boxes| == |inboxes|
      reads this, inboxes[i], inboxes[i].q
    {
      inboxes[i].Valid() && boxes[i] == inboxes[i].View()
    }

    ghost predicate Apart() {
      forall i, j :: 0 <= i < j < |inboxes| ==> inboxes[i] != inboxes[j] && inboxes[i].q != inboxes[j].q
    }

    ghost predicate Valid()
      reads this, inboxes, set i | 0 <= i < |inboxes| :: inboxes[i].q
    {
      Apart() && |boxes| == |inboxes| && forall i :: 0 <= i < |inboxes| ==> BoxValid(i)
    }

    constructor (addrs: seq<nat>, qcap: nat, blank: Msg)
      ensures Valid() && fresh(inboxes) && forall i :: 0 <= i < |inboxes| ==> fresh(inboxes[i].q)
      ensures Inv(View()) && !wake && log == [] && |boxes| == |addrs|
      ensures forall i :: 0 <= i < |addrs| ==>
                boxes[i] == Box(addrs[i], if qcap == 0 then DEFAULT_QCAP else qcap, [])
    {
      var cap := if qcap == 0 then DEFAULT_QCAP else qcap;
      var made: seq<Inbox> := [];
      ghost var views: seq<Box> := [];
      for i := 0 to |addrs|
        invariant |made| == |views| == i
        invariant forall j :: 0 <= j < i ==> fresh(made[j]) && fresh(made[j].q) && made[j].Valid()
        invariant forall j :: 0 <= j < i ==> made[j].View() == views[j] == Box(addrs[j], cap, [])
        invariant forall j, k :: 0 <= j < k < i ==> made[j] != made[k] && made[j].q != made[k].q
      {
        var ib := new Inbox(addrs[i], cap, blank);
        made := made + [ib];
        views := views + [ib.View()];
      }
      inboxes := made;
      wake := false;
      boxes, log := views, [];
      new;
      forall i | 0 <= i < |inboxes| ensures BoxValid(i) {
        assert inboxes[i] == made[i];
      }
    }

    method FindIndex(dst: nat) returns (idx: int)
      requires Valid()
      ensures idx == match FirstWith(boxes, dst) case None => -1 case Some(i) => i
    {
      var i := 0;
      while i < |inboxes|
        invariant i <= |inboxes| && FirstWith(boxes, dst) == FirstFrom(boxes, dst, i)
      {
        assert BoxValid(i);
        if inboxes[i].addr == dst { return i; }
        i := i + 1;
      }
      idx := -1;
    }

    /** Stores in one inbox if it has room. */
    method StoreIn(i: nat, m: Msg) returns (rc: int)
      requires Valid() && i < |inboxes|
      modifies this`boxes, this`log, inboxes[i], inboxes[i].q
      ensures Valid() && View() == Store(old(View()), i, m)
      ensures rc == if HasRoom(old(boxes)[i]) then 0 else -1
    {
      assert BoxValid(i);
      forall j | 0 <= j < |inboxes| ensures BoxValid(j) {}
      rc := inboxes[i].TryPush(m);
      if rc == 0 {
        boxes := boxes[i := boxes[i].(queue := boxes[i].queue + [m])];
        log := log + [Stored(i, m)];
      }
      forall j | 0 <= j < |inboxes| ensures BoxValid(j) {
        assert old(BoxValid(j));
      }
    }

    method TakeFrom(i: nat) returns (m: Msg)
      requires Valid() && i < |inboxes| && boxes[i].queue != []
      modifies this`boxes, this`log, inboxes[i]
      ensures Valid() && View() == Take(old(View()), i) && m == old(boxes)[i].queue[0]
    {
      assert BoxValid(i);
      var out := inboxes[i].TryPop();
      m := out.value;
      boxes := boxes[i := boxes[i].(queue := boxes[i].queue[1..])];
      log := log + [Taken(i, m)];
      forall j | 0 <= j < |inboxes| ensures BoxValid(j) {
        assert old(BoxValid(j));
      }
    }

    method Broadcast(m: Msg) returns (rc: int)
      requires Valid() && m.dst == BROADCAST
      modifies this`boxes, this`log, inboxes, set i | 0 <= i < |inboxes| :: inboxes[i].q
      ensures Valid() && (View(), rc) == AfterPush(old(View()), m)
    {
      var anyOk, anyDrop := false, false;
      ghost var was := View();
      for i := 0 to |inboxes|
        invariant Valid() && View() == StoreUpTo(was, m, i)
        invariant anyDrop <==> exists j :: 0 <= j < i && !HasRoom(was.boxes[j])
        invariant anyOk || anyDrop <==> i > 0
      {
        StoredUpTo(was, m, i);
        var prc := StoreIn(i, m);
        if prc == 0 { anyOk := true; } else { anyDrop := true; }
      }
      rc := if !anyOk then -1 else if anyDrop then -1 else 0;
    }

    method TryPush(m: Msg) returns (rc: int)
      requires Valid()
      modifies this`boxes, this`log, inboxes, set i | 0 <= i < |inboxes| :: inboxes[i].q
      ensures Valid() && (View(), rc) == AfterPush(old(View()), m)
      ensures old(Inv(View())) ==> Inv(View())
    {
      hide Inv;
      if Inv(View()) { StepKeepsInv(View(), Push(m)); }
      if m.dst == BROADCAST {
        rc := Broadcast(m);
      } else {
        var idx := FindIndex(m.dst);
        if idx < 0 { return -1; }
        rc := StoreIn(idx, m);
      }
    }

    /** One round of a pop from any inbox. */
    method PopRound(timeoutMs: int) returns (rc: PopRc)
      requires Valid()
      modifies this`boxes, this`log, inboxes
      ensures Valid() && (View(), rc) == AfterPop(old(View()), timeoutMs)
      ensures old(Inv(View())) ==> Inv(View())
    {
      hide Inv;
      if Inv(View()) { StepKeepsInv(View(), Pop(timeoutMs)); }
      if wake { return Failed; }
      var i := 0;
      while i < |inboxes| && inboxes[i].n == 0
        invariant i <= |inboxes| && FirstNonEmpty(boxes, 0) == FirstNonEmpty(boxes, i)
      {
        assert BoxValid(i);
        i := i + 1;
      }
      if i == |inboxes| { return if timeoutMs == 0 then Empty else Wait; }
      assert BoxValid(i);
      var m := TakeFrom(i);
      rc := Got(m);
    }

    /** One round of a pop for an address. */
    method PopForRound(dst: nat, timeoutMs: int) returns (rc: PopRc)
      requires Valid()
      modifies this`boxes, this`log, inboxes
      ensures Valid() && (View(), rc) == AfterPopFor(old(View()), dst, timeoutMs)
      ensures old(Inv(View())) ==> Inv(View())
    {
      hide Inv;
      if Inv(View()) { StepKeepsInv(View(), PopFor(dst, timeoutMs)); }
      var idx := FindIndex(dst);
      if idx < 0 { return Failed; }
      assert BoxValid(idx);
      if wake { return Failed; }
      if inboxes[idx].n == 0 { return if timeoutMs == 0 then Empty else Wait; }
      var m := TakeFrom(idx);
      rc := Got(m);
    }

    method WakeUp()
      requires Valid()
      modifies this`wake
      ensures Valid() && View() == old(View()).(wake := true)
    {
      wake := true;
      forall i | 0 <= i < |inboxes| ensures BoxValid(i) {
        assert old(BoxValid(i));
      }
    }
  }
}

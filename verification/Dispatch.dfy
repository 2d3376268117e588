/** The event dispatcher: a bounded ring of epoch-stamped nodes, a cancelled-request table and a
    defer/wake latch. Every method of the class is one region the source runs under its mutex; the
    functions say what each region does to the dispatcher's abstract state. */
module Dispatch {
  import opened Common
  import opened Modular
  import CT = CancelTable

  const UINT32_MAX: nat := 0xFFFF_FFFF
  const UINT64_MAX: nat := 0xFFFF_FFFF_FFFF_FFFF

  const DECIDE_CONSUME := 0
  const DECIDE_DROP := 1
  const DECIDE_DEFER := 2

  datatype Event = Event(ev: int, reqId: nat, a: int, b: int)

  datatype Node = Node(evt: Event, epoch: nat)

  datatype Rc = Ok | DropEpoch | DropReq | DropPolicy | Defer | CtrlCancelAll | CtrlCancelReq

  datatype PushRc = Pushed | Dropped | Blocked

  /** What the peeking region of a pop hands to its committing region. */
  datatype Peek = Peek(node: Node, idx: nat, active: nat, mismatch: bool, cancelled: bool)

  /** The condition waits of `dispatch_wait`; the argument is the slice in milliseconds (0: no limit). */
  datatype Sleep = OnEmpty(ms: nat) | Forever | Timed(ms: nat)

  datatype WaitOut = Return(r: nat) | Asleep(how: Sleep) | Again

  datatype Cfg = Cfg(cap: nat, dropOnFull: bool, evCancel: int, evCancelReq: int,
                     policy: CT.Policy, hash: nat -> nat)

  /** Node number `i` of the run is `accepted[i]`. Nodes `taken..` are in the ring, in order;
      the others have left it. */
  datatype Core = Core(accepted: seq<Node>, taken: nat, epoch: nat,
                       deferActive: bool, deferUntil: nat, wakeSeq: nat, deferSeq: nat,
                       tab: seq<CT.Slot>)

  predicate CoreOk(c: Core, cfg: Cfg) {
    cfg.cap >= 2 && c.taken <= |c.accepted| < c.taken + cfg.cap && |c.tab| > 0
  }

  function Queue(c: Core): seq<Node>
    requires c.taken <= |c.accepted|
  {
    c.accepted[c.taken..]
  }

  function AfterPush(c: Core, cfg: Cfg, evt: Event): (r: (Core, PushRc))
    requires CoreOk(c, cfg)
    ensures CoreOk(r.0, cfg)
  {
    if |c.accepted| - c.taken == cfg.cap - 1
    then (c, if cfg.dropOnFull then Dropped else Blocked)
    else (c.(accepted := c.accepted + [Node(evt, c.epoch)]), Pushed)
  }

  function PeekOf(c: Core, cfg: Cfg): (r: Option<Peek>)
    requires CoreOk(c, cfg)
  {
    if c.taken == |c.accepted| then None
    else
      var n := c.accepted[c.taken];
      Some(Peek(n, c.taken % cfg.cap, c.epoch, n.epoch != c.epoch,
                CT.Reported(c.tab, cfg.hash, n.evt.reqId, c.epoch)))
  }

  /** The committing region: clear the defer flag and drop the head if it still sits at `idx`. */
  function AfterCommit(c: Core, cfg: Cfg, idx: nat): (r: Core)
    requires CoreOk(c, cfg)
    ensures CoreOk(r, cfg)
  {
    var d := c.(deferActive := false, deferUntil := 0);
    if c.taken < |c.accepted| && c.taken % cfg.cap == idx then d.(taken := c.taken + 1) else d
  }

  function AfterDefer(c: Core, waitMs: nat, now: nat): Core {
    c.(deferActive := true, deferSeq := c.wakeSeq, deferUntil := if waitMs == 0 then 0 else now + waitMs)
  }

  /** The result of a pop that peeked `p` and whose policy decided `dec`. */
  function Verdict(cfg: Cfg, p: Peek, dec: int): Rc {
    if p.mismatch then DropEpoch
    else if p.cancelled then DropReq
    else if p.node.evt.ev == cfg.evCancel then CtrlCancelAll
    else if p.node.evt.ev == cfg.evCancelReq then CtrlCancelReq
    else if dec == DECIDE_DEFER then Defer
    else if dec == DECIDE_CONSUME then Ok
    else DropPolicy
  }

  function AfterFinish(c: Core, cfg: Cfg, p: Peek, dec: int, waitMs: nat, now: nat): (r: Core)
    requires CoreOk(c, cfg)
    ensures CoreOk(r, cfg)
  {
    if Verdict(cfg, p, dec) == Defer then AfterDefer(c, waitMs, now) else AfterCommit(c, cfg, p.idx)
  }

  function AfterCancelReq(c: Core, cfg: Cfg, id: nat): (r: Core)
    requires CoreOk(c, cfg)
    ensures CoreOk(r, cfg)
  {
    if id == 0 then c else c.(tab := CT.Inserted(c.tab, cfg.hash, cfg.policy, id, c.epoch))
  }

  function AfterCancelAll(c: Core, cfg: Cfg, flush: bool): (r: Core)
    requires CoreOk(c, cfg)
    ensures CoreOk(r, cfg)
  {
    if flush then c.(epoch := c.epoch + 1, taken := |c.accepted|, deferActive := false, deferUntil := 0)
    else c.(epoch := c.epoch + 1)
  }

  function AfterWakeup(c: Core): Core {
    c.(wakeSeq := c.wakeSeq + 1)
  }

  // ---- waiting -----------------------------------------------------------------------------

  function Undeferred(c: Core): Core {
    c.(deferActive := false, deferUntil := 0, deferSeq := c.wakeSeq)
  }

  function Deadline(start: nat, timeout: nat): nat {
    if timeout == 0 then 0 else if UINT64_MAX - start < timeout then UINT64_MAX else start + timeout
  }

  function Slice(wms: nat, rem: nat): nat {
    var w := if wms == 0 || wms > rem then (if rem > UINT32_MAX then UINT32_MAX else rem) else wms;
    if w == 0 then 1 else w
  }

  /** From the top of the waiting loop to its next return or condition wait. */
  function WaitTop(c: Core, timeout: nat, deadline: nat, now1: nat, now2: nat): (r: (Core, WaitOut))
    requires c.taken <= |c.accepted|
    ensures !r.1.Again?
  {
    var remaining := if timeout != 0 && now1 < deadline then (deadline - now1) % (UINT32_MAX + 1) else 0;
    if timeout != 0 && remaining == 0 then (c, Return(0))
    else if c.taken == |c.accepted| then (c, Asleep(OnEmpty(remaining)))
    else if !c.deferActive then (c, Return(1))
    else if c.deferUntil != 0 then
      if now2 >= c.deferUntil then (Undeferred(c), Return(1))
      else (c, Asleep(Timed(Slice(remaining, c.deferUntil - now2))))
    else if remaining == 0 then
      if c.wakeSeq != c.deferSeq then (Undeferred(c), Return(1)) else (c, Asleep(Forever))
    else (c, Asleep(Timed(remaining)))
  }

  /** What the loop does on coming back from a condition wait, before its next round. */
  function WaitWake(c: Core, timeout: nat, how: Sleep, timedOut: bool): (Core, WaitOut) {
    match how
    case OnEmpty(_) => if timeout != 0 && timedOut then (c, Return(0)) else (c, Again)
    case Forever => if c.wakeSeq != c.deferSeq then (Undeferred(c), Return(1)) else (c, Again)
    case Timed(_) =>
      if timedOut then (if timeout != 0 && c.deferUntil == 0 then (c, Return(0)) else (c, Again))
      else if c.deferUntil == 0 && c.wakeSeq != c.deferSeq then (Undeferred(c), Return(1))
      else (c, Again)
  }

  // ---- the dispatcher object -----------------------------------------------------------------

  class Dispatcher {
    const q: array<Node>
    const cap: nat
    const dropOnFull: bool
    const evCancel: int
    const evCancelReq: int
    const policy: CT.Policy
    const hash: nat -> nat
    const cancelTab: array<CT.Slot>
    var head: nat
    var tail: nat
    var deferActive: bool
    var deferUntil: nat
    var wakeSeq: nat
    var deferSeq: nat
    var activeEpoch: nat
    ghost var accepted: seq<Node>
    ghost var taken: nat

    ghost function Config(): Cfg {
      Cfg(cap, dropOnFull, evCancel, evCancelReq, policy, hash)
    }

    ghost function View(): Core
      reads this, cancelTab
    {
      Core(accepted, taken, activeEpoch, deferActive, deferUntil, wakeSeq, deferSeq, cancelTab[..])
    }

    /** The ring holds exactly the accepted nodes that have not left it. */
    ghost predicate Valid()
      reads this, q, cancelTab
    {
      && CoreOk(View(), Config())
      && q.Length == cap
      && head == taken % cap
      && tail == |accepted| % cap
      && forall i :: taken <= i < |accepted| ==> q[i % cap] == accepted[i]
    }

    constructor (qcap: nat, dropOnFull: bool, evCancel: int, evCancelReq: int, policy: CT.Policy,
                 tabCap: nat, hash: nat -> nat, blank: Node)
      requires qcap >= 2
      ensures Valid() && fresh(q) && fresh(cancelTab)
      ensures Config() == Cfg(qcap, dropOnFull, evCancel, evCancelReq, policy, hash)
      ensures cancelTab.Length == if tabCap == 0 then 128 else tabCap
      ensures View() == Core([], 0, 1, false, 0, 1, 1, seq(cancelTab.Length, i => CT.EMPTY))
    {
      cap := qcap;
      q := new Node[qcap](i => blank);
      this.dropOnFull, this.evCancel, this.evCancelReq := dropOnFull, evCancel, evCancelReq;
      this.policy, this.hash := policy, hash;
      cancelTab := new CT.Slot[if tabCap == 0 then 128 else tabCap](i => CT.EMPTY);
      head, tail := 0, 0;
      deferActive, deferUntil, wakeSeq, deferSeq, activeEpoch := false, 0, 1, 1, 1;
      accepted, taken := [], 0;
      new;
      assert cancelTab[..] == seq(cancelTab.Length, i => CT.EMPTY);
    }

    method Used() returns (n: nat)
      requires Valid()
      ensures n == |Queue(View())|
    {
      RingDistance(taken, |accepted|, cap);
      n := if tail >= head then tail - head else cap - (head - tail);
    }

    method IsFull() returns (full: bool)
      requires Valid()
      ensures full <==> |Queue(View())| == cap - 1
    {
      var next := tail + 1;
      if next >= cap { next := 0; }
      NextCell(|accepted|, cap);
      if |accepted| + 1 < taken + cap {
        DistinctCells(taken, |accepted| + 1, cap);
      } else {
        Shifted(taken, cap);
      }
      full := next == head;
    }

    static lemma Shifted(i: nat, cap: nat)
      requires cap > 0
      ensures (i + cap) % cap == i % cap
    {
      var k := (i + cap) / cap - i / cap - 1;
      assert k * cap == i % cap - (i + cap) % cap;
      Multiples(k, cap);
    }

    method Push(evt: Event) returns (rc: PushRc)
      requires Valid()
      modifies this`tail, this`accepted, q
      ensures Valid()
      ensures (View(), rc) == AfterPush(old(View()), Config(), evt)
    {
      var full := IsFull();
      if full {
        return if dropOnFull then Dropped else Blocked;
      }
      var node := Node(evt, activeEpoch);
      forall i | taken <= i < |accepted| ensures i % cap != tail {
        DistinctCells(i, |accepted|, cap);
      }
      q[tail] := node;
      NextCell(|accepted|, cap);
      tail := tail + 1;
      if tail >= cap { tail := 0; }
      accepted := accepted + [node];
      return Pushed;
    }

    /** The peeking region of a pop. */
    method PopBegin() returns (p: Option<Peek>)
      requires Valid()
      ensures p == PeekOf(View(), Config())
    {
      if taken < |accepted| { DistinctCells(taken, |accepted|, cap); }
      if head == tail { return None; }
      var node := q[head];
      var cancelled := CT.IsCancelled(cancelTab, hash, node.evt.reqId, activeEpoch);
      return Some(Peek(node, head, activeEpoch, node.epoch != activeEpoch, cancelled));
    }

    /** The committing region shared by every pop result except DEFER. */
    method Commit(idx: nat)
      requires Valid()
      modifies this`head, this`deferActive, this`deferUntil, this`taken
      ensures Valid()
      ensures View() == AfterCommit(old(View()), Config(), idx)
    {
      deferActive, deferUntil := false, 0;
      if taken < |accepted| { DistinctCells(taken, |accepted|, cap); }
      if head == tail { return; }
      if head != idx { return; }
      NextCell(taken, cap);
      head := head + 1;
      if head >= cap { head := 0; }
      taken := taken + 1;
    }

    /** Everything a pop does after its peeking region. */
    method PopEnd(p: Peek, dec: int, waitMs: nat, now: nat) returns (rc: Rc)
      requires Valid()
      modifies this`head, this`deferActive, this`deferUntil, this`deferSeq, this`taken
      ensures Valid()
      ensures View() == AfterFinish(old(View()), Config(), p, dec, waitMs, now)
      ensures rc == Verdict(Config(), p, dec)
    {
      if p.mismatch {
        Commit(p.idx);
        return DropEpoch;
      }
      if p.cancelled {
        Commit(p.idx);
        return DropReq;
      }
      if p.node.evt.ev == evCancel {
        Commit(p.idx);
        return CtrlCancelAll;
      }
      if p.node.evt.ev == evCancelReq {
        Commit(p.idx);
        return CtrlCancelReq;
      }
      if dec != DECIDE_CONSUME && dec != DECIDE_DROP && dec != DECIDE_DEFER {
        Commit(p.idx);
        return DropPolicy;
      }
      if dec == DECIDE_DEFER {
        deferActive := true;
        deferSeq := wakeSeq;
        if waitMs == 0 { deferUntil := 0; } else { deferUntil := now + waitMs; }
        return Defer;
      }
      Commit(p.idx);
      return if dec == DECIDE_DROP then DropPolicy else Ok;
    }

    method CancelReq(id: nat)
      requires Valid()
      modifies cancelTab
      ensures Valid()
      ensures View() == AfterCancelReq(old(View()), Config(), id)
    {
      if id == 0 { return; }
      var _ := CT.Insert(cancelTab, hash, policy, id, activeEpoch);
    }

    method CancelAll(flush: bool)
      requires Valid()
      modifies this`activeEpoch, this`head, this`deferActive, this`deferUntil, this`taken
      ensures Valid()
      ensures View() == AfterCancelAll(old(View()), Config(), flush)
    {
      activeEpoch := activeEpoch + 1;
      if flush {
        head := tail;
        deferActive, deferUntil := false, 0;
        taken := |accepted|;
      }
    }

    method Wakeup()
      requires Valid()
      modifies this`wakeSeq
      ensures Valid()
      ensures View() == AfterWakeup(old(View()))
    {
      wakeSeq := wakeSeq + 1;
    }

    method ClearDefer()
      requires Valid()
      modifies this`deferActive, this`deferUntil, this`deferSeq
      ensures Valid()
      ensures View() == Undeferred(old(View()))
    {
      deferActive, deferUntil, deferSeq := false, 0, wakeSeq;
    }

    method WaitRound(timeout: nat, deadline: nat, now1: nat, now2: nat) returns (out: WaitOut)
      requires Valid()
      modifies this`deferActive, this`deferUntil, this`deferSeq
      ensures Valid()
      ensures (View(), out) == WaitTop(old(View()), timeout, deadline, now1, now2)
    {
      var remaining := 0;
      if timeout != 0 {
        if now1 >= deadline { return Return(0); }
        remaining := (deadline - now1) % (UINT32_MAX + 1);
        if remaining == 0 { return Return(0); }
      }
      if taken < |accepted| { DistinctCells(taken, |accepted|, cap); }
      if head == tail { return Asleep(OnEmpty(remaining)); }
      if deferActive {
        var wms := if timeout == 0 then 0 else remaining;
        if deferUntil != 0 {
          if now2 >= deferUntil {
            ClearDefer();
            return Return(1);
          }
          var rem := deferUntil - now2;
          if wms == 0 || wms > rem {
            if rem > UINT32_MAX { wms := UINT32_MAX; } else { wms := rem; }
          }
        } else if wms == 0 {
          if wakeSeq != deferSeq {
            ClearDefer();
            return Return(1);
          }
          return Asleep(Forever);
        }
        if wms == 0 { wms := 1; }
        return Asleep(Timed(wms));
      }
      return Return(1);
    }

    method WaitResume(timeout: nat, how: Sleep, timedOut: bool) returns (out: WaitOut)
      requires Valid()
      modifies this`deferActive, this`deferUntil, this`deferSeq
      ensures Valid()
      ensures (View(), out) == WaitWake(old(View()), timeout, how, timedOut)
    {
      match how
      case OnEmpty(_) =>
        return if timeout != 0 && timedOut then Return(0) else Again;
      case Forever =>
        if wakeSeq != deferSeq {
          ClearDefer();
          return Return(1);
        }
        return Again;
      case Timed(_) =>
        if timedOut {
          return if timeout != 0 && deferUntil == 0 then Return(0) else Again;
        }
        if deferUntil == 0 && wakeSeq != deferSeq {
          ClearDefer();
          return Return(1);
        }
        return Again;
    }
  }
}

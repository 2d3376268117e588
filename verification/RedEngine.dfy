/** The redundancy engine: the policy behind requests, peer reports, operator holds and periodic evaluation. */
module RedEngine {
  import opened RedPolicy

  datatype Kind = NoInput | EvalReq | PeerOk | PeerErr | Timeout | OperatorHold | OperatorRelease | TickEval

  datatype Input = Input(kind: Kind, reqId: nat, arg0: int)

  datatype Action = NoAction | KeepOn | ProposeFailover | ProposeRecover | ProposeHold

  datatype Output = Output(action: Action, reqId: nat, value: Decision)

  datatype Core = Core(history: seq<Feed>, peerOks: nat, peerErrs: nat, timeouts: nat, hold: bool,
                       lastProposed: Decision)

  const CFG := Config(3, 2)

  const INITIAL := Core([], 0, 0, 0, false, Undecided)

  function Verdict(c: Core): Decision {
    Decide(CFG, ErrScore(c.history), OkScore(c.history))
  }

  function Proposal(d: Decision): Action {
    match d
    case Failover => ProposeFailover
    case Recover => ProposeRecover
    case Keep => KeepOn
    case Undecided => NoAction
  }

  function Fed(c: Core, f: Feed): Core {
    c.(history := c.history + [f])
  }

  function Evaluated(c: Core, ok: bool): Core {
    if ok then Fed(c, Ok).(peerOks := c.peerOks + 1) else Fed(c, Err).(peerErrs := c.peerErrs + 1)
  }

  /** A tick proposes a decision only if it differs from the last one proposed; a hold is proposed once. */
  function AfterTick(c: Core): (Core, Action, Decision) {
    if c.hold then
      if c.lastProposed == Keep then (c, KeepOn, Keep) else (c.(lastProposed := Keep), ProposeHold, Keep)
    else if Verdict(c) == c.lastProposed then (c, KeepOn, Verdict(c))
    else (c.(lastProposed := Verdict(c)), Proposal(Verdict(c)), Verdict(c))
  }

  function After(c: Core, input: Input): (Core, Action, Decision) {
    match input.kind
    case NoInput => (c, NoAction, Undecided)
    case EvalReq =>
      var d := Evaluated(c, input.arg0 >= 0);
      (d, Proposal(Verdict(d)), Verdict(d))
    case PeerOk => (Evaluated(c, true).(lastProposed := Keep), KeepOn, Keep)
    case PeerErr => (Evaluated(c, false), KeepOn, Keep)
    case Timeout => (Fed(c, Err).(timeouts := c.timeouts + 1), KeepOn, Keep)
    case OperatorHold => (c.(hold := true), ProposeHold, Keep)
    case OperatorRelease => (c.(hold := false, lastProposed := Keep), KeepOn, Keep)
    case TickEval => AfterTick(c)
  }

  /** The state before input number `n`. */
  function Before(inputs: seq<Input>, n: nat): Core
    requires n <= |inputs|
  {
    if n == 0 then INITIAL else After(Before(inputs, n - 1), inputs[n - 1]).0
  }

  function ActionAt(inputs: seq<Input>, n: nat): Action
    requires n < |inputs|
  {
    After(Before(inputs, n), inputs[n]).1
  }

  function ValueAt(inputs: seq<Input>, n: nat): Decision
    requires n < |inputs|
  {
    After(Before(inputs, n), inputs[n]).2
  }

  // ---- runs --------------------------------------------------------------------------------------

  function FeedOf(x: Input): seq<Feed> {
    match x.kind
    case EvalReq => [if x.arg0 >= 0 then Ok else Err]
    case PeerOk => [Ok]
    case PeerErr => [Err]
    case Timeout => [Err]
    case _ => []
  }

  function Feeds(inputs: seq<Input>): seq<Feed> {
    if inputs == [] then [] else Feeds(inputs[..|inputs| - 1]) + FeedOf(inputs[|inputs| - 1])
  }

  /** On hold from an operator's hold to the next release. */
  predicate OnHold(inputs: seq<Input>) {
    inputs != []
    && match inputs[|inputs| - 1].kind
       case OperatorHold => true
       case OperatorRelease => false
       case _ => OnHold(inputs[..|inputs| - 1])
  }

  /** The decision that a history of inputs calls for. */
  ghost function Judged(inputs: seq<Input>): Decision {
    if SomeSuffixReaches(Feeds(inputs), 3) then Failover
    else if EndsWithOks(Feeds(inputs), 2) then Recover
    else Keep
  }

  /** What was decided last, as far as ticks remember: a peer's ok and a release reset it. */
  ghost function LastOffer(inputs: seq<Input>): Decision {
    if inputs == [] then Undecided
    else
      var front := inputs[..|inputs| - 1];
      match inputs[|inputs| - 1].kind
      case PeerOk => Keep
      case OperatorRelease => Keep
      case TickEval => if OnHold(front) then Keep else Judged(front)
      case _ => LastOffer(front)
  }

  function Number(inputs: seq<Input>, counts: Input -> bool): nat {
    if inputs == [] then 0
    else Number(inputs[..|inputs| - 1], counts) + if counts(inputs[|inputs| - 1]) then 1 else 0
  }

  lemma {:induction false} PrefixState(inputs: seq<Input>, more: seq<Input>, n: nat)
    requires n <= |inputs|
    ensures Before(inputs + more, n) == Before(inputs, n)
  {
    if n > 0 { PrefixState(inputs, more, n - 1); }
  }

  lemma InputFeeds(c: Core, x: Input)
    ensures var d := After(c, x).0;
            && d.history == c.history + FeedOf(x)
            && d.hold == (x.kind == OperatorHold || (x.kind != OperatorRelease && c.hold))
            && d.peerOks == c.peerOks + (if IsOk(x) then 1 else 0)
            && d.peerErrs == c.peerErrs + (if IsErr(x) then 1 else 0)
            && d.timeouts == c.timeouts + (if x.kind == Timeout then 1 else 0)
  {
  }

  predicate IsOk(x: Input) {
    x.kind == PeerOk || (x.kind == EvalReq && x.arg0 >= 0)
  }

  predicate IsErr(x: Input) {
    x.kind == PeerErr || (x.kind == EvalReq && x.arg0 < 0)
  }

  /** What the engine goes by is the history of its inputs. */
  lemma {:induction false} StateIsHistory(inputs: seq<Input>)
    ensures var c := Before(inputs, |inputs|);
            && c.history == Feeds(inputs) && c.hold == OnHold(inputs)
            && c.peerOks == Number(inputs, IsOk) && c.peerErrs == Number(inputs, IsErr)
            && c.timeouts == Number(inputs, (x: Input) => x.kind == Timeout)
    decreases |inputs|
  {
    hide After, FeedOf;
    if inputs != [] {
      var front := inputs[..|inputs| - 1];
      StateIsHistory(front);
      assert inputs == front + inputs[|front|..];
      PrefixState(front, inputs[|front|..], |front|);
      InputFeeds(Before(front, |front|), inputs[|front|]);
    }
  }

  lemma VerdictIsJudged(c: Core, inputs: seq<Input>)
    requires c.history == Feeds(inputs)
    ensures Verdict(c) == Judged(inputs)
  {
    hide SomeSuffixReaches, EndsWithOks, ErrScore, OkScore, Feeds;
    DecisionMeans(CFG, Feeds(inputs));
  }

  /** What a tick goes by besides is the decision offered last. */
  lemma {:induction false} MemoryIsLastOffer(inputs: seq<Input>)
    ensures Before(inputs, |inputs|).lastProposed == LastOffer(inputs)
    decreases |inputs|
  {
    hide Verdict, Judged, OnHold, Feeds;
    if inputs != [] {
      var front := inputs[..|inputs| - 1];
      MemoryIsLastOffer(front);
      StateIsHistory(front);
      assert inputs == front + inputs[|front|..];
      PrefixState(front, inputs[|front|..], |front|);
      VerdictIsJudged(Before(front, |front|), front);
    }
  }

  /** The state before input `n`, in terms of the inputs before it. */
  lemma StateAt(inputs: seq<Input>, n: nat)
    requires n <= |inputs|
    ensures var c, front := Before(inputs, n), inputs[..n];
            c.history == Feeds(front) && c.hold == OnHold(front) && c.lastProposed == LastOffer(front)
  {
    var front := inputs[..n];
    assert inputs == front + inputs[n..];
    PrefixState(front, inputs[n..], n);
    StateIsHistory(front);
    MemoryIsLastOffer(front);
  }

  /** A tick on hold proposes the hold unless Keep was offered last; any other tick gives the decision that the
      inputs call for, and proposes it if it was not offered last. */
  lemma TickMeans(inputs: seq<Input>, n: nat)
    requires IsTick(inputs, n)
    ensures var front, a := inputs[..n], ActionAt(inputs, n);
            var held, d := OnHold(front), Judged(front);
            var again := LastOffer(front) == (if held then Keep else d);
            && (a == ProposeFailover <==> !held && d == Failover && !again)
            && (a == ProposeRecover <==> !held && d == Recover && !again)
            && (a == ProposeHold <==> held && !again)
            && (a == KeepOn <==> again || (!held && d == Keep))
            && ValueAt(inputs, n) == (if held then Keep else d)
  {
    hide Verdict, Judged, OnHold, Feeds, LastOffer;
    StateAt(inputs, n);
    VerdictIsJudged(Before(inputs, n), inputs[..n]);
  }

  /** A request counts as an ok or an error first, and gives the decision then called for, whatever was offered
      last and whether or not a hold is on. */
  lemma RequestMeans(inputs: seq<Input>, n: nat)
    requires n < |inputs| && inputs[n].kind == EvalReq
    ensures var a, d := ActionAt(inputs, n), Judged(inputs[..n + 1]);
            && (a == ProposeFailover <==> d == Failover)
            && (a == ProposeRecover <==> d == Recover)
            && (a == KeepOn <==> d == Keep)
            && ValueAt(inputs, n) == d
  {
    hide Verdict, Judged, OnHold, LastOffer;
    StateAt(inputs, n);
    assert inputs[..n + 1][..n] == inputs[..n];
    VerdictIsJudged(After(Before(inputs, n), inputs[n]).0, inputs[..n + 1]);
  }

  /** An operator's hold is proposed each time; reports, timeouts and releases are answered by Keep. */
  lemma ReportsMean(inputs: seq<Input>, n: nat)
    requires n < |inputs| && inputs[n].kind !in {EvalReq, TickEval}
    ensures ActionAt(inputs, n) == match inputs[n].kind
                                   case NoInput => NoAction
                                   case OperatorHold => ProposeHold
                                   case _ => KeepOn
    ensures ValueAt(inputs, n) == if inputs[n].kind == NoInput then Undecided else Keep
  {
  }

  predicate IsTick(inputs: seq<Input>, n: nat) {
    n < |inputs| && inputs[n].kind == TickEval
  }

  /** A tick proposes a failover exactly if no hold is on, some suffix of the feeds has at least three more errors
      than oks, and failover was not offered last. */
  lemma TickProposesFailover(inputs: seq<Input>, n: nat)
    requires IsTick(inputs, n)
    ensures ActionAt(inputs, n) == ProposeFailover
            <==> && !OnHold(inputs[..n]) && SomeSuffixReaches(Feeds(inputs[..n]), 3)
                 && LastOffer(inputs[..n]) != Failover
  {
    TickMeans(inputs, n);
  }

  /** It proposes a recovery exactly if no hold is on, no suffix has, the last two feeds are oks, and recovery was
      not offered last. */
  lemma TickProposesRecovery(inputs: seq<Input>, n: nat)
    requires IsTick(inputs, n)
    ensures ActionAt(inputs, n) == ProposeRecover
            <==> && !OnHold(inputs[..n]) && !SomeSuffixReaches(Feeds(inputs[..n]), 3)
                 && EndsWithOks(Feeds(inputs[..n]), 2) && LastOffer(inputs[..n]) != Recover
  {
    TickMeans(inputs, n);
  }

  /** So does a request with a non-negative argument after an ok, whatever was offered last. */
  lemma RequestProposesRecovery(inputs: seq<Input>, n: nat)
    requires n < |inputs| && inputs[n].kind == EvalReq && inputs[n].arg0 >= 0
    ensures var h := Feeds(inputs[..n]);
            ActionAt(inputs, n) == ProposeRecover
            <==> h != [] && h[|h| - 1] == Ok && !SomeSuffixReaches(h + [Ok], 3)
  {
    var h := Feeds(inputs[..n]);
    RequestMeans(inputs, n);
    assert inputs[..n + 1][..n] == inputs[..n];
    assert Feeds(inputs[..n + 1]) == h + [Ok];
    hide SomeSuffixReaches, EndsWithOks, Feeds;
    TwoOks(h);
  }

  lemma TwoOks(h: seq<Feed>)
    ensures EndsWithOks(h + [Ok], 2) <==> h != [] && h[|h| - 1] == Ok
  {
    var g := h + [Ok];
    if EndsWithOks(g, 2) { assert g[|g| - 2] == h[|h| - 1]; }
  }

  /** Inputs after which the last proposal is no failover: a peer's ok, a release, and a tick that is on hold or
      decides otherwise. */
  ghost predicate ResetsProposal(inputs: seq<Input>, k: nat) {
    && k < |inputs|
    && inputs[k].kind in {PeerOk, OperatorRelease, TickEval}
    && LastOffer(inputs[..k + 1]) != Failover
  }

  lemma OfferStays(inputs: seq<Input>, i: nat)
    requires i < |inputs| && LastOffer(inputs[..i]) == Failover && !ResetsProposal(inputs, i)
    ensures LastOffer(inputs[..i + 1]) == Failover
  {
    hide Judged, OnHold, Feeds;
    var front := inputs[..i + 1];
    assert front[..i] == inputs[..i] && front[i] == inputs[i];
  }

  lemma {:induction false} ProposalStays(inputs: seq<Input>, i: nat, j: nat)
    requires i <= j <= |inputs| && LastOffer(inputs[..i]) == Failover
    requires forall k :: i <= k < j ==> !ResetsProposal(inputs, k)
    ensures LastOffer(inputs[..j]) == Failover
    decreases j - i
  {
    hide LastOffer, ResetsProposal;
    if i < j {
      OfferStays(inputs, i);
      ProposalStays(inputs, i + 1, j);
    }
  }

  /** Ticks never propose a failover twice unless an input in between has reset the last proposal. */
  lemma NoRepeatedFailover(inputs: seq<Input>, i: nat, j: nat)
    requires i < j && IsTick(inputs, i) && IsTick(inputs, j)
    requires ActionAt(inputs, i) == ActionAt(inputs, j) == ProposeFailover
    ensures exists k :: i < k < j && ResetsProposal(inputs, k)
  {
    TickProposesFailover(inputs, i);
    TickProposesFailover(inputs, j);
    if forall k :: i < k < j ==> !ResetsProposal(inputs, k) {
      assert inputs[..i + 1][..i] == inputs[..i];
      assert LastOffer(inputs[..i + 1]) == Judged(inputs[..i]) == Failover;
      ProposalStays(inputs, i + 1, j);
    }
  }

  /** A request with a negative argument counts as an error and proposes a failover whatever was proposed last. */
  lemma {:induction false} RequestProposes(inputs: seq<Input>, x: Input, n: nat)
    requires x.kind == EvalReq && x.arg0 < 0 && n >= 2 && SomeSuffixReaches(Feeds(inputs), n)
    ensures ActionAt(inputs + [x], |inputs|) == ProposeFailover
    ensures SomeSuffixReaches(Feeds(inputs + [x]), n + 1)
  {
    var h := Feeds(inputs);
    assert (inputs + [x])[..|inputs|] == inputs;
    PrefixState(inputs, [x], |inputs|);
    StateIsHistory(inputs);
    AnotherError(h, n);
    DecisionMeans(CFG, h + [Err]);
    AtLeast(h + [Err], n + 1, 3);
    hide SomeSuffixReaches, Before;
  }

  lemma AtLeast(h: seq<Feed>, n: int, m: int)
    requires m <= n && SomeSuffixReaches(h, n)
    ensures SomeSuffixReaches(h, m)
  {
  }

  /** Evaluation on request has no such memory: it proposes a failover each time. */
  lemma {:induction false} RequestsRepeatFailover(inputs: seq<Input>, reqId: nat, arg0: int)
    requires arg0 < 0 && SomeSuffixReaches(Feeds(inputs), 2)
    ensures var x := Input(EvalReq, reqId, arg0);
            var more := inputs + [x, x];
            ActionAt(more, |inputs|) == ActionAt(more, |inputs| + 1) == ProposeFailover
  {
    hide SomeSuffixReaches, Before, After, Feeds;
    var x := Input(EvalReq, reqId, arg0);
    assert inputs + [x, x] == inputs + [x] + [x];
    RequestProposes(inputs, x, 2);
    RequestProposes(inputs + [x], x, 3);
    PrefixState(inputs + [x], [x], |inputs|);
  }

  lemma AnotherError(h: seq<Feed>, n: int)
    requires SomeSuffixReaches(h, n)
    ensures SomeSuffixReaches(h + [Err], n + 1)
  {
    var k :| 0 <= k <= |h| && Balance(h[k..]) >= n;
    var more := h + [Err];
    assert more[..|h|] == h;
    BalanceFrom(more, k);
    assert Balance(more[k..]) >= n + 1;
  }

  // ---- the engine --------------------------------------------------------------------------------

  class Engine {
    var peerOkCount: nat
    var peerErrCount: nat
    var timeoutCount: nat
    var holdFlag: bool
    const policy: Policy
    var lastProposed: Decision

    ghost function View(): Core
      reads this, policy
    {
      Core(policy.history, peerOkCount, peerErrCount, timeoutCount, holdFlag, lastProposed)
    }

    ghost predicate Valid()
      reads this, policy
    {
      policy.Valid() && policy.cfg == CFG
    }

    constructor ()
      ensures Valid() && fresh(policy) && View() == INITIAL
    {
      peerOkCount, peerErrCount, timeoutCount, holdFlag := 0, 0, 0, false;
      policy := new Policy(Config(3, 2));
      lastProposed := Undecided;
    }

    /** -1 for an input of no known kind, which changes nothing. */
    method Apply(input: Input) returns (rc: int, out: Output)
      requires Valid()
      modifies this, policy
      ensures Valid() && (View(), out.action, out.value) == After(old(View()), input)
      ensures out.reqId == input.reqId && rc == if input.kind == NoInput then -1 else 0
    {
      hide ErrScore, OkScore, AfterTick, SomeSuffixReaches, EndsWithOks;
      rc := 0;
      var action, value := NoAction, Undecided;
      match input.kind {
        case NoInput => rc := -1;
        case EvalReq =>
          if input.arg0 < 0 {
            policy.FeedError();
            peerErrCount := peerErrCount + 1;
          } else {
            policy.FeedOk();
            peerOkCount := peerOkCount + 1;
          }
          var dec := policy.Eval();
          match dec {
            case Failover => action := ProposeFailover;
            case Recover => action := ProposeRecover;
            case Keep => action := KeepOn;
            case Undecided => action := NoAction;
          }
          value := dec;
        case PeerOk =>
          policy.FeedOk();
          peerOkCount := peerOkCount + 1;
          action, value := KeepOn, Keep;
          lastProposed := Keep;
        case PeerErr =>
          policy.FeedError();
          peerErrCount := peerErrCount + 1;
          action, value := KeepOn, Keep;
        case Timeout =>
          timeoutCount := timeoutCount + 1;
          policy.FeedError();
          action, value := KeepOn, Keep;
        case OperatorHold =>
          holdFlag := true;
          action, value := ProposeHold, Keep;
        case OperatorRelease =>
          holdFlag := false;
          action, value := KeepOn, Keep;
          lastProposed := Keep;
        case TickEval =>
          action, value := Tick();
      }
      out := Output(action, input.reqId, value);
    }

    method Tick() returns (action: Action, value: Decision)
      requires Valid()
      modifies this`lastProposed
      ensures Valid() && (View(), action, value) == AfterTick(old(View()))
    {
      if holdFlag {
        if lastProposed == Keep { return KeepOn, Keep; }
        lastProposed := Keep;
        return ProposeHold, Keep;
      }
      var dec := policy.Eval();
      if dec == lastProposed { return KeepOn, dec; }
      match dec {
        case Failover =>
          action := ProposeFailover;
          lastProposed := dec;
        case Recover =>
          action := ProposeRecover;
          lastProposed := dec;
        case Keep =>
          action := KeepOn;
          lastProposed := dec;
        case Undecided =>
          action := NoAction;
      }
      value := dec;
    }
  }
}

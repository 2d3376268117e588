/** The redundancy policy: two counters fed with errors and oks, and the decision they stand for. */
module RedPolicy {

  const FAIL_THRESHOLD_DEFAULT := 3
  const RECOVER_THRESHOLD_DEFAULT := 2

  datatype Decision = Undecided | Keep | Failover | Recover

  datatype Feed = Err | Ok

  datatype Config = Config(failThreshold: nat, recoverThreshold: nat)

  // ---- the counters after a history --------------------------------------------------------------

  function ErrAfter(score: nat, f: Feed): nat {
    if f == Err then score + 1 else if score > 0 then score - 1 else 0
  }

  function OkAfter(score: nat, f: Feed): nat {
    if f == Err then 0 else score + 1
  }

  function ErrScore(h: seq<Feed>): nat {
    if h == [] then 0 else ErrAfter(ErrScore(h[..|h| - 1]), h[|h| - 1])
  }

  function OkScore(h: seq<Feed>): nat {
    if h == [] then 0 else OkAfter(OkScore(h[..|h| - 1]), h[|h| - 1])
  }

  function Decide(cfg: Config, errScore: nat, okScore: nat): Decision {
    if errScore >= cfg.failThreshold then Failover else if okScore >= cfg.recoverThreshold then Recover else Keep
  }

  // ---- what they mean ----------------------------------------------------------------------------

  /** Errors minus oks. */
  function Balance(h: seq<Feed>): int {
    if h == [] then 0 else Balance(h[..|h| - 1]) + if h[|h| - 1] == Err then 1 else -1
  }

  lemma BalanceFrom(h: seq<Feed>, k: nat)
    requires k < |h|
    ensures Balance(h[k..]) == Balance(h[..|h| - 1][k..]) + if h[|h| - 1] == Err then 1 else -1
  {
    assert h[k..][..|h| - k - 1] == h[..|h| - 1][k..];
  }

  lemma {:induction false} ErrScoreBounds(h: seq<Feed>, k: nat)
    requires k <= |h|
    ensures Balance(h[k..]) <= ErrScore(h)
    decreases |h|
  {
    if k < |h| {
      BalanceFrom(h, k);
      ErrScoreBounds(h[..|h| - 1], k);
    }
  }

  lemma {:induction false} ErrScoreIsReached(h: seq<Feed>) returns (k: nat)
    ensures k <= |h| && Balance(h[k..]) == ErrScore(h)
    decreases |h|
  {
    if h == [] || ErrScore(h) == 0 {
      k := |h|;
      assert h[k..] == [];
    } else {
      k := ErrScoreIsReached(h[..|h| - 1]);
      BalanceFrom(h, k);
    }
  }

  /** The error score is the largest balance of any suffix of the history. */
  lemma ErrScoreIsLargestBalance(h: seq<Feed>)
    ensures forall k :: 0 <= k <= |h| ==> Balance(h[k..]) <= ErrScore(h)
    ensures exists k :: 0 <= k <= |h| && Balance(h[k..]) == ErrScore(h)
  {
    forall k | 0 <= k <= |h| ensures Balance(h[k..]) <= ErrScore(h) { ErrScoreBounds(h, k); }
    var k := ErrScoreIsReached(h);
  }

  /** The ok score is the length of the trailing run of oks. */
  lemma {:induction false} OkScoreIsTrailingRun(h: seq<Feed>)
    ensures OkScore(h) <= |h|
    ensures forall i :: |h| - OkScore(h) <= i < |h| ==> h[i] == Ok
    ensures OkScore(h) < |h| ==> h[|h| - OkScore(h) - 1] == Err
    decreases |h|
  {
    if h != [] { OkScoreIsTrailingRun(h[..|h| - 1]); }
  }

  ghost predicate SomeSuffixReaches(h: seq<Feed>, n: int) {
    exists k :: 0 <= k <= |h| && Balance(h[k..]) >= n
  }

  predicate EndsWithOks(h: seq<Feed>, n: nat) {
    n <= |h| && forall i :: |h| - n <= i < |h| ==> h[i] == Ok
  }

  /** The decision in terms of the history alone. */
  lemma {:induction false} DecisionMeans(cfg: Config, h: seq<Feed>)
    ensures var d := Decide(cfg, ErrScore(h), OkScore(h));
            && (d == Failover <==> SomeSuffixReaches(h, cfg.failThreshold))
            && (d == Recover <==> d != Failover && EndsWithOks(h, cfg.recoverThreshold))
            && d != Undecided
  {
    var k := ErrScoreIsReached(h);
    if SomeSuffixReaches(h, cfg.failThreshold) {
      var j :| 0 <= j <= |h| && Balance(h[j..]) >= cfg.failThreshold;
      ErrScoreBounds(h, j);
    }
    OkScoreIsTrailingRun(h);
  }

  class Policy {
    var cfg: Config
    var errScore: nat
    var okScore: nat
    ghost var history: seq<Feed>

    /** The counters are those of all that was fed. */
    ghost predicate Valid()
      reads this
    {
      && errScore == ErrScore(history) && okScore == OkScore(history)
      && cfg.failThreshold > 0 && cfg.recoverThreshold > 0
    }

    /** A threshold of 0 asks for the default. */
    constructor (given: Config)
      ensures Valid() && history == []
      ensures cfg.failThreshold == if given.failThreshold == 0 then 3 else given.failThreshold
      ensures cfg.recoverThreshold == if given.recoverThreshold == 0 then 2 else given.recoverThreshold
    {
      cfg := given;
      errScore, okScore, history := 0, 0, [];
      new;
      if cfg.failThreshold == 0 { cfg := cfg.(failThreshold := FAIL_THRESHOLD_DEFAULT); }
      if cfg.recoverThreshold == 0 { cfg := cfg.(recoverThreshold := RECOVER_THRESHOLD_DEFAULT); }
    }

    method FeedError()
      requires Valid()
      modifies this`errScore, this`okScore, this`history
      ensures Valid() && history == old(history) + [Err]
    {
      errScore := errScore + 1;
      okScore := 0;
      history := history + [Err];
      assert history[..|history| - 1] == old(history);
    }

    method FeedOk()
      requires Valid()
      modifies this`errScore, this`okScore, this`history
      ensures Valid() && history == old(history) + [Ok]
    {
      okScore := okScore + 1;
      if errScore > 0 { errScore := errScore - 1; }
      history := history + [Ok];
      assert history[..|history| - 1] == old(history);
    }

    method Eval() returns (d: Decision)
      requires Valid()
      ensures d == Decide(cfg, ErrScore(history), OkScore(history))
      ensures d == Failover <==> SomeSuffixReaches(history, cfg.failThreshold)
      ensures d == Recover <==> d != Failover && EndsWithOks(history, cfg.recoverThreshold)
    {
      DecisionMeans(cfg, history);
      d := Keep;
      if errScore >= cfg.failThreshold {
        d := Failover;
      } else if okScore >= cfg.recoverThreshold {
        d := Recover;
      }
    }
  }
}

/** The logic engine's step over an input snapshot: the first values found on the valid cards. */
module LogicEngine {
  import opened Common

  type u32 = x: int | 0 <= x < 0x1_0000_0000

  const MAX_CARDS := 24
  const MAX_IO_PER_CARD := 24
  const VALUE_MAX := 8

  datatype CardInput = CardInput(valid: bool, channelCount: u32, values: seq<int>)

  type Card = c: CardInput | |c.values| == MAX_IO_PER_CARD
    witness CardInput(false, 0, seq(MAX_IO_PER_CARD, _ => 0))

  datatype InputSnapshot = InputSnapshot(epoch: u32, cardCount: u32, cards: seq<Card>)

  type Input = s: InputSnapshot | |s.cards| == MAX_CARDS
    witness InputSnapshot(0, 0, seq(MAX_CARDS, _ => CardInput(false, 0, seq(MAX_IO_PER_CARD, _ => 0))))

  datatype Action = NoAction | ExecDone | Keep

  datatype Output = Output(action: Action, reqId: u32, rc: int, valueCount: nat)

  /** The channels in use on a card. */
  function Channels(c: Card): seq<int> {
    if c.valid then c.values[..Min(c.channelCount, MAX_IO_PER_CARD)] else []
  }

  /** The channels of the first `k` cards, one after the other. */
  function AllChannels(cards: seq<Card>, k: nat): seq<int>
    requires k <= |cards|
  {
    if k == 0 then [] else AllChannels(cards, k - 1) + Channels(cards[k - 1])
  }

  function Values(s: Input): seq<int> {
    AllChannels(s.cards, Min(s.cardCount, MAX_CARDS))
  }

  function Front(s: seq<int>): seq<int> {
    s[..Min(|s|, VALUE_MAX)]
  }

  lemma {:induction false} BeginsWith(cards: seq<Card>, k: nat, n: nat, part: seq<int>)
    requires k < n <= |cards| && part <= Channels(cards[k])
    ensures AllChannels(cards, k) + part <= AllChannels(cards, n)
    decreases n
  {
    hide Channels;
    if n == k + 1 {
      assert Channels(cards[k]) == part + Channels(cards[k])[|part|..];
      assert AllChannels(cards, n) == AllChannels(cards, k) + part + Channels(cards[k])[|part|..];
    } else {
      BeginsWith(cards, k, n - 1, part);
    }
  }

  lemma FrontOfPrefix(p: seq<int>, s: seq<int>)
    requires p <= s && |p| >= VALUE_MAX
    ensures Front(p) == Front(s)
  {
  }

  /** Once there are enough values, the remaining cards do not matter. */
  lemma FrontIsSettled(cards: seq<Card>, k: nat, n: nat, part: seq<int>)
    requires k < n <= |cards| && part <= Channels(cards[k])
    requires |AllChannels(cards, k) + part| >= VALUE_MAX
    ensures Front(AllChannels(cards, n)) == Front(AllChannels(cards, k) + part)
  {
    hide AllChannels, Front;
    BeginsWith(cards, k, n, part);
    FrontOfPrefix(AllChannels(cards, k) + part, AllChannels(cards, n));
  }

  /** The channels on the valid ones of the first `k` cards, each card counting at most 24. */
  function ChannelCount(cards: seq<Card>, k: nat): nat
    requires k <= |cards|
  {
    if k == 0 then 0
    else ChannelCount(cards, k - 1) + if !cards[k - 1].valid then 0 else Min(cards[k - 1].channelCount, 24)
  }

  lemma {:induction false} ChannelsAreCounted(cards: seq<Card>, k: nat)
    requires k <= |cards|
    ensures |AllChannels(cards, k)| == ChannelCount(cards, k)
  {
    if k > 0 { ChannelsAreCounted(cards, k - 1); }
  }

  /** Channel `ch` of card `i` is the value behind all channels before it, if it is among the first eight; there
      are as many values as channels, up to eight. */
  lemma ValuesMean(s: Input, i: nat, ch: nat)
    requires i < s.cardCount && i < 24 && s.cards[i].valid && ch < s.cards[i].channelCount && ch < 24
    ensures var v, n := Front(Values(s)), ChannelCount(s.cards, i) + ch;
            && |v| == Min(ChannelCount(s.cards, Min(s.cardCount, 24)), 8)
            && (n < 8 ==> n < |v| && v[n] == s.cards[i].values[ch])
  {
    var count := Min(s.cardCount, 24);
    var part := s.cards[i].values[..ch + 1];
    ChannelsAreCounted(s.cards, i);
    ChannelsAreCounted(s.cards, count);
    assert part <= Channels(s.cards[i]);
    BeginsWith(s.cards, i, count, part);
    hide AllChannels, ChannelCount;
    assert (AllChannels(s.cards, i) + part)[|AllChannels(s.cards, i)| + ch] == part[ch];
  }

  class Engine {
    var execCount: u32
    var lastExecMs: nat
    var lastRc: int

    constructor ()
      ensures execCount == 0 && lastExecMs == 0 && lastRc == 0
    {
      execCount, lastExecMs, lastRc := 0, 0, 0;
    }

    /** `values` is the value field of the output. */
    method ApplySnapshot(s: Input, now: nat, values: array<int>) returns (out: Output)
      requires values.Length == VALUE_MAX
      modifies this, values
      ensures out.valueCount <= VALUE_MAX && values[..out.valueCount] == Front(Values(s))
      ensures forall i :: out.valueCount <= i < VALUE_MAX ==> values[i] == 0
      ensures out.action == ExecDone && out.rc == 0 && out.reqId == s.epoch
      ensures execCount == (old(execCount) + 1) % 0x1_0000_0000 && lastExecMs == now && lastRc == 0
    {
      forall i | 0 <= i < VALUE_MAX { values[i] := 0; }
      var n := Collect(s, values);
      execCount := (execCount + 1) % 0x1_0000_0000;
      lastExecMs, lastRc := now, 0;
      out := Output(ExecDone, s.epoch, 0, n);
    }

    static method Collect(s: Input, values: array<int>) returns (n: nat)
      requires values.Length == VALUE_MAX
      modifies values
      ensures n <= VALUE_MAX && values[..n] == Front(Values(s))
      ensures forall i :: n <= i < VALUE_MAX ==> values[i] == old(values[i])
    {
      n := 0;
      ghost var count := Min(s.cardCount, MAX_CARDS);
      var i := 0;
      while i < s.cardCount && i < MAX_CARDS
        invariant i <= count && n < VALUE_MAX
        invariant values[..n] == AllChannels(s.cards, i)
        invariant forall k :: n <= k < VALUE_MAX ==> values[k] == old(values[k])
      {
        if !s.cards[i].valid {
          i := i + 1;
          continue;
        }
        ghost var part;
        n, part := CopyCard(s.cards[i], values, n);
        if n >= VALUE_MAX {
          FrontIsSettled(s.cards, i, count, part);
          return;
        }
        i := i + 1;
      }
    }

    /** The inner loop: copies channels until the card or the room ends. */
    static method CopyCard(c: Card, values: array<int>, start: nat) returns (n: nat, ghost part: seq<int>)
      requires values.Length == VALUE_MAX && start < VALUE_MAX && c.valid
      modifies values
      ensures start <= n <= VALUE_MAX && values[..n] == old(values[..start]) + part
      ensures part <= Channels(c) && (n < VALUE_MAX ==> part == Channels(c))
      ensures forall i :: n <= i < VALUE_MAX ==> values[i] == old(values[i])
    {
      n := start;
      var ch := 0;
      while ch < c.channelCount && ch < MAX_IO_PER_CARD
        invariant ch <= Min(c.channelCount, MAX_IO_PER_CARD) && n == start + ch <= VALUE_MAX
        invariant values[..n] == old(values[..start]) + c.values[..ch]
        invariant forall k :: n <= k < VALUE_MAX ==> values[k] == old(values[k])
      {
        if n >= VALUE_MAX { break; }
        values[n] := c.values[ch];
        n := n + 1;
        ch := ch + 1;
      }
      part := c.values[..ch];
    }
  }
}

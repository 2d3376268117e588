/** The logic output map: routes put engine values on channels of output cards, one slot per card number. */
module OutputMap {
  import opened Common
  import opened LogicEngine

  const ROUTE_MAX := 8
  const CARD_TYPE_DO: u32 := 2

  datatype Route = Route(valid: bool, cardNo: u32, cardType: u32, valueIndex: u32, ch: u32)

  datatype CardOutput = CardOutput(valid: bool, cardNo: u32, cardType: u32, channelCount: nat, ts: nat,
                                   values: seq<int>)

  type OutCard = c: CardOutput | |c.values| == MAX_IO_PER_CARD
    witness CardOutput(false, 0, 0, 0, 0, seq(MAX_IO_PER_CARD, _ => 0))

  const BLANK: OutCard := CardOutput(false, 0, 0, 0, 0, seq(MAX_IO_PER_CARD, _ => 0))

  /** The engine output as far as it is used: `count` of the values are in use. */
  datatype EngineOutput = EngineOutput(reqId: u32, count: u32, values: seq<int>)

  type Source = s: EngineOutput | |s.values| == VALUE_MAX witness EngineOutput(0, 0, seq(VALUE_MAX, _ => 0))

  // ---- what the routes ask for -------------------------------------------------------------------

  predicate Effective(r: Route, src: Source) {
    r.valid && r.ch < MAX_IO_PER_CARD && r.valueIndex < src.count && r.valueIndex < VALUE_MAX
  }

  type Routes = seq<Route>

  ghost predicate AllEffective(rs: Routes, src: Source) {
    forall i :: 0 <= i < |rs| ==> Effective(rs[i], src)
  }

  /** The effective ones of the first `k` routes, in order. */
  function Used(routes: Routes, src: Source, k: nat): Routes
    requires k <= |routes|
  {
    if k == 0 then []
    else Used(routes, src, k - 1) + if Effective(routes[k - 1], src) then [routes[k - 1]] else []
  }

  /** Distinct card numbers in the order of their first use. */
  function CardNos(rs: Routes): seq<u32> {
    if rs == [] then []
    else
      var before, r := CardNos(rs[..|rs| - 1]), rs[|rs| - 1];
      if r.cardNo in before then before else before + [r.cardNo]
  }

  /** The type in the first route to the card. */
  function TypeOf(rs: Routes, no: u32): u32 {
    if rs == [] then 0 else if rs[0].cardNo == no then rs[0].cardType else TypeOf(rs[1..], no)
  }

  /** The value of the last route to the channel; 0 if there is none. */
  function Setting(rs: Routes, src: Source, no: u32, ch: int): int
    requires AllEffective(rs, src)
  {
    if rs == [] then 0
    else
      var r := rs[|rs| - 1];
      if r.cardNo == no && r.ch == ch then src.values[r.valueIndex] else Setting(rs[..|rs| - 1], src, no, ch)
  }

  /** One more than the largest channel routed to the card. */
  ghost predicate IsWidth(rs: Routes, no: u32, width: nat) {
    && (forall r :: r in rs && r.cardNo == no ==> r.ch < width)
    && (width > 0 ==> exists r :: r in rs && r.cardNo == no && r.ch + 1 == width)
  }

  /** The card numbers are pairwise different, are those of the routes, and come in the order of first use. */
  lemma {:induction false} CardNosAreDistinct(rs: Routes)
    ensures forall i, j :: 0 <= i < j < |CardNos(rs)| ==> CardNos(rs)[i] != CardNos(rs)[j]
    ensures forall no :: no in CardNos(rs) <==> exists r :: r in rs && r.cardNo == no
    ensures |CardNos(rs)| <= |rs|
  {
    if rs != [] {
      var front, r := rs[..|rs| - 1], rs[|rs| - 1];
      CardNosAreDistinct(front);
      assert rs == front + [r];
      forall no ensures no in CardNos(rs) <==> exists x :: x in rs && x.cardNo == no {
        if no in CardNos(front) {
          var x :| x in front && x.cardNo == no;
          assert x in rs;
        } else if no == r.cardNo {
          assert r in rs;
        } else {
          assert forall x :: x in rs ==> x in front || x == r;
        }
      }
    }
  }

  lemma {:induction false} CardNosInOrder(rs: Routes, k: nat)
    requires k <= |rs|
    ensures CardNos(rs[..k]) <= CardNos(rs)
    decreases |rs|
  {
    if k < |rs| {
      CardNosInOrder(rs[..|rs| - 1], k);
      assert rs[..|rs| - 1][..k] == rs[..k];
    } else {
      assert rs[..k] == rs;
    }
  }

  lemma {:induction false} SettingIsLast(rs: Routes, src: Source, no: u32, ch: int, k: nat)
    requires AllEffective(rs, src) && k < |rs| && rs[k].cardNo == no && rs[k].ch == ch
    requires forall i :: k < i < |rs| ==> !(rs[i].cardNo == no && rs[i].ch == ch)
    ensures Setting(rs, src, no, ch) == src.values[rs[k].valueIndex]
    decreases |rs|
  {
    if k < |rs| - 1 { SettingIsLast(rs[..|rs| - 1], src, no, ch, k); }
  }

  lemma {:induction false} SettingOfNone(rs: Routes, src: Source, no: u32, ch: int)
    requires AllEffective(rs, src)
    requires forall r :: r in rs ==> !(r.cardNo == no && r.ch == ch)
    ensures Setting(rs, src, no, ch) == 0
  {
    if rs != [] { SettingOfNone(rs[..|rs| - 1], src, no, ch); }
  }

  // ---- placing one route -------------------------------------------------------------------------

  function SlotOf(cards: seq<OutCard>, no: u32, i: nat): (slot: nat)
    requires i <= |cards|
    ensures i <= slot <= |cards|
    ensures slot < |cards| ==> cards[slot].valid && cards[slot].cardNo == no
    decreases |cards| - i
  {
    if i == |cards| || (cards[i].valid && cards[i].cardNo == no) then i else SlotOf(cards, no, i + 1)
  }

  function NewCard(no: u32, cardType: u32, now: nat): OutCard {
    CardOutput(true, no, cardType, 0, now, seq(MAX_IO_PER_CARD, _ => 0))
  }

  function WithChannel(c: OutCard, ch: nat, value: int): OutCard
    requires ch < MAX_IO_PER_CARD
  {
    c.(values := c.values[ch := value], channelCount := if c.channelCount <= ch then ch + 1 else c.channelCount)
  }

  function Found(cards: seq<OutCard>, no: u32, cardType: u32, now: nat): seq<OutCard> {
    if SlotOf(cards, no, 0) < |cards| then cards else cards + [NewCard(no, cardType, now)]
  }

  function Placed(cards: seq<OutCard>, r: Route, src: Source, now: nat): seq<OutCard>
    requires Effective(r, src)
  {
    var slot := SlotOf(cards, r.cardNo, 0);
    var all := Found(cards, r.cardNo, r.cardType, now);
    all[slot := WithChannel(all[slot], r.ch, src.values[r.valueIndex])]
  }

  /** The card is as the routes ask. */
  ghost predicate CardOk(c: OutCard, no: u32, rs: Routes, src: Source, now: nat)
    requires AllEffective(rs, src)
  {
    && c.valid && c.cardNo == no && c.ts == now
    && c.cardType == TypeOf(rs, no)
    && IsWidth(rs, no, c.channelCount)
    && forall ch :: 0 <= ch < MAX_IO_PER_CARD ==> c.values[ch] == Setting(rs, src, no, ch)
  }

  ghost predicate Described(cards: seq<OutCard>, rs: Routes, src: Source, now: nat)
    requires AllEffective(rs, src)
  {
    && |cards| == |CardNos(rs)|
    && forall i :: 0 <= i < |cards| ==> CardOk(cards[i], CardNos(rs)[i], rs, src, now)
  }

  lemma {:induction false} TypeOfSum(rs: Routes, r: Route, no: u32)
    ensures TypeOf(rs + [r], no)
            == if no in CardNos(rs) then TypeOf(rs, no) else if r.cardNo == no then r.cardType else 0
    decreases |rs|
  {
    CardNosAreDistinct(rs);
    if rs != [] {
      assert (rs + [r])[1..] == rs[1..] + [r];
      if rs[0].cardNo == no {
        assert rs[0] in rs;
      } else {
        CardNosAreDistinct(rs[1..]);
        assert rs == [rs[0]] + rs[1..];
        TypeOfSum(rs[1..], r, no);
      }
    }
  }

  /** Another route leaves the cards with other numbers alone. */
  lemma OtherCard(c: OutCard, no: u32, rs: Routes, r: Route, src: Source, now: nat)
    requires AllEffective(rs, src) && Effective(r, src)
    requires CardOk(c, no, rs, src, now) && no in CardNos(rs) && r.cardNo != no
    ensures CardOk(c, no, rs + [r], src, now)
  {
    var all := rs + [r];
    assert all[..|rs|] == rs;
    TypeOfSum(rs, r, no);
    if c.channelCount > 0 {
      var x :| x in rs && x.cardNo == no && x.ch + 1 == c.channelCount;
      assert x in all;
    }
  }

  lemma SameCard(c: OutCard, no: u32, rs: Routes, r: Route, src: Source, now: nat)
    requires AllEffective(rs, src) && Effective(r, src)
    requires CardOk(c, no, rs, src, now) && no in CardNos(rs) && r.cardNo == no
    ensures CardOk(WithChannel(c, r.ch, src.values[r.valueIndex]), no, rs + [r], src, now)
  {
    var all := rs + [r];
    assert all[..|rs|] == rs && all[|rs|] == r;
    TypeOfSum(rs, r, no);
    if c.channelCount > r.ch {
      var x :| x in rs && x.cardNo == no && x.ch + 1 == c.channelCount;
      assert x in all;
    } else {
      assert r in all;
    }
  }

  lemma FirstUse(no: u32, rs: Routes, r: Route, src: Source, now: nat)
    requires AllEffective(rs, src) && Effective(r, src)
    requires no !in CardNos(rs) && r.cardNo == no
    ensures CardOk(WithChannel(NewCard(no, r.cardType, now), r.ch, src.values[r.valueIndex]), no, rs + [r], src, now)
  {
    var all := rs + [r];
    assert all[..|rs|] == rs && all[|rs|] == r;
    CardNosAreDistinct(rs);
    TypeOfSum(rs, r, no);
    assert r in all;
    forall ch | 0 <= ch < MAX_IO_PER_CARD ensures Setting(rs, src, no, ch) == 0 {
      SettingOfNone(rs, src, no, ch);
    }
  }

  lemma {:induction false} SlotIsPosition(cards: seq<OutCard>, rs: Routes, src: Source, now: nat, no: u32, i: nat)
    requires AllEffective(rs, src) && Described(cards, rs, src, now) && i <= |cards|
    requires forall j :: 0 <= j < i ==> CardNos(rs)[j] != no
    ensures var slot := SlotOf(cards, no, i);
            if no in CardNos(rs) then slot < |cards| && CardNos(rs)[slot] == no else slot == |cards|
    decreases |cards| - i
  {
    if i < |cards| {
      assert CardOk(cards[i], CardNos(rs)[i], rs, src, now);
      if CardNos(rs)[i] != no { SlotIsPosition(cards, rs, src, now, no, i + 1); }
    }
  }

  lemma PlacedIsDescribed(cards: seq<OutCard>, rs: Routes, r: Route, src: Source, now: nat)
    requires AllEffective(rs, src) && Effective(r, src) && Described(cards, rs, src, now)
    ensures AllEffective(rs + [r], src) && Described(Placed(cards, r, src, now), rs + [r], src, now)
  {
    hide CardOk, Setting, TypeOf;
    var all, out := rs + [r], Placed(cards, r, src, now);
    assert all[..|rs|] == rs && all[|rs|] == r;
    CardNosAreDistinct(rs);
    SlotIsPosition(cards, rs, src, now, r.cardNo, 0);
    forall i | 0 <= i < |out| ensures CardOk(out[i], CardNos(all)[i], all, src, now) {
      if i == |cards| {
        FirstUse(r.cardNo, rs, r, src, now);
      } else if CardNos(rs)[i] == r.cardNo {
        SameCard(cards[i], r.cardNo, rs, r, src, now);
      } else {
        OtherCard(cards[i], CardNos(rs)[i], rs, r, src, now);
      }
    }
  }

  lemma {:induction false} UsedAreEffective(routes: Routes, src: Source, k: nat)
    requires k <= |routes|
    ensures AllEffective(Used(routes, src, k), src) && |Used(routes, src, k)| <= k
  {
    if k > 0 { UsedAreEffective(routes, src, k - 1); }
  }

  /** The cards after the first `k` routes. */
  function AllPlaced(routes: Routes, src: Source, now: nat, k: nat): seq<OutCard>
    requires k <= |routes|
  {
    if k == 0 then []
    else
      var before := AllPlaced(routes, src, now, k - 1);
      if Effective(routes[k - 1], src) then Placed(before, routes[k - 1], src, now) else before
  }

  /** For every table of routes: one card per card number used, in the order of first use, with the type of the
      first route, the width of the largest channel and on each channel the value of the last route. There
      never are more cards than routes. */
  lemma {:induction false} RoutesAreHonoured(routes: Routes, src: Source, now: nat, k: nat)
    requires k <= |routes|
    ensures var rs := Used(routes, src, k);
            && AllEffective(rs, src) && Described(AllPlaced(routes, src, now, k), rs, src, now)
            && |AllPlaced(routes, src, now, k)| <= k
  {
    hide Placed, Effective, CardNos, Described;
    UsedAreEffective(routes, src, k);
    CardNosAreDistinct(Used(routes, src, k));
    if k == 0 {
      NoCards(src, now);
    } else {
      RoutesAreHonoured(routes, src, now, k - 1);
      var rs := Used(routes, src, k - 1);
      if Effective(routes[k - 1], src) {
        PlacedIsDescribed(AllPlaced(routes, src, now, k - 1), rs, routes[k - 1], src, now);
      } else {
        assert rs + [] == rs;
      }
    }
    CountIs(AllPlaced(routes, src, now, k), Used(routes, src, k), src, now);
  }

  lemma NoCards(src: Source, now: nat)
    ensures Described([], [], src, now)
  {
  }

  lemma CountIs(cards: seq<OutCard>, rs: Routes, src: Source, now: nat)
    requires AllEffective(rs, src) && Described(cards, rs, src, now)
    ensures |cards| == |CardNos(rs)|
  {
  }

  // ---- what a single route does ------------------------------------------------------------------

  /** The route puts one of the values in use on an existing channel of this card. */
  predicate Drives(r: Route, src: Source, no: u32, ch: int) {
    r.valid && r.valueIndex < src.count && r.valueIndex < 8 && r.ch < 24 && r.cardNo == no && r.ch == ch
  }

  lemma {:induction false} UsedHas(routes: Routes, src: Source, k: nat, i: nat)
    requires i < k <= |routes| && Drives(routes[i], src, routes[i].cardNo, routes[i].ch)
    ensures routes[i] in Used(routes, src, k)
  {
    if i < k - 1 { UsedHas(routes, src, k - 1, i); }
  }

  lemma {:induction false} UsedComesFrom(routes: Routes, src: Source, k: nat, r: Route)
    requires k <= |routes| && r in Used(routes, src, k)
    ensures Drives(r, src, r.cardNo, r.ch) && exists i :: 0 <= i < k && routes[i] == r
  {
    if r in Used(routes, src, k - 1) { UsedComesFrom(routes, src, k - 1, r); }
  }

  /** The setting of a channel: the value of the last route that drives it, or 0. */
  lemma {:induction false} SettingMeans(routes: Routes, src: Source, k: nat, no: u32, ch: int)
    requires k <= |routes| && AllEffective(Used(routes, src, k), src)
    ensures (forall i :: 0 <= i < k ==> !Drives(routes[i], src, no, ch))
            ==> Setting(Used(routes, src, k), src, no, ch) == 0
    ensures forall i :: 0 <= i < k && Drives(routes[i], src, no, ch)
                        && (forall j :: i < j < k ==> !Drives(routes[j], src, no, ch))
                        ==> Setting(Used(routes, src, k), src, no, ch) == src.values[routes[i].valueIndex]
  {
    if k > 0 {
      UsedAreEffective(routes, src, k - 1);
      SettingMeans(routes, src, k - 1, no, ch);
      var before := Used(routes, src, k - 1);
      if Effective(routes[k - 1], src) {
        assert (before + [routes[k - 1]])[..|before|] == before;
      } else {
        assert before + [] == before;
      }
    }
  }

  /** Each channel that some route drives is there, on the one card with that number, and shows the value of the
      last such route; each channel there that none drives shows 0; and each card has a route that drives it. */
  lemma RouteShows(routes: Routes, src: Source, now: nat, no: u32, ch: nat)
    requires ch < 24
    ensures var cards := AllPlaced(routes, src, now, |routes|);
            && (forall i :: 0 <= i < |routes| && Drives(routes[i], src, no, ch)
                            && (forall j :: i < j < |routes| ==> !Drives(routes[j], src, no, ch)) ==>
                  exists c :: 0 <= c < |cards| && cards[c].cardNo == no && cards[c].channelCount > ch
                              && cards[c].values[ch] == src.values[routes[i].valueIndex])
            && (forall c :: 0 <= c < |cards| && cards[c].cardNo == no
                            && (forall i :: 0 <= i < |routes| ==> !Drives(routes[i], src, no, ch)) ==>
                  cards[c].values[ch] == 0)
            && (forall c :: 0 <= c < |cards| ==>
                  && cards[c].valid && cards[c].ts == now
                  && exists i, x :: 0 <= i < |routes| && Drives(routes[i], src, cards[c].cardNo, x))
            && (forall c, d :: 0 <= c < d < |cards| ==> cards[c].cardNo != cards[d].cardNo)
  {
    var k := |routes|;
    var cards, rs := AllPlaced(routes, src, now, k), Used(routes, src, k);
    RoutesAreHonoured(routes, src, now, k);
    SettingMeans(routes, src, k, no, ch);
    CardNosAreDistinct(rs);
    hide Used, AllPlaced, CardNos, Setting, Effective, TypeOf;
    forall c | 0 <= c < |cards|
      ensures CardOk(cards[c], CardNos(rs)[c], rs, src, now)
      ensures exists i, x :: 0 <= i < k && Drives(routes[i], src, cards[c].cardNo, x)
    {
      assert CardNos(rs)[c] in CardNos(rs);
      var r :| r in rs && r.cardNo == CardNos(rs)[c];
      UsedComesFrom(routes, src, k, r);
      var i :| 0 <= i < k && routes[i] == r;
      assert Drives(routes[i], src, cards[c].cardNo, r.ch);
    }
    forall i | 0 <= i < k && Drives(routes[i], src, no, ch)
      ensures exists c :: 0 <= c < |cards| && CardNos(rs)[c] == no && cards[c].channelCount > ch
    {
      UsedHas(routes, src, k, i);
      assert no in CardNos(rs);
      var c :| 0 <= c < |cards| && CardNos(rs)[c] == no;
      assert CardOk(cards[c], no, rs, src, now);
    }
  }

  const DEFAULT_ROUTES: Routes := [Route(true, 0, CARD_TYPE_DO, 0, 0), Route(true, 0, CARD_TYPE_DO, 1, 1)]

  function DefaultEffective(src: Source): Routes {
    DEFAULT_ROUTES[..Min(src.count, 2)]
  }

  lemma DefaultUsed(src: Source)
    ensures Used(DEFAULT_ROUTES, src, 2) == DefaultEffective(src)
    ensures CardNos(DefaultEffective(src)) == if src.count > 0 then [0] else []
  {
    hide Used, CardNos;
    UsedSteps(DEFAULT_ROUTES, src, 0);
    UsedSteps(DEFAULT_ROUTES, src, 1);
    UsedSteps(DEFAULT_ROUTES, src, 2);
    assert [] + [DEFAULT_ROUTES[0]] == DEFAULT_ROUTES[..1];
    assert DEFAULT_ROUTES[..1] + [DEFAULT_ROUTES[1]] == DEFAULT_ROUTES[..2];
    OneCardNo(DEFAULT_ROUTES[0], DEFAULT_ROUTES[1]);
    assert DEFAULT_ROUTES[..1] == [DEFAULT_ROUTES[0]] && DEFAULT_ROUTES[..2] == [DEFAULT_ROUTES[0], DEFAULT_ROUTES[1]];
    NoCardNo();
  }

  lemma UsedSteps(routes: Routes, src: Source, k: nat)
    requires k <= |routes|
    ensures Used(routes, src, k)
            == if k == 0 then []
               else Used(routes, src, k - 1) + if Effective(routes[k - 1], src) then [routes[k - 1]] else []
  {
  }

  lemma NoCardNo()
    ensures CardNos([]) == []
  {
  }

  lemma OneCardNo(q: Route, r: Route)
    requires q.cardNo == r.cardNo
    ensures CardNos([q]) == CardNos([q, r]) == [q.cardNo]
  {
    assert [q][..0] == [] && [q, r][..1] == [q];
    assert CardNos([q]) == [q.cardNo];
  }

  lemma DefaultSetting(src: Source, ch: nat)
    requires AllEffective(DefaultEffective(src), src)
    ensures Setting(DefaultEffective(src), src, 0, ch) == if ch < Min(src.count, 2) then src.values[ch] else 0
  {
    var rs := DefaultEffective(src);
    if src.count > 1 {
      assert rs[..1] == DEFAULT_ROUTES[..1];
      assert Setting(rs[..1], src, 0, ch) == if ch == 0 then src.values[0] else 0;
    }
  }

  /** Without a configuration every snapshot holds at most one card: an output card with number 0 that shows the
      first two values in use on as many channels, and 0 on all others. */
  lemma {:induction false} DefaultRoutesDriveCardZero(cards: seq<OutCard>, src: Source, now: nat)
    requires AllEffective(Used(DEFAULT_ROUTES, src, 2), src)
    requires Described(cards, Used(DEFAULT_ROUTES, src, 2), src, now)
    ensures var n := Min(src.count, 2);
            if n == 0 then cards == []
            else
              && |cards| == 1 && cards[0].valid && cards[0].cardNo == 0 && cards[0].ts == now
              && cards[0].cardType == CARD_TYPE_DO && cards[0].channelCount == n
              && forall ch :: 0 <= ch < MAX_IO_PER_CARD ==> cards[0].values[ch] == if ch < n then src.values[ch] else 0
  {
    DefaultUsed(src);
    var rs := DefaultEffective(src);
    hide Used, CardNos, Setting;
    if src.count > 0 {
      assert CardOk(cards[0], 0, rs, src, now);
      assert rs[0] in rs && rs[|rs| - 1] in rs;
      forall ch | 0 <= ch < MAX_IO_PER_CARD
        ensures cards[0].values[ch] == if ch < Min(src.count, 2) then src.values[ch] else 0
      {
        DefaultSetting(src, ch);
      }
    }
  }

  // ---- the snapshot and the map ------------------------------------------------------------------

  class OutputSnapshot {
    const cards: array<OutCard>
    var cardCount: nat
    var applyEpoch: u32
    var ts: nat

    ghost predicate Valid()
      reads this
    {
      cards.Length == MAX_CARDS && cardCount <= MAX_CARDS
    }

    ghost function InUse(): seq<OutCard>
      requires Valid()
      reads this, cards
    {
      cards[..cardCount]
    }

    constructor ()
      ensures Valid() && InUse() == [] && fresh(cards)
    {
      cards := new OutCard[MAX_CARDS](_ => BLANK);
      cardCount, applyEpoch, ts := 0, 0, 0;
    }

    method FindOrCreate(no: u32, cardType: u32, now: nat) returns (slot: int)
      requires Valid()
      modifies this`cardCount, cards
      ensures Valid()
      ensures var at := SlotOf(old(InUse()), no, 0);
              if at == MAX_CARDS then slot == -1 && InUse() == old(InUse())
              else slot == at && InUse() == Found(old(InUse()), no, cardType, now)
      ensures forall j :: cardCount <= j < MAX_CARDS ==> cards[j] == old(cards[j])
    {
      var i := 0;
      while i < cardCount && i < MAX_CARDS
        invariant i <= cardCount && SlotOf(InUse(), no, 0) == SlotOf(InUse(), no, i)
      {
        if cards[i].valid && cards[i].cardNo == no { return i; }
        i := i + 1;
      }
      if cardCount >= MAX_CARDS { return -1; }
      slot := cardCount;
      cardCount := cardCount + 1;
      cards[slot] := NewCard(no, cardType, now);
    }

    method SetChannel(slot: nat, ch: nat, value: int)
      requires Valid() && slot < cardCount && ch < MAX_IO_PER_CARD
      modifies cards
      ensures InUse() == old(InUse())[slot := WithChannel(old(InUse())[slot], ch, value)]
      ensures forall j :: cardCount <= j < MAX_CARDS ==> cards[j] == old(cards[j])
    {
      var c := cards[slot];
      cards[slot] := c.(values := c.values[ch := value]);
      if c.channelCount <= ch { cards[slot] := cards[slot].(channelCount := ch + 1); }
    }
  }

  class RouteMap {
    var routes: Routes

    constructor ()
      ensures routes == DEFAULT_ROUTES
    {
      routes := [Route(true, 0, CARD_TYPE_DO, 0, 0), Route(true, 0, CARD_TYPE_DO, 1, 1)];
    }

    method ApplyConfig(routeCount: u32, table: seq<Route>)
      requires |table| == ROUTE_MAX
      modifies this
      ensures routes == table[..Min(routeCount, ROUTE_MAX)]
    {
      var n := routeCount;
      if n > ROUTE_MAX { n := ROUTE_MAX; }
      routes := table[..n];
    }

    /** Fills the snapshot, whatever it held; creating a slot never fails. */
    method Apply(src: Source, now: nat, snap: OutputSnapshot)
      requires snap.Valid() && |routes| <= ROUTE_MAX
      modifies snap, snap.cards
      ensures snap.Valid() && snap.applyEpoch == src.reqId && snap.ts == now
      ensures AllEffective(Used(routes, src, |routes|), src)
      ensures Described(snap.InUse(), Used(routes, src, |routes|), src, now)
      ensures forall j :: snap.cardCount <= j < MAX_CARDS ==> snap.cards[j] == BLANK
    {
      hide Described, CardNos, Used, AllEffective;
      forall j | 0 <= j < MAX_CARDS { snap.cards[j] := BLANK; }
      snap.cardCount, snap.applyEpoch, snap.ts := 0, src.reqId, now;
      var i := 0;
      while i < |routes| && i < ROUTE_MAX
        invariant i <= |routes| && snap.Valid()
        invariant snap.applyEpoch == src.reqId && snap.ts == now
        invariant snap.InUse() == AllPlaced(routes, src, now, i)
        invariant forall j :: snap.cardCount <= j < MAX_CARDS ==> snap.cards[j] == BLANK
      {
        var r := routes[i];
        RoutesAreHonoured(routes, src, now, i);
        i := i + 1;
        if !r.valid { continue; }
        if r.ch >= MAX_IO_PER_CARD { continue; }
        if r.valueIndex >= src.count || r.valueIndex >= VALUE_MAX { continue; }
        var value := src.values[r.valueIndex];
        var slot := snap.FindOrCreate(r.cardNo, r.cardType, now);
        if slot < 0 { assert false; }
        snap.SetChannel(slot, r.ch, value);
      }
      RoutesAreHonoured(routes, src, now, |routes|);
    }
  }
}

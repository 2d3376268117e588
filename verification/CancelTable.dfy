/** The cancelled-request table of the dispatcher: open addressing with linear probing and three
    overflow policies, proved equal to a plain map from request id to cancellation epoch. */
module CancelTable {
  import opened Modular

  datatype Slot = Slot(valid: bool, id: nat, epoch: nat)

  datatype Policy = IgnoreNew | OverwriteSlot | ResetAll

  const EMPTY := Slot(false, 0, 0)

  /** Cell reached `d` steps after `home`, as the source computes it. */
  function Cell(home: nat, d: nat, cap: nat): (j: nat)
    requires home < cap && d < cap
    ensures j < cap
    ensures j == if home + d < cap then home + d else home + d - cap
  {
    Remainder(if home + d < cap then 0 else 1, if home + d < cap then home + d else home + d - cap, cap);
    (home + d) % cap
  }

  function Home(hash: nat -> nat, id: nat, cap: nat): (j: nat)
    requires cap > 0
    ensures j < cap
  {
    hash(id) % cap
  }

  /** Number of probing steps that lead from `home` to cell `j`. */
  function Steps(home: nat, j: nat, cap: nat): (d: nat)
    requires home < cap && j < cap
    ensures d < cap && Cell(home, d, cap) == j
  {
    if j >= home then j - home else j + cap - home
  }

  predicate Stops(s: Slot, id: nat) {
    !s.valid || s.id == id
  }

  /** Probing from offset `i`: the first offset whose slot is free or holds `id`, or the capacity. */
  function Probe(tab: seq<Slot>, home: nat, id: nat, i: nat): (d: nat)
    requires home < |tab| && i <= |tab|
    ensures i <= d <= |tab|
    ensures forall k :: i <= k < d ==> !Stops(tab[Cell(home, k, |tab|)], id)
    ensures d < |tab| ==> Stops(tab[Cell(home, d, |tab|)], id)
    decreases |tab| - i
  {
    if i == |tab| || Stops(tab[Cell(home, i, |tab|)], id) then i else Probe(tab, home, id, i + 1)
  }

  /** The probing lookup, as a function of the table's contents. */
  predicate Reported(tab: seq<Slot>, hash: nat -> nat, id: nat, active: nat)
    requires |tab| > 0
  {
    var home := Home(hash, id, |tab|);
    var d := Probe(tab, home, id, 0);
    id != 0 && d < |tab| && tab[Cell(home, d, |tab|)].valid && tab[Cell(home, d, |tab|)].epoch == active
  }

  /** An insertion overflows when probing finds neither the id nor a free slot. */
  predicate Overflows(tab: seq<Slot>, hash: nat -> nat, id: nat)
    requires |tab| > 0
  {
    Probe(tab, Home(hash, id, |tab|), id, 0) == |tab|
  }

  /** The table after one insertion. */
  function Inserted(tab: seq<Slot>, hash: nat -> nat, policy: Policy, id: nat, epoch: nat): (r: seq<Slot>)
    requires |tab| > 0
    ensures |r| == |tab|
  {
    var home := Home(hash, id, |tab|);
    var d := Probe(tab, home, id, 0);
    if d < |tab| then tab[Cell(home, d, |tab|) := Slot(true, id, epoch)]
    else match policy
      case IgnoreNew => tab
      case OverwriteSlot => tab[home := Slot(true, id, epoch)]
      case ResetAll => seq(|tab|, i => EMPTY)[home := Slot(true, id, epoch)]
  }

  // ---- invariant -------------------------------------------------------------------------

  ghost predicate HoldsAt(tab: seq<Slot>, j: int, id: nat) {
    0 <= j < |tab| && tab[j].valid && tab[j].id == id
  }

  ghost predicate Unique(tab: seq<Slot>) {
    forall i, j, k :: HoldsAt(tab, i, k) && HoldsAt(tab, j, k) ==> i == j
  }

  /** No probing chain has a hole: every slot from an entry's home up to it is valid. */
  ghost predicate Chained(tab: seq<Slot>, hash: nat -> nat)
    requires |tab| > 0
  {
    forall j, d :: 0 <= j < |tab| && tab[j].valid
                   && 0 <= d < Steps(Home(hash, tab[j].id, |tab|), j, |tab|)
                   ==> tab[Cell(Home(hash, tab[j].id, |tab|), d, |tab|)].valid
  }

  ghost predicate WellFormed(tab: seq<Slot>, hash: nat -> nat) {
    |tab| > 0 && Unique(tab) && Chained(tab, hash)
  }

  ghost function Ids(tab: seq<Slot>): set<nat> {
    set j | 0 <= j < |tab| && HoldsAt(tab, j, tab[j].id) :: tab[j].id
  }

  /** The map that a table stands for. */
  ghost function Entries(tab: seq<Slot>): (m: map<nat, nat>)
    requires Unique(tab)
    ensures m.Keys == Ids(tab)
    ensures forall j, k :: HoldsAt(tab, j, k) ==> k in m && m[k] == tab[j].epoch
    ensures forall k :: k in m ==> exists j :: HoldsAt(tab, j, k)
  {
    map k | k in Ids(tab) :: (var j :| HoldsAt(tab, j, k); tab[j].epoch)
  }

  /** Probing lookup equals map lookup, for every hash function. */
  lemma LookupIsMapLookup(tab: seq<Slot>, hash: nat -> nat, id: nat, active: nat)
    requires WellFormed(tab, hash)
    ensures Reported(tab, hash, id, active) <==> id != 0 && id in Entries(tab) && Entries(tab)[id] == active
  {
    var home := Home(hash, id, |tab|);
    var d := Probe(tab, home, id, 0);
    if id in Entries(tab) {
      var j :| HoldsAt(tab, j, id);
      var e := Steps(home, j, |tab|);
      assert Stops(tab[Cell(home, e, |tab|)], id);
      assert d <= e;
      assert tab[Cell(home, d, |tab|)].valid;
    }
  }

  /** Overflow means exactly: the id is new and the map is as large as the table. */
  lemma OverflowIsFullMap(tab: seq<Slot>, hash: nat -> nat, id: nat)
    requires WellFormed(tab, hash)
    ensures Overflows(tab, hash, id) <==> id !in Entries(tab) && |Entries(tab)| == |tab|
  {
    var home := Home(hash, id, |tab|);
    var d := Probe(tab, home, id, 0);
    CountIds(tab);
    if Overflows(tab, hash, id) {
      forall j | 0 <= j < |tab| ensures !Stops(tab[j], id) {
        assert Cell(home, Steps(home, j, |tab|), |tab|) == j;
      }
    } else if |Entries(tab)| == |tab| {
      assert tab[Cell(home, d, |tab|)].valid;
    }
  }

  lemma {:induction false} CountIds(tab: seq<Slot>)
    requires Unique(tab)
    ensures |Ids(tab)| <= |tab|
    ensures |Ids(tab)| == |tab| <==> forall j :: 0 <= j < |tab| ==> tab[j].valid
  {
    if tab != [] {
      var front, last := tab[..|tab| - 1], tab[|tab| - 1];
      assert tab == front + [last];
      forall i, k | HoldsAt(front, i, k) ensures HoldsAt(tab, i, k) {}
      CountIds(front);
      if last.valid {
        assert Ids(tab) == Ids(front) + {last.id};
        assert HoldsAt(tab, |front|, last.id);
        assert last.id !in Ids(front);
      } else {
        assert Ids(tab) == Ids(front);
        assert !tab[|tab| - 1].valid;
      }
      assert forall j :: 0 <= j < |front| ==> front[j] == tab[j];
    }
  }

  /** Every insertion keeps the invariant and acts on the map as its policy promises. */
  lemma InsertionIsMapUpdate(tab: seq<Slot>, hash: nat -> nat, policy: Policy, id: nat, epoch: nat)
    requires WellFormed(tab, hash)
    ensures WellFormed(Inserted(tab, hash, policy, id, epoch), hash)
    ensures Entries(Inserted(tab, hash, policy, id, epoch)) ==
            if !Overflows(tab, hash, id) then Entries(tab)[id := epoch]
            else match policy
              case IgnoreNew => Entries(tab)
              case OverwriteSlot => (Entries(tab) - {tab[Home(hash, id, |tab|)].id})[id := epoch]
              case ResetAll => map[id := epoch]
  {
    var home := Home(hash, id, |tab|);
    var d := Probe(tab, home, id, 0);
    var r := Inserted(tab, hash, policy, id, epoch);
    if d < |tab| {
      InsertAtProbe(tab, hash, id, epoch);
    } else if policy == OverwriteSlot {
      forall j | 0 <= j < |tab| ensures !Stops(tab[j], id) {
        assert Cell(home, Steps(home, j, |tab|), |tab|) == j;
      }
      UpdateEntries(tab, r, home);
    } else if policy == ResetAll {
      assert forall j :: 0 <= j < |r| ==> r[j].valid ==> j == home;
      assert r[home] == Slot(true, id, epoch);
      assert Entries(r).Keys == {id};
    }
  }

  lemma IdsFit(tab: seq<Slot>, hash: nat -> nat)
    requires WellFormed(tab, hash)
    ensures |Ids(tab)| <= |tab|
  {
    CountIds(tab);
  }

  /** The ids in the table after an insertion; an overflow means that all slots hold other ids. */
  lemma InsertedIds(tab: seq<Slot>, hash: nat -> nat, policy: Policy, id: nat, epoch: nat)
    requires WellFormed(tab, hash)
    ensures Overflows(tab, hash, id) ==> |Ids(tab) + {id}| == |tab| + 1
    ensures !Overflows(tab, hash, id) ==>
              var r := Inserted(tab, hash, policy, id, epoch);
              |r| == |tab| && WellFormed(r, hash) && Ids(r) == Ids(tab) + {id}
  {
    OverflowIsFullMap(tab, hash, id);
    InsertionIsMapUpdate(tab, hash, policy, id, epoch);
    hide Overflows, Inserted, Ids, WellFormed, Chained;
    var r := Inserted(tab, hash, policy, id, epoch);
    assert |Entries(tab)| == |Entries(tab).Keys|;
    if !Overflows(tab, hash, id) { assert Entries(r).Keys == Entries(tab).Keys + {id}; }
  }

  /** Replacing one slot of a table replaces that slot's entry in the map. */
  lemma UpdateEntries(tab: seq<Slot>, r: seq<Slot>, j: nat)
    requires j < |tab| == |r| && Unique(tab)
    requires r[j].valid && r == tab[j := r[j]]
    requires forall i :: HoldsAt(tab, i, r[j].id) ==> i == j
    ensures Unique(r)
    ensures tab[j].valid ==> Entries(r) == (Entries(tab) - {tab[j].id})[r[j].id := r[j].epoch]
    ensures !tab[j].valid ==> Entries(r) == Entries(tab)[r[j].id := r[j].epoch]
  {
    forall i, k | HoldsAt(r, i, k) && i != j ensures HoldsAt(tab, i, k) {}
    assert Unique(r);
    var was, now := Entries(tab), Entries(r);
    assert HoldsAt(r, j, r[j].id);
    forall k | k in now && k != r[j].id
      ensures k in was && now[k] == was[k] && !HoldsAt(tab, j, k)
    {
      var i :| HoldsAt(r, i, k);
      assert HoldsAt(tab, i, k);
    }
    forall k | k in was && !HoldsAt(tab, j, k)
      ensures k in now
    {
      var i :| HoldsAt(tab, i, k);
      assert HoldsAt(r, i, k);
    }
    assert tab[j].valid ==> HoldsAt(tab, j, tab[j].id);
  }

  lemma InsertAtProbe(tab: seq<Slot>, hash: nat -> nat, id: nat, epoch: nat)
    requires WellFormed(tab, hash) && !Overflows(tab, hash, id)
    ensures forall policy :: WellFormed(Inserted(tab, hash, policy, id, epoch), hash)
                             && Entries(Inserted(tab, hash, policy, id, epoch)) == Entries(tab)[id := epoch]
  {
    var home := Home(hash, id, |tab|);
    var d := Probe(tab, home, id, 0);
    var at := Cell(home, d, |tab|);
    var r := tab[at := Slot(true, id, epoch)];
    assert Steps(home, at, |tab|) == d;
    forall j | HoldsAt(tab, j, id) ensures j == at {
      var e := Steps(home, j, |tab|);
      assert Stops(tab[Cell(home, e, |tab|)], id);
      assert d <= e;
      assert d < e ==> tab[at].valid;
      assert d < e ==> HoldsAt(tab, at, id);
    }
    UpdateEntries(tab, r, at);
    if tab[at].valid {
      assert (Entries(tab) - {id})[id := epoch] == Entries(tab)[id := epoch];
    }
  }

  // ---- what the table knows about a run of cancellations -----------------------------------

  /** `cancelled` is the set of ids cancelled since the last cancel-all. Nothing else is ever reported,
      and as long as no insertion has overflowed (`exact`) every one of them is. */
  ghost predicate Tracks(tab: seq<Slot>, hash: nat -> nat, active: nat, cancelled: set<nat>, exact: bool) {
    && WellFormed(tab, hash)
    && (forall k :: k in Entries(tab) ==> Entries(tab)[k] <= active)
    && (forall k :: k in Entries(tab) && Entries(tab)[k] == active ==> k in cancelled)
    && (exact ==> forall k :: k in cancelled ==> k in Entries(tab) && Entries(tab)[k] == active)
  }

  lemma TracksInsert(tab: seq<Slot>, hash: nat -> nat, policy: Policy, active: nat, cancelled: set<nat>,
                     exact: bool, id: nat)
    requires Tracks(tab, hash, active, cancelled, exact)
    ensures Tracks(Inserted(tab, hash, policy, id, active), hash, active, cancelled + {id},
                   exact && !Overflows(tab, hash, id))
  {
    InsertionIsMapUpdate(tab, hash, policy, id, active);
  }

  lemma TracksCancelAll(tab: seq<Slot>, hash: nat -> nat, active: nat, cancelled: set<nat>, exact: bool)
    requires Tracks(tab, hash, active, cancelled, exact)
    ensures Tracks(tab, hash, active + 1, {}, exact)
    ensures Tracks(tab, hash, active + 1, {}, true)
  {
  }

  lemma TracksReports(tab: seq<Slot>, hash: nat -> nat, active: nat, cancelled: set<nat>, exact: bool, id: nat)
    requires Tracks(tab, hash, active, cancelled, exact)
    ensures Reported(tab, hash, id, active) ==> id != 0 && id in cancelled
    ensures exact && id != 0 ==> (Reported(tab, hash, id, active) <==> id in cancelled)
  {
    LookupIsMapLookup(tab, hash, id, active);
  }

  // ---- the loops of the source -------------------------------------------------------------

  method IsCancelled(tab: array<Slot>, hash: nat -> nat, id: nat, active: nat) returns (r: bool)
    requires tab.Length > 0
    ensures r == Reported(tab[..], hash, id, active)
  {
    if id == 0 { return false; }
    var home := Home(hash, id, tab.Length);
    ghost var t := tab[..];
    var i := 0;
    while i < tab.Length
      invariant 0 <= i <= tab.Length
      invariant Probe(t, home, id, 0) == Probe(t, home, id, i)
    {
      var e := tab[Cell(home, i, tab.Length)];
      if !e.valid { return false; }
      if e.id == id { return e.epoch == active; }
      i := i + 1;
    }
    return false;
  }

  /** Returns whether the id was recorded. */
  method Insert(tab: array<Slot>, hash: nat -> nat, policy: Policy, id: nat, epoch: nat) returns (ok: bool)
    requires tab.Length > 0
    modifies tab
    ensures tab[..] == Inserted(old(tab[..]), hash, policy, id, epoch)
    ensures ok == !(policy == IgnoreNew && Overflows(old(tab[..]), hash, id))
  {
    var home := Home(hash, id, tab.Length);
    ghost var t := tab[..];
    var i := 0;
    while i < tab.Length
      invariant 0 <= i <= tab.Length
      invariant tab[..] == t
      invariant Probe(t, home, id, 0) == Probe(t, home, id, i)
    {
      var e := tab[Cell(home, i, tab.Length)];
      if !e.valid || e.id == id {
        tab[Cell(home, i, tab.Length)] := Slot(true, id, epoch);
        return true;
      }
      i := i + 1;
    }
    if policy == IgnoreNew { return false; }
    if policy == ResetAll {
      forall j | 0 <= j < tab.Length { tab[j] := EMPTY; }
      assert tab[..] == seq(|t|, i => EMPTY);
    }
    tab[home] := Slot(true, id, epoch);
    return true;
  }
}

/** Index arithmetic shared by the ring buffers: element number `i` of a ring lives in cell `i % cap`. */
module Modular {

  lemma Multiples(d: int, cap: nat)
    ensures d >= 1 ==> d * cap >= cap
    ensures d <= -1 ==> d * cap <= 0 - cap
  {
  }

  lemma Remainder(q: nat, r: nat, cap: nat)
    requires r < cap
    ensures (q * cap + r) % cap == r
  {
    var x := q * cap + r;
    var d := x / cap - q;
    assert r - x % cap == d * cap;
    Multiples(d, cap);
  }

  lemma NextCell(i: nat, cap: nat)
    requires cap > 0
    ensures (i + 1) % cap == if i % cap + 1 >= cap then 0 else i % cap + 1
  {
    var q, r := i / cap, i % cap;
    if r + 1 >= cap {
      assert i + 1 == (q + 1) * cap + 0;
      Remainder(q + 1, 0, cap);
    } else {
      assert i + 1 == q * cap + (r + 1);
      Remainder(q, r + 1, cap);
    }
  }

  /** Advancing a cell index is advancing the element number. */
  lemma Advance(i: nat, cap: nat)
    requires cap > 0
    ensures (i % cap + 1) % cap == (i + 1) % cap
  {
    NextCell(i, cap);
    var r := i % cap + 1;
    if r < cap {
      Remainder(0, r, cap);
    } else {
      Remainder(1, 0, cap);
    }
  }

  /** Fewer than `cap` consecutive element numbers occupy pairwise different cells. */
  lemma DistinctCells(i: nat, j: nat, cap: nat)
    requires cap > 0 && i < j < i + cap
    ensures i % cap != j % cap
  {
    var d := j / cap - i / cap;
    assert j - i == d * cap + (j % cap - i % cap);
    Multiples(d, cap);
  }

  /** The distance between two element numbers, recovered from their cells. */
  lemma RingDistance(i: nat, j: nat, cap: nat)
    requires cap > 0 && i <= j < i + cap
    ensures j - i == if j % cap >= i % cap then j % cap - i % cap else cap - (i % cap - j % cap)
  {
    var d := j / cap - i / cap;
    assert j - i == d * cap + (j % cap - i % cap);
    Multiples(d, cap);
    Multiples(d - 1, cap);
    assert (d - 1) * cap == d * cap - cap;
  }
}

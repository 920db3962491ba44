// Division by a cluster geometry.  Row and Col are quotient and remainder, defined by repeated
// subtraction so that everything built on them stays in linear arithmetic.

module Arith {

  function Row(w: nat, i: nat): nat
    requires w > 0
  {
    if i < w then 0 else Row(w, i - w) + 1
  }

  function Col(w: nat, i: nat): (c: nat)
    requires w > 0
    ensures c < w
  {
    if i < w then i else Col(w, i - w)
  }

  lemma {:induction false} RowColValue(w: nat, i: nat)
    requires w > 0
    ensures i == Row(w, i) * w + Col(w, i)
  {
    if i >= w {
      RowColValue(w, i - w);
      assert (Row(w, i - w) + 1) * w == Row(w, i - w) * w + w;
    }
  }

  lemma {:induction false} RowColOf(w: nat, q: nat, r: nat)
    requires r < w
    ensures Row(w, q * w + r) == q && Col(w, q * w + r) == r
  {
    if q > 0 {
      RowColOf(w, q - 1, r);
      assert q * w + r - w == (q - 1) * w + r;
    }
  }

  lemma {:induction false} RowMono(w: nat, a: nat, b: nat)
    requires w > 0 && a <= b
    ensures Row(w, a) <= Row(w, b)
    decreases b
  {
    if a >= w { RowMono(w, a - w, b - w); }
  }

  // Row and column identify a number.
  lemma {:induction false} SameSlot(w: nat, a: nat, b: nat)
    requires w > 0 && Row(w, a) == Row(w, b) && Col(w, a) == Col(w, b)
    ensures a == b
    decreases a
  {
    if a >= w { SameSlot(w, a - w, b - w); }
  }

  lemma {:induction false} RowLess(w: nat, i: nat, n: nat)
    requires w > 0 && i < n * w
    ensures Row(w, i) < n
    decreases i
  {
    if i >= w {
      assert n * w - w == (n - 1) * w;
      RowLess(w, i - w, n - 1);
    }
  }

  lemma {:induction false} RowBound(w: nat, i: nat, n: nat)
    requires w > 0 && Row(w, i) < n
    ensures i < n * w
    decreases i
  {
    assert n * w == (n - 1) * w + w;
    if i >= w { RowBound(w, i - w, n - 1); }
    else { assert (n - 1) * w >= 0; }
  }

  // Moving within a row.
  lemma {:induction false} RowColShift(w: nat, a: nat, d: nat)
    requires w > 0 && Col(w, a) + d < w
    ensures Row(w, a + d) == Row(w, a) && Col(w, a + d) == Col(w, a) + d
    decreases a
  {
    if a >= w { RowColShift(w, a - w, d); }
  }

  // Numbers in the same row differ by their columns.
  lemma {:induction false} SameRow(w: nat, a: nat, b: nat)
    requires w > 0 && Row(w, a) == Row(w, b)
    ensures a + Col(w, b) == b + Col(w, a)
    decreases a
  {
    if a >= w { SameRow(w, a - w, b - w); }
  }

  function CeilDiv(a: nat, w: nat): nat
    requires w > 0
  {
    Row(w, a + w - 1)
  }
}

// The image without its caches, its reference counts and the cluster allocator.

module Refcounts {
  import opened Basics
  import opened Arith
  import opened Layout

  const MAX_REFCOUNT: nat := 0xffff

  // BDRVQcowState without caches: `rc` is the plain map the refcount table and blocks stand for.
  datatype Img = Img(
    g: Geo,
    disk: Disk,
    table: seq<nat>,       // refcount table: cluster of each refcount block, 0 for none
    rc: seq<nat>,          // reference count of every cluster the table can describe
    freeIdx: nat,          // free_cluster_index
    freeByte: nat,         // free_byte_offset
    l1: seq<Entry>,
    l1At: nat,
    snaps: seq<Snapshot>,
    snapsAt: nat,
    snapsSize: nat,        // bytes in the snapshot table
    rtAt: nat,
    rtLen: nat)            // clusters of the refcount table itself
  {
    ghost predicate Shaped() {
      |disk| == |rc| == |table| * g.reach
    }

    function Blk(c: nat): nat { BlockRefs(table, |table|, c) }

    predicate HasBlock(c: nat) {
      Row(g.reach, c) < |table| && table[Row(g.reach, c)] != 0
    }

    // A cluster without a refcount block has count 0.
    ghost predicate Covered() {
      forall c: nat :: c < |rc| && rc[c] > 0 ==> HasBlock(c)
    }

    // Refcount blocks are themselves allocated.
    ghost predicate BlocksLive() {
      forall c: nat :: Blk(c) > 0 ==> c < |rc| && rc[c] > 0
    }

    ghost predicate Sound() {
      Shaped() && Covered() && BlocksLive() && 0 < |rc| && rc[0] > 0
    }
  }

  function RcOf(rc: seq<nat>, c: nat): nat
  {
    if c < |rc| then rc[c] else 0
  }

  predicate RunFree(rc: seq<nat>, f: nat, n: nat)
  {
    forall c: nat :: f <= c < f + n ==> RcOf(rc, c) == 0
  }

  // First fit at or after f; clusters past the table count as free.
  function FirstFit(rc: seq<nat>, f: nat, n: nat): nat
    decreases |rc| - f
  {
    if f >= |rc| || RunFree(rc, f, n) then f else FirstFit(rc, f + 1, n)
  }

  // The first run of n free clusters at or after f.
  lemma {:induction false} FirstFitSpec(rc: seq<nat>, f: nat, n: nat)
    ensures var x := FirstFit(rc, f, n); x >= f && RunFree(rc, x, n)
    ensures forall y: nat :: f <= y < FirstFit(rc, f, n) ==> !RunFree(rc, y, n)
    decreases |rc| - f
  {
    if f < |rc| && !RunFree(rc, f, n) { FirstFitSpec(rc, f + 1, n); }
  }

  // Create the refcount block that describes cluster c.  None: it would land outside the range it describes.
  function AddBlock(st: Img, c: nat): Option<Img>
    requires Row(st.g.reach, c) < |st.table| && |st.disk| == |st.rc|
  {
    var b := FirstFit(st.rc, st.freeIdx, 1);
    if b >= |st.rc| || Row(st.g.reach, b) != Row(st.g.reach, c) then None
    else Some(st.(table := st.table[Row(st.g.reach, c) := b], rc := st.rc[b := 1],
                  freeIdx := b + 1, disk := st.disk[b := Counts([])]))
  }

  function Bump(st: Img, c: nat, a: int): Option<Img>
    requires c < |st.rc|
  {
    var r := st.rc[c] + a;
    if r < 0 || r > MAX_REFCOUNT then None
    else Some(st.(rc := st.rc[c := r],
                  freeIdx := if r == 0 && c < st.freeIdx then c else st.freeIdx))
  }

  // update_cluster_refcount
  function Upd(st: Img, c: nat, a: int): Option<Img>
  {
    if c >= |st.rc| || |st.disk| != |st.rc| || Row(st.g.reach, c) >= |st.table| then None
    else if st.table[Row(st.g.reach, c)] != 0 then Bump(st, c, a)
    else if a < 0 then None
    else
      var st1 :- AddBlock(st, c);
      Bump(st1, c, a)
  }

  // update_refcount over n clusters
  function UpdRun(st: Img, lo: nat, n: nat, a: int): Option<Img>
    decreases n
  {
    if n == 0 then Some(st)
    else
      var st1 :- Upd(st, lo, a);
      UpdRun(st1, lo + 1, n - 1, a)
  }

  function Max1(n: nat): nat { if n == 0 then 1 else n }

  // alloc_clusters
  function Alloc(st: Img, n: nat): Option<(Img, nat)>
  {
    var x := FirstFit(st.rc, st.freeIdx, Max1(n));
    var st2 :- UpdRun(st.(freeIdx := x + Max1(n)), x, n, 1);
    Some((st2, if n == 0 then x + 1 else x))
  }

  // ----- what an allocation does -----

  // st' is st with the run [lo, lo + n) counted once more and possibly new refcount blocks,
  // each of which was free and lies at or after the allocator's position.
  ghost predicate Grown(st: Img, st': Img, lo: nat, n: nat)
  {
    && st' == st.(disk := st'.disk, table := st'.table, rc := st'.rc, freeIdx := st'.freeIdx)
    && |st'.disk| == |st.disk| && |st'.table| == |st.table| && |st'.rc| == |st.rc|
    && st'.freeIdx >= st.freeIdx
    && (forall k: nat :: k < |st.table| && st.table[k] != 0 ==> st'.table[k] == st.table[k])
    && (forall c: nat :: st'.Blk(c) >= st.Blk(c))
    && (forall c: nat :: c < |st.rc| ==> st'.rc[c] == st.rc[c] + InRun(c, lo, n) + st'.Blk(c) - st.Blk(c))
    && (forall c: nat :: st'.Blk(c) > st.Blk(c) ==>
          st.freeIdx <= c && 0 < c < |st.rc| && st.rc[c] == 0 && st.Blk(c) == 0 && st'.Blk(c) == 1 && !st.HasBlock(c))
    && (forall c: nat :: c < |st.disk| && st'.disk[c] != st.disk[c] ==> st'.Blk(c) > st.Blk(c))
    && (forall c: nat :: st'.Blk(c) > st.Blk(c) ==> c < |st.disk| && st'.disk[c] == Counts([]))
  }

  lemma AddBlockEffect(st: Img, c: nat, st': Img) returns (b: nat)
    requires st.Sound() && c < |st.rc| && Row(st.g.reach, c) < |st.table| && st.table[Row(st.g.reach, c)] == 0
    requires AddBlock(st, c) == Some(st')
    ensures 0 < b < |st.rc| && st.freeIdx <= b && st.rc[b] == 0 && st.Blk(b) == 0
    ensures Row(st.g.reach, b) == Row(st.g.reach, c)
    ensures st' == st.(table := st.table[Row(st.g.reach, c) := b], rc := st.rc[b := 1], freeIdx := b + 1,
                       disk := st.disk[b := Counts([])])
    ensures forall x: nat :: st'.Blk(x) == st.Blk(x) + B2N(b == x)
  {
    b := FirstFit(st.rc, st.freeIdx, 1);
    FirstFitSpec(st.rc, st.freeIdx, 1);
    assert RcOf(st.rc, b) == 0;
    forall x: nat ensures st'.Blk(x) == st.Blk(x) + B2N(b == x) {
      BlockRefsUpdate(st.table, |st.table|, Row(st.g.reach, c), b, x);
    }
  }

  lemma AddBlockStep(st: Img, c: nat, st': Img)
    requires st.Sound() && c < |st.rc| && Row(st.g.reach, c) < |st.table| && st.table[Row(st.g.reach, c)] == 0
    requires AddBlock(st, c) == Some(st')
    ensures st'.Sound() && st'.HasBlock(c)
    ensures Grown(st, st', c, 0)
    ensures st'.freeIdx > st.freeIdx
  {
    var b := AddBlockEffect(st, c, st');
    forall x: nat | x < |st'.rc| && st'.rc[x] > 0 ensures st'.HasBlock(x) {
      if x != b { assert st.HasBlock(x); }
    }
  }

  lemma BumpGrown(st: Img, c: nat, st': Img)
    requires st.Sound() && c < |st.rc| && st.HasBlock(c) && Bump(st, c, 1) == Some(st')
    ensures st'.Sound() && Grown(st, st', c, 1)
  {
    forall x: nat | x < |st'.rc| && st'.rc[x] > 0 ensures st'.HasBlock(x) {
      if x != c { assert st.HasBlock(x); }
    }
    forall x: nat ensures st'.Blk(x) == st.Blk(x) {}
  }

  lemma GrownTrans(a: Img, b: Img, c: Img, lo: nat, m: nat, n: nat)
    requires Grown(a, b, lo, m) && Grown(b, c, lo + m, n)
    ensures Grown(a, c, lo, m + n)
  {
  }

  lemma UpdGrown(st: Img, c: nat, st': Img)
    requires st.Sound() && Upd(st, c, 1) == Some(st')
    ensures st'.Sound() && Grown(st, st', c, 1)
  {
    if st.HasBlock(c) {
      BumpGrown(st, c, st');
    } else {
      var st1 := AddBlock(st, c).value;
      AddBlockStep(st, c, st1);
      BumpGrown(st1, c, st');
      GrownTrans(st, st1, st', c, 0, 1);
    }
  }

  lemma GrownNone(st: Img, lo: nat)
    ensures Grown(st, st, lo, 0)
  {
  }

  lemma {:induction false} RunGrown(st: Img, lo: nat, n: nat, st': Img)
    requires st.Sound() && UpdRun(st, lo, n, 1) == Some(st')
    ensures st'.Sound() && Grown(st, st', lo, n)
    decreases n
  {
    hide Upd, Grown, Img.Sound;
    if n > 0 {
      var st1 := Upd(st, lo, 1).value;
      UpdGrown(st, lo, st1);
      RunGrown(st1, lo + 1, n - 1, st');
      GrownTrans(st, st1, st', lo, 1, n - 1);
    } else {
      GrownNone(st, lo);
    }
  }

  lemma {:induction false} RunInside(st: Img, lo: nat, n: nat, a: int, st': Img)
    requires UpdRun(st, lo, n, a) == Some(st') && n > 0
    ensures lo + n <= |st.rc|
    decreases n
  {
    if n > 1 {
      var st1 := Upd(st, lo, a).value;
      RunInside(st1, lo + 1, n - 1, a, st');
    }
  }

  // What alloc_clusters promises: a run that was free and is now counted once; every other count
  // is unchanged, except for new refcount blocks, which were free and lie outside the run.
  ghost predicate Allocated(st: Img, st': Img, x: nat, n: nat)
  {
    && st' == st.(disk := st'.disk, table := st'.table, rc := st'.rc, freeIdx := st'.freeIdx)
    && |st'.disk| == |st.disk| && |st'.table| == |st.table| && |st'.rc| == |st.rc|
    && (n > 0 ==> 0 < x && x + n <= |st.rc|)
    && (forall c: nat :: x <= c < x + n ==> st.rc[c] == 0 && st'.rc[c] == 1 && st.Blk(c) == 0 && st'.Blk(c) == 0)
    && (forall c: nat :: st'.Blk(c) >= st.Blk(c))
    && (forall c: nat :: c < |st.rc| ==> st'.rc[c] == st.rc[c] + InRun(c, x, n) + st'.Blk(c) - st.Blk(c))
    && (forall c: nat :: st'.Blk(c) > st.Blk(c) ==>
          0 < c < |st.rc| && st.rc[c] == 0 && st.Blk(c) == 0 && st'.Blk(c) == 1 && !st.HasBlock(c) &&
            InRun(c, x, n) == 0)
    && (forall c: nat :: c < |st.disk| && st'.disk[c] != st.disk[c] ==> st'.Blk(c) > st.Blk(c))
  }

  lemma MoveSound(st: Img, f: nat)
    requires st.Sound()
    ensures st.(freeIdx := f).Sound()
    ensures forall c: nat :: st.(freeIdx := f).Blk(c) == st.Blk(c)
  {
    var st1 := st.(freeIdx := f);
    forall c: nat ensures st1.Blk(c) == st.Blk(c) && st1.HasBlock(c) == st.HasBlock(c) {}
  }

  lemma GrownAllocated(st: Img, f: nat, x: nat, n: nat, st': Img)
    requires st.Sound() && Grown(st.(freeIdx := f), st', x, n) && f >= x + n
    requires n > 0 ==> x + n <= |st.rc|
    requires forall c: nat :: x <= c < x + n ==> RcOf(st.rc, c) == 0
    ensures Allocated(st, st', x, n)
  {
    var st1 := st.(freeIdx := f);
    assert forall c: nat :: st1.Blk(c) == st.Blk(c);
    forall c: nat | x <= c < x + n
      ensures st.rc[c] == 0 && st'.rc[c] == 1 && st.Blk(c) == 0 && st'.Blk(c) == 0
    {
      assert RcOf(st.rc, c) == 0;
      assert InRun(c, x, n) == 1;
    }
    if n > 0 { assert RcOf(st.rc, x) == 0; }
  }

  lemma GrownEmpty(st: Img, st': Img, x: nat, y: nat)
    requires Grown(st, st', x, 0)
    ensures Grown(st, st', y, 0)
  {
  }

  lemma AllocGrown(st: Img, n: nat, st': Img, x: nat) returns (f: nat)
    requires st.Sound() && Alloc(st, n) == Some((st', x))
    ensures f >= x + n
    ensures st'.Sound() && Grown(st.(freeIdx := f), st', x, n)
    ensures n > 0 ==> x + n <= |st.rc| && x == FirstFit(st.rc, st.freeIdx, n)
  {
    var x0 := FirstFit(st.rc, st.freeIdx, Max1(n));
    f := x0 + Max1(n);
    var st1 := st.(freeIdx := f);
    assert UpdRun(st1, x0, n, 1) == Some(st');
    MoveSound(st, f);
    RunGrown(st1, x0, n, st');
    if n > 0 { RunInside(st1, x0, n, 1, st'); } else { GrownEmpty(st1, st', x0, x); }
  }

  lemma AllocSpec(st: Img, n: nat, st': Img, x: nat)
    requires st.Sound() && Alloc(st, n) == Some((st', x))
    ensures st'.Sound() && Allocated(st, st', x, n)
    ensures n > 0 ==> x == FirstFit(st.rc, st.freeIdx, n)
  {
    var f := AllocGrown(st, n, st', x);
    FirstFitSpec(st.rc, st.freeIdx, n);
    GrownAllocated(st, f, x, n, st');
  }

  // ----- what freeing does -----

  ghost predicate Dropped(st: Img, st': Img, lo: nat, n: nat)
  {
    && st' == st.(rc := st'.rc, freeIdx := st'.freeIdx)
    && |st'.rc| == |st.rc|
    && (n > 0 ==> lo + n <= |st.rc|)
    && (forall c: nat :: c < |st.rc| ==> st'.rc[c] == st.rc[c] - InRun(c, lo, n))
    && st'.freeIdx <= st.freeIdx
    && (forall c: nat :: lo <= c < lo + n && st'.rc[c] == 0 ==> st'.freeIdx <= c)
  }

  lemma {:induction false} FreeSpec(st: Img, lo: nat, n: nat, st': Img)
    requires UpdRun(st, lo, n, -1) == Some(st')
    ensures Dropped(st, st', lo, n)
    decreases n
  {
    if n > 0 {
      var st1 := Upd(st, lo, -1).value;
      FreeSpec(st1, lo + 1, n - 1, st');
    }
  }

  // Freeing counted clusters always succeeds.
  lemma {:induction false} FreeSucceeds(st: Img, lo: nat, n: nat)
    requires st.Shaped() && st.Covered() && lo + n <= |st.rc|
    requires forall c: nat :: lo <= c < lo + n ==> 0 < st.rc[c] <= MAX_REFCOUNT
    ensures UpdRun(st, lo, n, -1).Some?
    decreases n
  {
    if n > 0 {
      assert st.HasBlock(lo);
      var st1 := Upd(st, lo, -1).value;
      forall c: nat | c < |st1.rc| && st1.rc[c] > 0 ensures st1.HasBlock(c) { assert st.HasBlock(c); }
      FreeSucceeds(st1, lo + 1, n - 1);
    }
  }
}

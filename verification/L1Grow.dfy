// grow_l1_table

module L1Grow {
  import opened Basics
  import opened Layout
  import opened Refcounts
  import opened Invariant
  import opened GuestWrite
  import opened L1Table
  import opened SnapshotGoto
  import opened TableMoves

  function GrownSize(size: nat, min: nat): (r: nat)
    requires size > 0
    ensures r >= size && r >= min
    decreases min - size
  {
    if min <= size then size else GrownSize((size * 3 + 1) / 2, min)
  }

  function Padded(l1: seq<Entry>, size: nat): (r: seq<Entry>)
    requires size >= |l1|
    ensures |r| == size && r[..|l1|] == l1 && forall i :: |l1| <= i < size ==> r[i] == Zero
  {
    l1 + seq(size - |l1|, _ => Zero)
  }

  function GrowL1(st: Img, min: nat): Option<Img>
  {
    if min <= |st.l1| then Some(st)
    else if |st.l1| == 0 then None
    else
      var l1 := Padded(st.l1, GrownSize(|st.l1|, min));
      var (st1, at) :- Alloc(st, L1Clusters(st.g, |l1|));
      var st2 :- UpdRun(st1.(disk := StoreL1(st.g, st1.disk, at, l1)), st.l1At, L1Clusters(st.g, |st.l1|), -1);
      Some(st2.(l1 := l1, l1At := at))
  }

  lemma {:induction false} PaddedRefs(g: Geo, d: Disk, l1: seq<Entry>, l1': seq<Entry>, n: nat, c: nat)
    requires |l1| <= |l1'| && n <= |l1'| && l1'[..|l1|] == l1 && forall i :: |l1| <= i < |l1'| ==> l1'[i] == Zero
    ensures TreeRefs(g, d, l1', n, c) == TreeRefs(g, d, l1, Min(n, |l1|), c)
  {
    if n > 0 {
      PaddedRefs(g, d, l1, l1', n - 1, c);
      if n <= |l1| { assert l1'[n - 1] == l1'[..|l1|][n - 1]; }
    }
  }

  ghost predicate Lengthened(st: Img, st': Img, at: nat)
  {
    && |st'.l1| > |st.l1| && st'.l1 == Padded(st.l1, |st'.l1|)
    && Exchanged(st, st', at, L1Clusters(st.g, |st'.l1|), st.l1At, L1Clusters(st.g, |st.l1|))
    && st' == st.(disk := st'.disk, table := st'.table, rc := st'.rc, freeIdx := st'.freeIdx, l1 := st'.l1, l1At := at)
    && Stored(st'.g, st'.disk, at, st'.l1)
  }

  lemma GrowSpec(st: Img, min: nat, st': Img) returns (at: nat)
    requires Inv(st) && GrowL1(st, min) == Some(st') && min > |st.l1|
    ensures Lengthened(st, st', at) && |st'.l1| >= min
  {
    InvSound(st);
    var l1 := Padded(st.l1, GrownSize(|st.l1|, min));
    var n := L1Clusters(st.g, |l1|);
    var st1 := Alloc(st, n).value.0;
    at := Alloc(st, n).value.1;
    AllocSpec(st, n, st1, at);
    var d := StoreL1(st.g, st1.disk, at, l1);
    ClustersStep(st.g, |l1|);
    StoreStored(st.g, st1.disk, at, l1);
    forall x: nat | x < |d| && InRun(x, at, n) == 0
      ensures d[x] == st1.disk[x]
    {
      StoreOutside(st.g, st1.disk, at, l1, x);
    }
    var st2 := UpdRun(st1.(disk := d), st.l1At, L1Clusters(st.g, |st.l1|), -1).value;
    ExchangeSpec(st, st1, d, at, n, st.l1At, L1Clusters(st.g, |st.l1|), st2);
    ExchangedCarry(st, st2, st', at, n, st.l1At, L1Clusters(st.g, |st.l1|));
  }

  lemma LengthenedTrees(st: Img, st': Img, at: nat)
    requires Inv(st) && Lengthened(st, st', at)
    ensures TreeOk(st'.g, st'.disk, st'.l1) && SavedOk(st')
    ensures forall c: nat :: ActiveRefs(st', c) == ActiveRefs(st, c)
    ensures forall c: nat :: SavedRefs(st', c) == SavedRefs(st, c)
  {
    ExchangedTrees(st, st', at, L1Clusters(st.g, |st'.l1|), st.l1At, L1Clusters(st.g, |st.l1|));
    forall c: nat ensures ActiveRefs(st', c) == ActiveRefs(st, c) {
      PaddedRefs(st.g, st'.disk, st.l1, st'.l1, |st'.l1|, c);
    }
    forall i: nat | i < |st'.l1| ensures SlotTyped(st'.g, st'.disk, st'.l1[i]) {
      if i < |st.l1| { assert st'.l1[i] == st.l1[i]; assert SlotTyped(st.g, st'.disk, st.l1[i]); }
    }
    forall i: nat | i < |st'.l1| && st'.l1[i].Plain?
      ensures TreeRefs(st'.g, st'.disk, st'.l1, |st'.l1|, st'.l1[i].at) == 1
    {
      assert st'.l1[i] == st.l1[i];
      assert ActiveRefs(st', st.l1[i].at) == TreeRefs(st.g, st'.disk, st.l1, |st.l1|, st.l1[i].at);
    }
    forall i: nat, j: nat | i < |st'.l1| && L2Word(st'.disk, st'.l1[i], j).Plain?
      ensures TreeRefs(st'.g, st'.disk, st'.l1, |st'.l1|, L2Word(st'.disk, st'.l1[i], j).at) == 1
    {
      assert st'.l1[i] == st.l1[i];
      var c := L2Word(st'.disk, st.l1[i], j).at;
      assert ActiveRefs(st', c) == TreeRefs(st.g, st'.disk, st.l1, |st.l1|, c);
    }
  }

  lemma LengthenedCounts(st: Img, st': Img, at: nat)
    requires Inv(st) && Lengthened(st, st', at)
    ensures Exact(st') && MetaOnce(st')
  {
    var n, lo, m := L1Clusters(st.g, |st'.l1|), st.l1At, L1Clusters(st.g, |st.l1|);
    LengthenedTrees(st, st', at);
    forall c: nat ensures RcOf(st'.rc, c) == Refs(st', c) + st'.Blk(c) {
      assert RcOf(st.rc, c) == Refs(st, c) + st.Blk(c);
    }
    LengthenedMeta(st, st', at);
  }

  lemma LengthenedMeta(st: Img, st': Img, at: nat)
    requires Inv(st) && Lengthened(st, st', at)
    ensures MetaOnce(st')
  {
    var n, lo, m := L1Clusters(st.g, |st'.l1|), st.l1At, L1Clusters(st.g, |st.l1|);
    forall c: nat | RcOf(st.rc, c) == 1 && InRun(c, lo, m) == 0
      ensures RcOf(st'.rc, c) == 1
    {
      ExchangedCount(st, st', at, n, lo, m, c);
    }
    forall q: nat, c: nat | q < |st'.snaps| && InRun(c, st'.snaps[q].l1At, L1Clusters(st'.g, st'.snaps[q].l1Size)) > 0
      ensures RcOf(st'.rc, c) == 1
    {
      SnapRunAlone(st, q, q, c);
    }
    forall c: nat | Fixed(st', c) > 0
      ensures RcOf(st'.rc, c) == 1
    {
      assert Fixed(st, c) > 0; assert RcOf(st.rc, c) == 1;
    }
  }

  lemma LengthenedFlags(st: Img, st': Img, at: nat)
    requires Inv(st) && Lengthened(st, st', at)
    ensures Flagged(st')
  {
    var n, lo, m := L1Clusters(st.g, |st'.l1|), st.l1At, L1Clusters(st.g, |st.l1|);
    forall c: nat | InRun(c, lo, m) > 0 ensures ActiveRefs(st, c) == 0 { RunAlone(st, c); }
    forall i: nat | i < |st'.l1| && st'.l1[i].Plain? ensures st'.l1[i].copied <==> RcOf(st'.rc, st'.l1[i].at) == 1 {
      assert st'.l1[i] == st.l1[i];
      ExchangedFlags(st, st', at, n, lo, m, i, 0);
    }
    forall i: nat, j: nat | i < |st'.l1| && L2Word(st'.disk, st'.l1[i], j).Plain?
      ensures L2Word(st'.disk, st'.l1[i], j).copied <==> RcOf(st'.rc, L2Word(st'.disk, st'.l1[i], j).at) == 1
    {
      assert st'.l1[i] == st.l1[i];
      ExchangedFlags(st, st', at, n, lo, m, i, j);
    }
  }

  // Growing the L1 table keeps the invariant and what every reader sees.
  lemma GrowCorrect(env: Env, st: Img, min: nat, st': Img)
    requires Inv(st) && GrowL1(st, min) == Some(st')
    ensures Inv(st') && SavedKept(env, st, st') && SameView(env, st, st') && st'.g == st.g && |st'.l1| >= min
  {
    if min > |st.l1| {
      var at := GrowSpec(st, min, st');
      LengthenedTrees(st, st', at);
      LengthenedCounts(st, st', at);
      LengthenedFlags(st, st', at);
      LengthenedViews(env, st, st', at);
    }
  }

  lemma LengthenedViews(env: Env, st: Img, st': Img, at: nat)
    requires Inv(st) && Lengthened(st, st', at)
    ensures SavedKept(env, st, st') && SameView(env, st, st')
  {
    ExchangedViews(env, st, st', at, L1Clusters(st.g, |st'.l1|), st.l1At, L1Clusters(st.g, |st.l1|));
    forall i: nat, j: nat, k: nat ensures View(env, st', i, j, k) == View(env, st, i, j, k) {
      assert SlotAt(st'.l1, i) == SlotAt(st.l1, i);
      assert TreeView(env, st.g, st'.disk, st.l1, i, j, k) == View(env, st, i, j, k);
    }
  }
}

// qcow_snapshot_delete, up to rewriting the snapshot table.

module SnapshotDelete {
  import opened Basics
  import opened Layout
  import opened Refcounts
  import opened Invariant
  import opened GuestWrite
  import opened Walk
  import opened Snapshots
  import opened SnapshotGoto

  // Drop every reference held by snapshot q, recompute the active flags and forget the snapshot.
  function DropSnap(st: Img, q: nat): Option<Img>
  {
    if q >= |st.snaps| then None
    else
      var s := st.snaps[q];
      var st1 :- WalkSnap(st, q, -1);
      var st2 :- WalkActive(st1, 0);
      var st3 :- UpdRun(st2, s.l1At, L1Clusters(st.g, s.l1Size), -1);
      Some(st3.(snaps := Without(st.snaps, q)))
  }

  lemma SnapWalkable(st: Img, q: nat)
    requires Inv(st) && q < |st.snaps|
    ensures Walkable(st, st.snaps[q].l1At, SnapL1(st.g, st.disk, st.snaps[q]))
  {
    var l1 := SnapL1(st.g, st.disk, st.snaps[q]);
    assert SnapOk(st.g, st.disk, st.snaps[q]);
    forall c: nat | TreeRefs(st.g, st.disk, l1, |l1|, c) > 0 ensures st.HasBlock(c) {
      SnapTreeRefs(st, q, c);
      assert RcOf(st.rc, c) > 0;
    }
    forall x: nat | InRun(x, st.snaps[q].l1At, L1Clusters(st.g, |l1|)) > 0
      ensures TreeRefs(st.g, st.disk, l1, |l1|, x) == 0
    {
      SnapRunAlone(st, q, q, x);
    }
  }

  // After walking the snapshot: only COPIED flags and counts changed.
  ghost predicate Unsaved(st: Img, q: nat, st1: Img)
    requires q < |st.snaps|
  {
    && st1 == st.(disk := st1.disk, rc := st1.rc, freeIdx := st1.freeIdx) && |st1.rc| == |st.rc|
    && SameTables(st, st1)
    && (forall c: nat :: c < |st.rc| ==> st1.rc[c] == st.rc[c] - SnapTree(st, q, c))
    && Stored(st.g, st1.disk, st.l1At, st.l1)
  }

  lemma UnsaveSpec(st: Img, q: nat, st1: Img)
    requires Inv(st) && q < |st.snaps| && WalkSnap(st, q, -1) == Some(st1)
    ensures Unsaved(st, q, st1)
  {
    var s := st.snaps[q];
    var l1 := SnapL1(st.g, st.disk, s);
    SnapWalkable(st, q);
    var (w, l1') := WalkL1(st, l1, 0, -1).value;
    RewalkSpec(st, s.l1At, l1, -1, w, l1');
    assert st1 == WriteBack(w, s.l1At, l1, l1');
    forall x: nat | x < |st.disk| && InRun(x, st.l1At, L1Clusters(st.g, |st.l1|)) > 0
      ensures st.disk[x] == st1.disk[x]
    {
      RunAlone(st, x);
      SnapTreeRefs(st, q, x);
      SnapsRefsAt(st.g, st.disk, st.snaps, |st.snaps|, q, x);
    }
    StoredFrame(st.g, st.disk, st1.disk, st.l1At, st.l1);
  }

  lemma UnsavedWalkable(st: Img, q: nat, st1: Img)
    requires Inv(st) && q < |st.snaps| && Unsaved(st, q, st1)
    ensures Walkable(st1, st1.l1At, st1.l1)
  {
    SameTablesKeep(st, st1);
    forall c: nat | TreeRefs(st1.g, st1.disk, st1.l1, |st1.l1|, c) > 0 ensures st1.HasBlock(c) {
      assert ActiveRefs(st1, c) == ActiveRefs(st, c);
      assert RcOf(st.rc, c) > 0;
      assert st.HasBlock(c);
    }
    forall x: nat | InRun(x, st1.l1At, L1Clusters(st1.g, |st1.l1|)) > 0
      ensures TreeRefs(st1.g, st1.disk, st1.l1, |st1.l1|, x) == 0
    {
      RunAlone(st, x);
      assert ActiveRefs(st1, x) == ActiveRefs(st, x);
    }
  }

  ghost predicate Deleted(st: Img, q: nat, st': Img)
    requires q < |st.snaps|
  {
    && st' == st.(disk := st'.disk, rc := st'.rc, freeIdx := st'.freeIdx, l1 := st'.l1, snaps := Without(st.snaps, q))
    && |st'.rc| == |st.rc| && SameTables(st, st'.(snaps := st.snaps))
    && (forall c: nat :: c < |st.rc| ==> st'.rc[c] == st.rc[c] - SnapRefs(st.g, st.disk, st.snaps[q], c))
    && Stored(st'.g, st'.disk, st'.l1At, st'.l1) && Flagged(st')
  }

  lemma SameTablesTrans(a: Img, b: Img, c: Img)
    requires SameTables(a, b) && SameTables(b, c)
    ensures SameTables(a, c)
  {
    forall x: nat | x < |a.disk| ensures Same(a.disk[x], c.disk[x]) { SameTrans(a.disk[x], b.disk[x], c.disk[x]); }
    forall i: nat | i < |a.l1| ensures Strip(a.l1[i]) == Strip(c.l1[i]) { assert Strip(a.l1[i]) == Strip(b.l1[i]); }
  }

  lemma DropDeleted(st: Img, q: nat, st': Img)
    requires Inv(st) && DropSnap(st, q) == Some(st')
    ensures q < |st.snaps| && Deleted(st, q, st')
  {
    var s := st.snaps[q];
    var st1 := WalkSnap(st, q, -1).value;
    UnsaveSpec(st, q, st1);
    UnsavedWalkable(st, q, st1);
    var st2 := WalkActive(st1, 0).value;
    WalkActiveSpec(st1, 0, st2);
    SameTablesTrans(st, st1, st2);
    var st3 := UpdRun(st2, s.l1At, L1Clusters(st.g, s.l1Size), -1).value;
    FreeSpec(st2, s.l1At, L1Clusters(st.g, s.l1Size), st3);
    DropFlags(st, q, st2, st');
  }

  lemma DropFlags(st: Img, q: nat, st2: Img, st': Img)
    requires Inv(st) && q < |st.snaps| && SameTables(st, st2) && Flagged(st2)
    requires st'.g == st2.g && st'.disk == st2.disk && st'.l1 == st2.l1 && |st'.rc| == |st2.rc|
    requires forall c: nat :: c < |st2.rc| ==>
      st'.rc[c] == st2.rc[c] - InRun(c, st.snaps[q].l1At, L1Clusters(st.g, st.snaps[q].l1Size))
    ensures Flagged(st')
  {
    SameTablesKeep(st, st2);
    forall c: nat | ActiveRefs(st2, c) > 0 ensures RcOf(st'.rc, c) == RcOf(st2.rc, c) {
      assert ActiveRefs(st2, c) == ActiveRefs(st, c);
      if InRun(c, st.snaps[q].l1At, L1Clusters(st.g, st.snaps[q].l1Size)) > 0 { SnapRunAlone(st, q, q, c); }
    }
    forall i: nat | i < |st'.l1| && st'.l1[i].Plain? ensures st'.l1[i].copied <==> RcOf(st'.rc, st'.l1[i].at) == 1 {
      TreeRefsAt(st2.g, st2.disk, st2.l1, |st2.l1|, i, st2.l1[i].at);
    }
    forall i: nat, j: nat | i < |st'.l1| && L2Word(st'.disk, st'.l1[i], j).Plain?
      ensures L2Word(st'.disk, st'.l1[i], j).copied <==> RcOf(st'.rc, L2Word(st'.disk, st'.l1[i], j).at) == 1
    {
      WordRefs(st2, i, j, L2Word(st2.disk, st2.l1[i], j).at);
    }
  }

  // ----- the invariant -----

  lemma {:induction false} SnapsRefsBefore(g: Geo, d: Disk, snaps: seq<Snapshot>, q: nat, n: nat, c: nat)
    requires q < |snaps| && n <= q
    ensures SnapsRefs(g, d, Without(snaps, q), n, c) == SnapsRefs(g, d, snaps, n, c)
  {
    if n > 0 { SnapsRefsBefore(g, d, snaps, q, n - 1, c); }
  }

  lemma {:induction false} SnapsRefsWithout(g: Geo, d: Disk, snaps: seq<Snapshot>, q: nat, n: nat, c: nat)
    requires q <= n < |snaps|
    ensures SnapsRefs(g, d, Without(snaps, q), n, c) + SnapRefs(g, d, snaps[q], c) == SnapsRefs(g, d, snaps, n + 1, c)
  {
    if n == q { SnapsRefsBefore(g, d, snaps, q, n, c); } else { SnapsRefsWithout(g, d, snaps, q, n - 1, c); }
  }

  lemma DeletedRefs(st: Img, q: nat, st': Img, c: nat)
    requires Inv(st) && q < |st.snaps| && Deleted(st, q, st')
    ensures ActiveRefs(st', c) == ActiveRefs(st, c)
    ensures SavedRefs(st', c) == SavedRefs(st, c) - SnapRefs(st.g, st.disk, st.snaps[q], c)
  {
    var mid := st'.(snaps := st.snaps);
    SameTablesRefs(st, mid, c);
    SavedWithout(mid, st', q, c);
    SnapFrame(st.g, st.disk, st'.disk, st.snaps[q], c);
  }

  lemma SameTablesRefs(st: Img, mid: Img, c: nat)
    requires TreeOk(st.g, st.disk, st.l1) && SavedOk(st) && SameTables(st, mid)
    ensures ActiveRefs(mid, c) == ActiveRefs(st, c) && SavedRefs(mid, c) == SavedRefs(st, c)
  {
    SameTablesKeep(st, mid);
  }

  lemma SavedWithout(mid: Img, st': Img, q: nat, c: nat)
    requires q < |mid.snaps| && st' == mid.(snaps := Without(mid.snaps, q))
    ensures SavedRefs(st', c) + SnapRefs(mid.g, mid.disk, mid.snaps[q], c) == SavedRefs(mid, c)
  {
    SnapsRefsWithout(mid.g, mid.disk, mid.snaps, q, |mid.snaps| - 1, c);
  }

  lemma DeletedExact(st: Img, q: nat, st': Img)
    requires Inv(st) && q < |st.snaps| && Deleted(st, q, st')
    ensures Exact(st') && st'.Covered()
  {
    assert forall c: nat :: st'.Blk(c) == st.Blk(c);
    forall c: nat ensures RcOf(st'.rc, c) == Refs(st', c) + st'.Blk(c) {
      DeletedRefs(st, q, st', c);
      SnapsRefsAt(st.g, st.disk, st.snaps, |st.snaps|, q, c);
      assert RcOf(st.rc, c) == Refs(st, c) + st.Blk(c);
    }
    forall c: nat | c < |st'.rc| && st'.rc[c] > 0 ensures st'.HasBlock(c) { assert st.HasBlock(c); }
  }

  function Shift(q: nat, k: nat): nat { if k < q then k else k + 1 }

  lemma DeletedMeta(st: Img, q: nat, st': Img)
    requires Inv(st) && q < |st.snaps| && Deleted(st, q, st')
    ensures MetaOnce(st')
  {
    forall c: nat | InRun(c, st.l1At, L1Clusters(st.g, |st.l1|)) + st.Blk(c) + Fixed(st, c) > 0
      ensures RcOf(st'.rc, c) == 1
    {
      RunAlone(st, c);
      SnapsRefsAt(st.g, st.disk, st.snaps, |st.snaps|, q, c);
    }
    assert forall c: nat :: st'.Blk(c) == st.Blk(c) && Fixed(st', c) == Fixed(st, c);
    forall k: nat, c: nat | k < |st'.snaps| && InRun(c, st'.snaps[k].l1At, L1Clusters(st'.g, st'.snaps[k].l1Size)) > 0
      ensures RcOf(st'.rc, c) == 1
    {
      assert st'.snaps[k] == st.snaps[Shift(q, k)];
      OtherRun(st, q, Shift(q, k), c);
    }
  }

  lemma DeletedTrees(st: Img, q: nat, st': Img)
    requires Inv(st) && q < |st.snaps| && Deleted(st, q, st')
    ensures SavedOk(st') && TreeOk(st'.g, st'.disk, st'.l1)
  {
    var mid := st'.(snaps := st.snaps);
    SameTablesKeep(st, mid);
    forall k: nat | k < |st'.snaps| ensures SnapOk(st'.g, st'.disk, st'.snaps[k]) {
      assert st'.snaps[k] == st.snaps[Shift(q, k)];
      assert SnapOk(mid.g, mid.disk, mid.snaps[Shift(q, k)]);
    }
  }

  // Another snapshot's L1 clusters hold no reference from snapshot q.
  lemma OtherRun(st: Img, q: nat, k: nat, c: nat)
    requires Inv(st) && q < |st.snaps| && k < |st.snaps| && k != q
    requires InRun(c, st.snaps[k].l1At, L1Clusters(st.g, st.snaps[k].l1Size)) > 0
    ensures RcOf(st.rc, c) == 1 && SnapRefs(st.g, st.disk, st.snaps[q], c) == 0
  {
    SnapRunAlone(st, k, q, c);
    if q < k { SnapsRefsAt2(st.g, st.disk, st.snaps, |st.snaps|, q, k, c); }
    else { SnapsRefsAt2(st.g, st.disk, st.snaps, |st.snaps|, k, q, c); }
  }

  // Deleting a snapshot changes what no reader of the active image or of another snapshot sees.
  lemma DropCorrect(env: Env, st: Img, q: nat, st': Img)
    requires Inv(st) && DropSnap(st, q) == Some(st')
    ensures Inv(st') && st'.g == st.g && |st'.l1| == |st.l1|
    ensures q < |st.snaps| && st'.snaps == Without(st.snaps, q)
    ensures SameView(env, st, st')
    ensures forall k: nat :: k < |st'.snaps| ==> SnapKept(env, st, Shift(q, k), st', k)
  {
    DropDeleted(st, q, st');
    DeletedExact(st, q, st');
    DeletedMeta(st, q, st');
    DeletedTrees(st, q, st');
    DeletedViews(env, st, q, st');
  }

  lemma DeletedViews(env: Env, st: Img, q: nat, st': Img)
    requires Inv(st) && q < |st.snaps| && Deleted(st, q, st')
    ensures SameView(env, st, st')
    ensures forall k: nat :: k < |st'.snaps| ==> SnapKept(env, st, Shift(q, k), st', k)
  {
    var mid := st'.(snaps := st.snaps);
    forall i: nat, j: nat, k: nat ensures View(env, st', i, j, k) == View(env, st, i, j, k) {
      SameTablesView(env, st, mid, i, j, k);
    }
    SavedViews(env, st, mid);
    forall k: nat | k < |st'.snaps| ensures SnapKept(env, st, Shift(q, k), st', k) {
      assert st'.snaps[k] == st.snaps[Shift(q, k)];
      assert SnapKept(env, st, Shift(q, k), mid, Shift(q, k));
      forall a: nat, b: nat, s: nat ensures SnapView(env, st', k, a, b, s) == SnapView(env, st, Shift(q, k), a, b, s) {
        assert SnapView(env, mid, Shift(q, k), a, b, s) == SnapView(env, st, Shift(q, k), a, b, s);
      }
    }
  }
}

// qcow_snapshot_goto between L1 tables of equal size.

module SnapshotGoto {
  import opened Basics
  import opened Layout
  import opened Refcounts
  import opened Invariant
  import opened GuestWrite
  import opened L1Table
  import opened Snapshots

  // Load snapshot q's L1 table into memory and write it over the active one.
  function LoadSnap(st: Img, q: nat): Img
    requires q < |st.snaps|
  {
    var l1 := SnapL1(st.g, st.disk, st.snaps[q]);
    st.(l1 := l1, disk := StoreL1(st.g, st.disk, st.l1At, l1))
  }

  function GotoSnap(st: Img, q: nat): Option<Img>
  {
    if q >= |st.snaps| || st.snaps[q].l1Size != |st.l1| then None
    else
      var st1 :- WalkActive(st, -1);
      if q >= |st1.snaps| then None else
      WalkActive(LoadSnap(st1, q), 1)
  }

  // Clusters of the active L1 table, of the refcount blocks and of the fixed tables are in no tree.
  lemma RunAlone(st: Img, x: nat)
    requires Inv(st) && InRun(x, st.l1At, L1Clusters(st.g, |st.l1|)) + st.Blk(x) + Fixed(st, x) > 0
    ensures RcOf(st.rc, x) == 1 && ActiveRefs(st, x) == 0 && SavedRefs(st, x) == 0
  {
    assert RcOf(st.rc, x) == 1;
  }

  // References from the tree (not the L1 table) of snapshot q.
  function SnapTree(st: Img, q: nat, c: nat): nat
    requires q < |st.snaps|
  {
    TreeRefs(st.g, st.disk, SnapL1(st.g, st.disk, st.snaps[q]), st.snaps[q].l1Size, c)
  }

  lemma SnapTreeRefs(st: Img, q: nat, c: nat)
    requires q < |st.snaps|
    ensures SnapTree(st, q, c) <= SavedRefs(st, c)
  {
    SnapsRefsAt(st.g, st.disk, st.snaps, |st.snaps|, q, c);
  }

  lemma SnapTreeSame(st: Img, st1: Img, q: nat, c: nat)
    requires SameTables(st, st1) && q < |st.snaps|
    ensures SnapTree(st1, q, c) == SnapTree(st, q, c)
  {
    SnapFrame(st.g, st.disk, st1.disk, st.snaps[q], c);
    TreeFrame(st.g, st.disk, st1.disk, SnapL1(st.g, st.disk, st.snaps[q]), SnapL1(st.g, st1.disk, st.snaps[q]),
              st.snaps[q].l1Size, c);
  }

  // After the first walk: tables as before, counts without the active tree.
  ghost predicate Unlinked(st: Img, st1: Img)
  {
    && st1 == st.(disk := st1.disk, rc := st1.rc, freeIdx := st1.freeIdx, l1 := st1.l1) && |st1.rc| == |st.rc|
    && SameTables(st, st1) && SavedOk(st1)
    && Stored(st.g, st1.disk, st.l1At, st1.l1)
    && (forall c: nat :: SavedRefs(st1, c) == SavedRefs(st, c))
    && (forall c: nat :: c < |st.rc| ==> st1.rc[c] == st.rc[c] - ActiveRefs(st, c))
  }

  lemma UnlinkSpec(st: Img, st1: Img)
    requires Inv(st) && WalkActive(st, -1) == Some(st1)
    ensures Unlinked(st, st1)
  {
    InvWalkable(st);
    WalkActiveSpec(st, -1, st1);
    SameTablesKeep(st, st1);
  }

  lemma LoadDisk(st: Img, st1: Img, q: nat, x: nat)
    requires Inv(st) && Unlinked(st, st1) && q < |st.snaps| && st.snaps[q].l1Size == |st.l1| && x < |st.disk|
    ensures SavedRefs(st, x) > 0 ==> LoadSnap(st1, q).disk[x] == st1.disk[x]
  {
    if SavedRefs(st, x) > 0 {
      assert InRun(x, st.l1At, L1Clusters(st.g, |st.l1|)) == 0;
      StoreOutside(st.g, st1.disk, st.l1At, SnapL1(st.g, st1.disk, st.snaps[q]), x);
    }
  }

  // After loading, the active tree is the snapshot's tree.
  lemma LoadSpec(st: Img, st1: Img, q: nat)
    requires Inv(st) && Unlinked(st, st1) && q < |st.snaps| && st.snaps[q].l1Size == |st.l1|
    ensures var st2 := LoadSnap(st1, q);
      && TreeOk(st2.g, st2.disk, st2.l1) && SavedOk(st2)
      && (forall c: nat :: SavedRefs(st2, c) == SavedRefs(st, c))
      && (forall c: nat :: ActiveRefs(st2, c) == SnapTree(st, q, c))
  {
    var st2 := LoadSnap(st1, q);
    var l1 := SnapL1(st.g, st1.disk, st.snaps[q]);
    assert SnapOk(st1.g, st1.disk, st1.snaps[q]);
    forall x: nat | x < |st1.disk| && SavedRefs(st1, x) > 0 ensures Alike(st1.disk[x], st2.disk[x]) {
      LoadDisk(st, st1, q, x);
    }
    SavedFrame(st1, st2.disk);
    assert forall c: nat :: SavedRefs(st2, c) == SavedRefs(st1.(disk := st2.disk), c);
    forall k: nat | k < |st2.snaps| ensures SnapOk(st2.g, st2.disk, st2.snaps[k]) {
      assert SnapOk(st1.(disk := st2.disk).g, st1.(disk := st2.disk).disk, st1.(disk := st2.disk).snaps[k]);
    }
    forall x: nat | x < |st1.disk| && TreeRefs(st1.g, st1.disk, l1, |l1|, x) > 0
      ensures Alike(st1.disk[x], st2.disk[x])
    {
      SnapTreeRefs(st1, q, x);
    }
    TreeOkFrame(st1.g, st1.disk, st2.disk, l1, l1);
    forall c: nat ensures ActiveRefs(st2, c) == SnapTree(st, q, c) { SnapTreeSame(st, st1, q, c); }
  }

  lemma LoadWalkable(st: Img, st1: Img, q: nat)
    requires Inv(st) && Unlinked(st, st1) && q < |st.snaps| && st.snaps[q].l1Size == |st.l1|
    ensures var st2 := LoadSnap(st1, q); Walkable(st2, st2.l1At, st2.l1)
  {
    var st2 := LoadSnap(st1, q);
    LoadSpec(st, st1, q);
    forall c: nat ensures ActiveRefs(st2, c) <= SavedRefs(st, c) { SnapTreeRefs(st, q, c); }
    forall c: nat | TreeRefs(st2.g, st2.disk, st2.l1, |st2.l1|, c) > 0 ensures st2.HasBlock(c) {
      assert ActiveRefs(st2, c) > 0;
      assert RcOf(st.rc, c) > 0;
      assert st.HasBlock(c);
    }
    if |st.l1| > 0 { ShapeBound(st.g, st.disk, st.l1At, |st.l1|); StoreStored(st.g, st1.disk, st.l1At, st2.l1); }
    forall x: nat | InRun(x, st2.l1At, L1Clusters(st2.g, |st2.l1|)) > 0
      ensures TreeRefs(st2.g, st2.disk, st2.l1, |st2.l1|, x) == 0
    {
      RunAlone(st, x);
      assert ActiveRefs(st2, x) == 0;
    }
  }

  // After both walks: the counts moved from the old active tree to snapshot q's tree.
  ghost predicate Moved(st: Img, q: nat, st': Img)
    requires q < |st.snaps|
  {
    && st' == st.(disk := st'.disk, rc := st'.rc, freeIdx := st'.freeIdx, l1 := st'.l1)
    && |st'.rc| == |st.rc| && |st'.disk| == |st.disk| && |st'.l1| == |st.l1|
    && TreeOk(st'.g, st'.disk, st'.l1) && SavedOk(st')
    && Stored(st'.g, st'.disk, st'.l1At, st'.l1) && Flagged(st')
    && (forall c: nat :: SavedRefs(st', c) == SavedRefs(st, c))
    && (forall c: nat :: ActiveRefs(st', c) == SnapTree(st, q, c))
    && (forall c: nat :: c < |st.rc| ==> st'.rc[c] == st.rc[c] - ActiveRefs(st, c) + SnapTree(st, q, c))
  }

  lemma GotoMoved(st: Img, st1: Img, q: nat, st': Img)
    requires Inv(st) && Unlinked(st, st1) && q < |st.snaps| && st.snaps[q].l1Size == |st.l1|
    requires WalkActive(LoadSnap(st1, q), 1) == Some(st')
    ensures Moved(st, q, st')
  {
    var st2 := LoadSnap(st1, q);
    LoadSpec(st, st1, q);
    LoadWalkable(st, st1, q);
    WalkActiveSpec(st2, 1, st');
    SameTablesKeep(st2, st');
  }

  lemma MovedExact(st: Img, q: nat, st': Img)
    requires Inv(st) && q < |st.snaps| && Moved(st, q, st')
    ensures Exact(st') && st'.Covered()
  {
    assert forall c: nat :: st'.Blk(c) == st.Blk(c);
    forall c: nat ensures RcOf(st'.rc, c) == Refs(st', c) + st'.Blk(c) {
      SnapTreeRefs(st, q, c);
      assert RcOf(st.rc, c) == Refs(st, c) + st.Blk(c);
    }
    forall c: nat | c < |st'.rc| && st'.rc[c] > 0 ensures st'.HasBlock(c) {
      SnapTreeRefs(st, q, c);
      assert RcOf(st.rc, c) > 0;
      assert st.HasBlock(c);
    }
  }

  lemma MovedMeta(st: Img, q: nat, st': Img)
    requires Inv(st) && q < |st.snaps| && Moved(st, q, st')
    ensures MetaOnce(st')
  {
    forall c: nat | InRun(c, st.l1At, L1Clusters(st.g, |st.l1|)) + st.Blk(c) + Fixed(st, c) > 0
      ensures RcOf(st'.rc, c) == 1
    {
      RunAlone(st, c);
      SnapTreeRefs(st, q, c);
    }
    assert forall c: nat :: st'.Blk(c) == st.Blk(c) && Fixed(st', c) == Fixed(st, c);
    forall k: nat, c: nat | k < |st'.snaps| && InRun(c, st'.snaps[k].l1At, L1Clusters(st'.g, st'.snaps[k].l1Size)) > 0
      ensures RcOf(st'.rc, c) == 1
    {
      SnapRunAlone(st, k, q, c);
    }
  }

  // A snapshot's L1 clusters are in no tree.
  lemma SnapRunAlone(st: Img, k: nat, q: nat, c: nat)
    requires Inv(st) && k < |st.snaps| && q < |st.snaps|
    requires InRun(c, st.snaps[k].l1At, L1Clusters(st.g, st.snaps[k].l1Size)) > 0
    ensures RcOf(st.rc, c) == 1 && ActiveRefs(st, c) == 0 && st.Blk(c) == 0 && SavedRefs(st, c) == 1
    ensures InRun(c, st.l1At, L1Clusters(st.g, |st.l1|)) == 0
    ensures SnapTree(st, q, c) == 0
  {
    SnapsRefsAt(st.g, st.disk, st.snaps, |st.snaps|, k, c);
    if q < k { SnapsRefsAt2(st.g, st.disk, st.snaps, |st.snaps|, q, k, c); }
    if k < q { SnapsRefsAt2(st.g, st.disk, st.snaps, |st.snaps|, k, q, c); }
    assert RcOf(st.rc, c) == 1;
  }

  lemma {:induction false} SnapsRefsAt2(g: Geo, d: Disk, snaps: seq<Snapshot>, n: nat, q: nat, r: nat, c: nat)
    requires q < r < n <= |snaps|
    ensures SnapsRefs(g, d, snaps, n, c) >= SnapRefs(g, d, snaps[q], c) + SnapRefs(g, d, snaps[r], c)
  {
    if r < n - 1 { SnapsRefsAt2(g, d, snaps, n - 1, q, r, c); } else { SnapsRefsAt(g, d, snaps, n - 1, q, c); }
  }

  lemma LoadViews(env: Env, st: Img, st1: Img, q: nat)
    requires Inv(st) && Unlinked(st, st1) && q < |st.snaps| && st.snaps[q].l1Size == |st.l1|
    ensures SavedKept(env, st, LoadSnap(st1, q))
    ensures forall i: nat, j: nat, k: nat :: View(env, LoadSnap(st1, q), i, j, k) == SnapView(env, st1, q, i, j, k)
  {
    var st2 := LoadSnap(st1, q);
    var l1 := SnapL1(st.g, st1.disk, st.snaps[q]);
    SavedViews(env, st, st1);
    forall x: nat | x < |st1.disk| && SavedRefs(st1, x) > 0
      ensures Same(st1.disk[x], st2.disk[x])
    {
      LoadDisk(st, st1, q, x);
    }
    SavedViews(env, st1, st2);
    SavedKeptTrans(env, st, st1, st2);
    forall i: nat, j: nat, k: nat ensures View(env, st2, i, j, k) == SnapView(env, st1, q, i, j, k) {
      forall x: nat | x < |st1.disk| && TreeRefs(st1.g, st1.disk, l1, |l1|, x) > 0
        ensures Same(st1.disk[x], st2.disk[x])
      {
        SnapTreeRefs(st1, q, x);
      }
      TreeViewFrame(env, st1.g, st1.disk, st2.disk, l1, l1, i, j, k);
    }
  }

  // Going back to a snapshot shows the active image exactly what the snapshot saved; no snapshot changes.
  lemma GotoCorrect(env: Env, st: Img, q: nat, st': Img)
    requires Inv(st) && GotoSnap(st, q) == Some(st')
    ensures Inv(st') && SavedKept(env, st, st') && st'.g == st.g && |st'.l1| == |st.l1|
    ensures q < |st.snaps| && forall i: nat, j: nat, k: nat :: View(env, st', i, j, k) == SnapView(env, st, q, i, j, k)
  {
    var st1 := WalkActive(st, -1).value;
    UnlinkSpec(st, st1);
    GotoMoved(st, st1, q, st');
    MovedExact(st, q, st');
    MovedMeta(st, q, st');
    GotoViews(env, st, st1, q, st');
  }

  lemma GotoViews(env: Env, st: Img, st1: Img, q: nat, st': Img)
    requires Inv(st) && Unlinked(st, st1) && q < |st.snaps| && st.snaps[q].l1Size == |st.l1|
    requires WalkActive(LoadSnap(st1, q), 1) == Some(st')
    ensures SavedKept(env, st, st')
    ensures forall i: nat, j: nat, k: nat :: View(env, st', i, j, k) == SnapView(env, st, q, i, j, k)
  {
    var st2 := LoadSnap(st1, q);
    LoadSpec(st, st1, q);
    LoadWalkable(st, st1, q);
    WalkActiveSpec(st2, 1, st');
    LoadViews(env, st, st1, q);
    SavedViews(env, st2, st');
    SavedKeptTrans(env, st, st2, st');
    SavedViews(env, st, st1);
    forall i: nat, j: nat, k: nat ensures View(env, st', i, j, k) == SnapView(env, st, q, i, j, k) {
      SameTablesView(env, st2, st', i, j, k);
      assert SnapKept(env, st, q, st1, q);
      assert View(env, st2, i, j, k) == SnapView(env, st1, q, i, j, k);
    }
  }
}

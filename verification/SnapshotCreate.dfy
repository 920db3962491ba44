// qcow_snapshot_create, up to rewriting the snapshot table.

module SnapshotCreate {
  import opened Basics
  import opened Layout
  import opened Refcounts
  import opened Invariant
  import opened GuestWrite
  import opened L1Table
  import opened Snapshots

  // Count every cluster of the active tree once more and save a copy of its L1 table.
  function AddSnap(st: Img, info: Info): Option<Img>
  {
    var st1 :- WalkActive(st, 1);
    var (st2, at) :- Alloc(st1, L1Clusters(st.g, |st.l1|));
    Some(st2.(disk := StoreL1(st.g, st2.disk, at, st2.l1),
              snaps := st2.snaps + [Snapshot(at, |st.l1|, info)]))
  }

  lemma WalkSound(st: Img, st1: Img)
    requires Inv(st) && |st1.rc| == |st.rc| && |st1.disk| == |st.disk| && st1.table == st.table && st1.g == st.g
    requires forall c: nat :: c < |st.rc| ==> st1.rc[c] == st.rc[c] + ActiveRefs(st, c)
    ensures st1.Sound()
    ensures forall c: nat :: st1.Blk(c) == st.Blk(c)
  {
    InvSound(st);
    forall c: nat | c < |st1.rc| && st1.rc[c] > 0 ensures st1.HasBlock(c) {
      assert RcOf(st.rc, c) >= ActiveRefs(st, c);
      assert st.HasBlock(c);
    }
    assert forall c: nat :: st1.Blk(c) == st.Blk(c);
  }

  // What AddSnap does, in one relation.
  ghost predicate Saved(st: Img, st1: Img, st': Img, at: nat)
  {
    var n := L1Clusters(st.g, |st.l1|);
    && SameTables(st, st1)
    && st1 == st.(disk := st1.disk, rc := st1.rc, freeIdx := st1.freeIdx, l1 := st1.l1) && |st1.rc| == |st.rc|
    && (forall c: nat :: c < |st.rc| ==> st1.rc[c] == st.rc[c] + ActiveRefs(st, c))
    && Flagged(st1) && Stored(st1.g, st1.disk, st1.l1At, st1.l1)
    && st' == st1.(disk := st'.disk, table := st'.table, rc := st'.rc, freeIdx := st'.freeIdx, snaps := st'.snaps)
    && |st'.disk| == |st.disk| && |st'.rc| == |st.rc| && |st'.table| == |st.table|
    && |st'.snaps| == |st.snaps| + 1 && st'.snaps[..|st.snaps|] == st.snaps
    && st'.snaps[|st.snaps|].l1At == at && st'.snaps[|st.snaps|].l1Size == |st.l1|
    && Stored(st.g, st'.disk, at, st1.l1)
    && (forall x: nat :: x < |st.disk| && st'.disk[x] != st1.disk[x] ==> Refs(st, x) == 0 && st.Blk(x) == 0)
    && (forall c: nat :: st'.Blk(c) >= st.Blk(c))
    && (forall c: nat :: st'.Blk(c) > st.Blk(c) ==> RcOf(st.rc, c) == 0 && RcOf(st'.rc, c) == 1)
    && (forall c: nat :: InRun(c, at, n) > 0 ==> RcOf(st.rc, c) == 0 && RcOf(st'.rc, c) == 1)
    && (forall c: nat :: c < |st.rc| ==>
          st'.rc[c] == st.rc[c] + ActiveRefs(st, c) + InRun(c, at, n) + st'.Blk(c) - st.Blk(c))
    && st'.Covered()
  }

  lemma AddSnapSaved(st: Img, info: Info, st': Img) returns (st1: Img, at: nat)
    requires Inv(st) && AddSnap(st, info) == Some(st')
    ensures Saved(st, st1, st', at)
    ensures st'.snaps == st.snaps + [Snapshot(at, |st.l1|, info)]
  {
    st1 := WalkActive(st, 1).value;
    InvWalkable(st);
    WalkActiveSpec(st, 1, st1);
    WalkSound(st, st1);
    var n := L1Clusters(st.g, |st.l1|);
    var st2 := Alloc(st1, n).value.0;
    at := Alloc(st1, n).value.1;
    AllocSpec(st1, n, st2, at);
    SaveDisk(st, st1, st2, at);
    SaveCounts(st, st1, st2, at, n, st');
  }

  ghost predicate Counted1(st: Img, st1: Img)
  {
    && st1 == st.(disk := st1.disk, rc := st1.rc, freeIdx := st1.freeIdx, l1 := st1.l1)
    && |st1.rc| == |st.rc| && |st1.disk| == |st.disk| && |st1.l1| == |st.l1|
    && (forall c: nat :: c < |st.rc| ==> st1.rc[c] == st.rc[c] + ActiveRefs(st, c))
    && (forall c: nat :: st1.Blk(c) == st.Blk(c))
  }

  lemma SaveDisk(st: Img, st1: Img, st2: Img, at: nat)
    requires Inv(st) && Counted1(st, st1) && Allocated(st1, st2, at, L1Clusters(st.g, |st.l1|))
    ensures var d' := StoreL1(st.g, st2.disk, at, st2.l1);
      && Stored(st.g, d', at, st1.l1)
      && forall x: nat :: x < |st.disk| && d'[x] != st1.disk[x] ==> Refs(st, x) == 0 && st.Blk(x) == 0
  {
    var n := L1Clusters(st.g, |st.l1|);
    var d' := StoreL1(st.g, st2.disk, at, st2.l1);
    if |st.l1| > 0 {
      ClustersStep(st.g, |st.l1|);
      StoreStored(st.g, st2.disk, at, st2.l1);
    }
    forall x: nat | x < |st.disk| && d'[x] != st1.disk[x] ensures Refs(st, x) == 0 && st.Blk(x) == 0 {
      if InRun(x, at, n) == 0 { StoreOutside(st.g, st2.disk, at, st2.l1, x); }
      assert st1.rc[x] == 0;
      assert RcOf(st.rc, x) == 0;
    }
  }

  lemma SaveCounts(st: Img, st1: Img, st2: Img, at: nat, n: nat, st': Img)
    requires Inv(st) && Counted1(st, st1) && Allocated(st1, st2, at, n) && st2.Covered()
    requires st' == st2.(disk := st'.disk, snaps := st'.snaps)
    ensures forall c: nat :: st'.Blk(c) >= st.Blk(c)
    ensures forall c: nat :: st'.Blk(c) > st.Blk(c) ==> RcOf(st.rc, c) == 0 && RcOf(st'.rc, c) == 1
    ensures forall c: nat :: InRun(c, at, n) > 0 ==> RcOf(st.rc, c) == 0 && RcOf(st'.rc, c) == 1
    ensures forall c: nat :: c < |st.rc| ==>
      st'.rc[c] == st.rc[c] + ActiveRefs(st, c) + InRun(c, at, n) + st'.Blk(c) - st.Blk(c)
    ensures st'.Covered()
  {
    assert forall c: nat :: st'.Blk(c) == st2.Blk(c);
    forall c: nat | c < |st.rc| && st1.rc[c] == 0 ensures RcOf(st.rc, c) == 0 && ActiveRefs(st, c) == 0 {}
    forall c: nat | c < |st'.rc| && st'.rc[c] > 0 ensures st'.HasBlock(c) { assert st2.HasBlock(c); }
  }

  lemma {:induction false} SnapsRefsPrefix(g: Geo, d: Disk, a: seq<Snapshot>, b: seq<Snapshot>, n: nat, c: nat)
    requires n <= |a| && n <= |b| && a[..n] == b[..n]
    ensures SnapsRefs(g, d, a, n, c) == SnapsRefs(g, d, b, n, c)
  {
    if n > 0 {
      assert a[n - 1] == a[..n][n - 1] == b[..n][n - 1];
      assert a[..n - 1] == a[..n][..n - 1] == b[..n][..n - 1];
      SnapsRefsPrefix(g, d, a, b, n - 1, c);
    }
  }

  // The active tree is untouched; the old snapshots are untouched.
  lemma SavedKeeps(st: Img, st1: Img, st': Img, at: nat)
    requires Inv(st) && Saved(st, st1, st', at)
    ensures TreeOk(st'.g, st'.disk, st'.l1)
    ensures forall c: nat :: ActiveRefs(st', c) == ActiveRefs(st, c)
    ensures SavedOk(st.(disk := st'.disk))
    ensures forall c: nat :: SavedRefs(st.(disk := st'.disk), c) == SavedRefs(st, c)
  {
    SameTablesKeep(st, st1);
    TreeOkFrame(st.g, st1.disk, st'.disk, st1.l1, st1.l1);
    SavedFrame(st1, st'.disk);
    assert forall c: nat :: SavedRefs(st.(disk := st'.disk), c) == SavedRefs(st1.(disk := st'.disk), c);
    forall q: nat | q < |st.snaps| ensures SnapOk(st.g, st'.disk, st.snaps[q]) {
      assert SnapOk(st1.(disk := st'.disk).g, st1.(disk := st'.disk).disk, st1.(disk := st'.disk).snaps[q]);
    }
  }

  lemma SavedRefsNew(st: Img, st1: Img, st': Img, at: nat, c: nat)
    requires Inv(st) && Saved(st, st1, st', at)
    ensures SavedRefs(st', c) == SavedRefs(st, c) + InRun(c, at, L1Clusters(st.g, |st.l1|)) + ActiveRefs(st, c)
  {
    SavedKeeps(st, st1, st', at);
    var n := |st.snaps|;
    SnapsRefsPrefix(st.g, st'.disk, st.snaps, st'.snaps, n, c);
    assert SnapL1(st.g, st'.disk, st'.snaps[n]) == st1.l1;
    assert SavedRefs(st', c) == SnapsRefs(st.g, st'.disk, st'.snaps, n, c) + SnapRefs(st.g, st'.disk, st'.snaps[n], c);
    assert SavedRefs(st.(disk := st'.disk), c) == SnapsRefs(st.g, st'.disk, st.snaps, n, c);
  }

  lemma SavedExact(st: Img, st1: Img, st': Img, at: nat)
    requires Inv(st) && Saved(st, st1, st', at)
    ensures Exact(st')
  {
    SavedKeeps(st, st1, st', at);
    forall c: nat ensures RcOf(st'.rc, c) == Refs(st', c) + st'.Blk(c) {
      SavedRefsNew(st, st1, st', at, c);
      assert RcOf(st.rc, c) == Refs(st, c) + st.Blk(c);
    }
  }

  // A cluster outside the active tree with count 1 keeps it.
  lemma SavedOne(st: Img, st1: Img, st': Img, at: nat, c: nat)
    requires Inv(st) && Saved(st, st1, st', at) && RcOf(st.rc, c) == 1 && ActiveRefs(st, c) == 0
    ensures RcOf(st'.rc, c) == 1
  {
    hide Inv, SameTables, Flagged, Stored;
    assert st'.Blk(c) >= st.Blk(c);
  }

  lemma SavedRun(st: Img, st1: Img, st': Img, at: nat, q: nat, c: nat)
    requires Inv(st) && Saved(st, st1, st', at) && q < |st'.snaps|
    requires InRun(c, st'.snaps[q].l1At, L1Clusters(st'.g, st'.snaps[q].l1Size)) > 0
    ensures RcOf(st'.rc, c) == 1
  {
    hide SameTables, Flagged, Stored, TreeOk, SavedOk;
    if q < |st.snaps| {
      assert st'.snaps[q] == st'.snaps[..|st.snaps|][q];
      SnapsRefsAt(st.g, st.disk, st.snaps, |st.snaps|, q, c);
      SavedOne(st, st1, st', at, c);
    }
  }

  lemma SavedMeta(st: Img, st1: Img, st': Img, at: nat)
    requires Inv(st) && Saved(st, st1, st', at)
    ensures MetaOnce(st')
  {
    forall c: nat | RcOf(st.rc, c) == 1 && ActiveRefs(st, c) == 0 ensures RcOf(st'.rc, c) == 1 {
      SavedOne(st, st1, st', at, c);
    }
    forall q: nat, c: nat | q < |st'.snaps| && InRun(c, st'.snaps[q].l1At, L1Clusters(st'.g, st'.snaps[q].l1Size)) > 0
      ensures RcOf(st'.rc, c) == 1
    {
      SavedRun(st, st1, st', at, q, c);
    }
    SavedFixed(st, st1, st', at);
  }

  lemma SavedFixed(st: Img, st1: Img, st': Img, at: nat)
    requires Inv(st) && Saved(st, st1, st', at)
    ensures forall c: nat :: InRun(c, st'.l1At, L1Clusters(st'.g, |st'.l1|)) + Fixed(st', c) + st'.Blk(c) > 0 ==>
      RcOf(st'.rc, c) == 1
  {
    forall c: nat | InRun(c, st'.l1At, L1Clusters(st'.g, |st'.l1|)) + Fixed(st', c) + st'.Blk(c) > 0
      ensures RcOf(st'.rc, c) == 1
    {
      if st'.Blk(c) == st.Blk(c) { SavedOne(st, st1, st', at, c); }
    }
  }

  lemma SavedTables(st: Img, st1: Img, st': Img, at: nat)
    requires Inv(st) && Saved(st, st1, st', at)
    ensures SavedOk(st') && Stored(st'.g, st'.disk, st'.l1At, st'.l1)
  {
    SavedKeeps(st, st1, st', at);
    forall q: nat | q < |st'.snaps| ensures SnapOk(st'.g, st'.disk, st'.snaps[q]) {
      if q < |st.snaps| {
        assert st'.snaps[q] == st'.snaps[..|st.snaps|][q];
        assert SnapOk(st.(disk := st'.disk).g, st.(disk := st'.disk).disk, st.(disk := st'.disk).snaps[q]);
      } else {
        assert SnapL1(st.g, st'.disk, st'.snaps[q]) == st1.l1;
      }
    }
    StoredFrame(st.g, st1.disk, st'.disk, st1.l1At, st1.l1);
  }

  lemma SavedFlags(st: Img, st1: Img, st': Img, at: nat)
    requires Inv(st) && Saved(st, st1, st', at)
    ensures Flagged(st')
  {
    SameTablesKeep(st, st1);
    forall i: nat | i < |st'.l1| && st'.l1[i].Plain?
      ensures st'.l1[i].copied <==> RcOf(st'.rc, st'.l1[i].at) == 1
    {
      TreeRefsAt(st1.g, st1.disk, st1.l1, |st1.l1|, i, st1.l1[i].at);
      SavedCount(st, st1, st', at, st1.l1[i].at);
    }
    forall i: nat, j: nat | i < |st'.l1| && L2Word(st'.disk, st'.l1[i], j).Plain?
      ensures L2Word(st'.disk, st'.l1[i], j).copied <==> RcOf(st'.rc, L2Word(st'.disk, st'.l1[i], j).at) == 1
    {
      SavedWord(st, st1, st', at, i, j);
      WordRefs(st1, i, j, L2Word(st1.disk, st1.l1[i], j).at);
      SavedCount(st, st1, st', at, L2Word(st1.disk, st1.l1[i], j).at);
    }
  }

  lemma SavedCount(st: Img, st1: Img, st': Img, at: nat, c: nat)
    requires Inv(st) && Saved(st, st1, st', at) && ActiveRefs(st, c) > 0
    ensures RcOf(st'.rc, c) == RcOf(st1.rc, c)
  {
    assert RcOf(st.rc, c) > 0;
  }

  lemma SavedWord(st: Img, st1: Img, st': Img, at: nat, i: nat, j: nat)
    requires Inv(st) && Saved(st, st1, st', at) && i < |st1.l1|
    ensures L2Word(st'.disk, st'.l1[i], j) == L2Word(st1.disk, st1.l1[i], j)
  {
    SameTablesKeep(st, st1);
    assert SlotTyped(st1.g, st1.disk, st1.l1[i]);
    if st1.l1[i].Plain? { TreeRefsAt(st1.g, st1.disk, st1.l1, |st1.l1|, i, st1.l1[i].at); }
  }

  lemma SavedInv(st: Img, st1: Img, st': Img, at: nat)
    requires Inv(st) && Saved(st, st1, st', at)
    ensures Inv(st')
  {
    SavedKeeps(st, st1, st', at);
    SavedExact(st, st1, st', at);
    SavedMeta(st, st1, st', at);
    SavedTables(st, st1, st', at);
    SavedFlags(st, st1, st', at);
  }

  lemma SavedActive(env: Env, st: Img, st1: Img, st': Img, at: nat)
    requires Inv(st) && Saved(st, st1, st', at)
    ensures SameView(env, st, st') && SnapIs(env, st', |st.snaps|, st)
  {
    SameTablesKeep(st, st1);
    assert SnapL1(st.g, st'.disk, st'.snaps[|st.snaps|]) == st1.l1;
    forall i: nat, j: nat, k: nat
      ensures View(env, st', i, j, k) == View(env, st, i, j, k)
      ensures SnapView(env, st', |st.snaps|, i, j, k) == View(env, st, i, j, k)
    {
      SameTablesView(env, st, st1, i, j, k);
      TreeViewFrame(env, st.g, st1.disk, st'.disk, st1.l1, st1.l1, i, j, k);
    }
  }

  lemma SavedOthers(env: Env, st: Img, st1: Img, st': Img, at: nat, q: nat)
    requires Inv(st) && Saved(st, st1, st', at) && q < |st.snaps|
    ensures SnapKept(env, st, q, st', q)
  {
    SameTablesKeep(st, st1);
    var mid := st.(disk := st'.disk);
    forall x: nat | x < |st.disk| && SavedRefs(st, x) > 0 ensures Same(st.disk[x], mid.disk[x]) {
      assert st'.disk[x] == st1.disk[x];
    }
    SnapViews(env, st, mid, q);
    assert st'.snaps[q] == st'.snaps[..|st.snaps|][q];
    forall i: nat, j: nat, k: nat ensures SnapView(env, st', q, i, j, k) == SnapView(env, st, q, i, j, k) {
      assert SnapView(env, mid, q, i, j, k) == SnapView(env, st, q, i, j, k);
    }
  }

  // A new snapshot shows what the active image shows now; nothing else changes for any reader.
  lemma AddSnapCorrect(env: Env, st: Img, info: Info, st': Img)
    requires Inv(st) && AddSnap(st, info) == Some(st')
    ensures Inv(st') && st'.g == st.g && |st'.l1| == |st.l1|
    ensures |st'.snaps| == |st.snaps| + 1 && st'.snaps[..|st.snaps|] == st.snaps
    ensures var s := st'.snaps[|st.snaps|]; s.info == info && s.l1Size == |st.l1|
    ensures SameView(env, st, st') && SnapIs(env, st', |st.snaps|, st)
    ensures forall q: nat :: q < |st.snaps| ==> SnapKept(env, st, q, st', q)
  {
    var st1, at := AddSnapSaved(st, info, st');
    SavedInv(st, st1, st', at);
    SavedActive(env, st, st1, st', at);
    forall q: nat | q < |st.snaps| ensures SnapKept(env, st, q, st', q) { SavedOthers(env, st, st1, st', at, q); }
  }
}

// Tables that are rewritten into freshly allocated clusters: the snapshot table and a growing L1 table.

module TableMoves {
  import opened Basics
  import opened SnapTable
  import opened Layout
  import opened Refcounts
  import opened Invariant
  import opened GuestWrite
  import opened SnapshotGoto

  function FillRun(disk: Disk, at: nat, n: nat): (d: Disk)
    ensures |d| == |disk|
    ensures forall x: nat :: x < |disk| ==> d[x] == if at <= x < at + n then Other else disk[x]
    decreases n
  {
    if n == 0 then disk else FillRun(SetBlock(disk, at, Other), at + 1, n - 1)
  }

  // qcow_write_snapshots
  function WriteSnaps(st: Img): Option<Img>
  {
    var size := TableSize(st.snaps, |st.snaps|);
    var n := SnapClusters(st.g, size);
    var (st1, at) :- Alloc(st, n);
    var st2 :- UpdRun(st1.(disk := FillRun(st1.disk, at, n)), st.snapsAt, SnapClusters(st.g, st.snapsSize), -1);
    Some(st2.(snapsAt := at, snapsSize := size))
  }

  // The run [at, at + n) was taken, the run [lo, lo + m) released, and only free clusters were written.
  ghost predicate Exchanged(st: Img, st': Img, at: nat, n: nat, lo: nat, m: nat)
  {
    && |st'.disk| == |st.disk| && |st'.rc| == |st.rc| && |st'.table| == |st.table| && st'.g == st.g
    && (forall x: nat :: x < |st.disk| && st'.disk[x] != st.disk[x] ==> RcOf(st.rc, x) == 0)
    && (forall c: nat :: InRun(c, at, n) > 0 ==> RcOf(st.rc, c) == 0 && RcOf(st'.rc, c) == 1 && c < |st.rc|)
    && (forall c: nat :: st'.Blk(c) >= st.Blk(c))
    && (forall c: nat :: st'.Blk(c) > st.Blk(c) ==> RcOf(st.rc, c) == 0 && RcOf(st'.rc, c) == 1)
    && (forall c: nat :: c < |st.rc| ==>
          st'.rc[c] == st.rc[c] + InRun(c, at, n) - InRun(c, lo, m) + st'.Blk(c) - st.Blk(c))
    && st'.Covered()
  }

  // Allocate, write only into the new run, then free a run that was counted.
  lemma ExchangeSpec(st: Img, st1: Img, d: Disk, at: nat, n: nat, lo: nat, m: nat, st2: Img)
    requires Inv(st) && Allocated(st, st1, at, n) && st1.Covered()
    requires |d| == |st1.disk| && forall x: nat :: x < |d| && InRun(x, at, n) == 0 ==> d[x] == st1.disk[x]
    requires UpdRun(st1.(disk := d), lo, m, -1) == Some(st2)
    requires forall c: nat :: InRun(c, lo, m) > 0 ==> RcOf(st.rc, c) > 0
    ensures Exchanged(st, st2, at, n, lo, m)
    ensures st2 == st.(disk := d, table := st2.table, rc := st2.rc, freeIdx := st2.freeIdx)
  {
    hide Inv, UpdRun;
    FreeSpec(st1.(disk := d), lo, m, st2);
    assert forall c: nat :: st2.Blk(c) == st1.Blk(c);
    forall c: nat | InRun(c, at, n) > 0 ensures RcOf(st.rc, c) == 0 && RcOf(st2.rc, c) == 1 && c < |st.rc| {
      assert st.rc[c] == 0;
    }
    forall c: nat | c < |st2.rc| && st2.rc[c] > 0 ensures st2.HasBlock(c) { assert st1.HasBlock(c); }
  }

  lemma ExchangedCarry(st: Img, st2: Img, st': Img, at: nat, n: nat, lo: nat, m: nat)
    requires Exchanged(st, st2, at, n, lo, m)
    requires st'.disk == st2.disk && st'.rc == st2.rc && st'.table == st2.table && st'.g == st2.g
    ensures Exchanged(st, st', at, n, lo, m)
  {
    assert forall c: nat :: st'.Blk(c) == st2.Blk(c);
    forall c: nat | c < |st'.rc| && st'.rc[c] > 0 ensures st'.HasBlock(c) { assert st2.HasBlock(c); }
  }

  // The trees do not notice an exchange.
  lemma ExchangedTrees(st: Img, st': Img, at: nat, n: nat, lo: nat, m: nat)
    requires Inv(st) && Exchanged(st, st', at, n, lo, m) && st'.snaps == st.snaps
    ensures TreeOk(st.g, st'.disk, st.l1) && SavedOk(st')
    ensures forall c: nat :: TreeRefs(st.g, st'.disk, st.l1, |st.l1|, c) == ActiveRefs(st, c)
    ensures forall c: nat :: SavedRefs(st', c) == SavedRefs(st, c)
  {
    TreeOkFrame(st.g, st.disk, st'.disk, st.l1, st.l1);
    SavedFrame(st, st'.disk);
    assert forall c: nat :: SavedRefs(st', c) == SavedRefs(st.(disk := st'.disk), c);
    forall q: nat | q < |st'.snaps| ensures SnapOk(st'.g, st'.disk, st'.snaps[q]) {
      assert SnapOk(st.(disk := st'.disk).g, st.(disk := st'.disk).disk, st.(disk := st'.disk).snaps[q]);
    }
  }

  // Counts of clusters in a tree or in another table stay as they are.
  lemma ExchangedCount(st: Img, st': Img, at: nat, n: nat, lo: nat, m: nat, c: nat)
    requires Exchanged(st, st', at, n, lo, m)
    requires RcOf(st.rc, c) > 0 && InRun(c, lo, m) == 0
    ensures RcOf(st'.rc, c) == RcOf(st.rc, c)
  {
  }

  lemma ExchangedFlags(st: Img, st': Img, at: nat, n: nat, lo: nat, m: nat, i: nat, j: nat)
    requires Inv(st) && Exchanged(st, st', at, n, lo, m) && i < |st.l1|
    requires forall c: nat :: InRun(c, lo, m) > 0 ==> ActiveRefs(st, c) == 0
    ensures st.l1[i].Plain? ==> (st.l1[i].copied <==> RcOf(st'.rc, st.l1[i].at) == 1)
    ensures var e := L2Word(st'.disk, st.l1[i], j);
      e == L2Word(st.disk, st.l1[i], j) && (e.Plain? ==> (e.copied <==> RcOf(st'.rc, e.at) == 1))
  {
    var e1 := st.l1[i];
    assert SlotTyped(st.g, st.disk, e1);
    if e1.Plain? {
      TreeRefsAt(st.g, st.disk, st.l1, |st.l1|, i, e1.at);
      ExchangedCount(st, st', at, n, lo, m, e1.at);
    }
    var e := L2Word(st.disk, e1, j);
    if e.Plain? {
      WordRefs(st, i, j, e.at);
      ExchangedCount(st, st', at, n, lo, m, e.at);
    }
  }

  lemma ExchangedViews(env: Env, st: Img, st': Img, at: nat, n: nat, lo: nat, m: nat)
    requires Inv(st) && Exchanged(st, st', at, n, lo, m) && st'.snaps == st.snaps
    ensures SavedKept(env, st, st')
    ensures forall i: nat, j: nat, k: nat :: TreeView(env, st.g, st'.disk, st.l1, i, j, k) == View(env, st, i, j, k)
  {
    SavedViews(env, st, st');
    forall i: nat, j: nat, k: nat ensures TreeView(env, st.g, st'.disk, st.l1, i, j, k) == View(env, st, i, j, k) {
      TreeViewFrame(env, st.g, st.disk, st'.disk, st.l1, st.l1, i, j, k);
    }
  }

  // ----- the snapshot table -----

  lemma WriteSnapsExchanged(st: Img, st': Img) returns (at: nat)
    requires Inv(st) && WriteSnaps(st) == Some(st')
    ensures var size := TableSize(st.snaps, |st.snaps|);
      && Exchanged(st, st', at, SnapClusters(st.g, size), st.snapsAt, SnapClusters(st.g, st.snapsSize))
      && st' == st.(disk := st'.disk, table := st'.table, rc := st'.rc, freeIdx := st'.freeIdx, snapsAt := at,
                    snapsSize := size)
  {
    var size := TableSize(st.snaps, |st.snaps|);
    var n := SnapClusters(st.g, size);
    InvSound(st);
    var st1 := Alloc(st, n).value.0;
    at := Alloc(st, n).value.1;
    AllocSpec(st, n, st1, at);
    var d := FillRun(st1.disk, at, n);
    var st2 := UpdRun(st1.(disk := d), st.snapsAt, SnapClusters(st.g, st.snapsSize), -1).value;
    forall c: nat | InRun(c, st.snapsAt, SnapClusters(st.g, st.snapsSize)) > 0 ensures RcOf(st.rc, c) > 0 {
      assert Fixed(st, c) > 0;
    }
    ExchangeSpec(st, st1, d, at, n, st.snapsAt, SnapClusters(st.g, st.snapsSize), st2);
    ExchangedCarry(st, st2, st', at, n, st.snapsAt, SnapClusters(st.g, st.snapsSize));
  }

  lemma SnapsMoveCounts(st: Img, st': Img, at: nat)
    requires Inv(st)
    requires var size := TableSize(st.snaps, |st.snaps|);
      && Exchanged(st, st', at, SnapClusters(st.g, size), st.snapsAt, SnapClusters(st.g, st.snapsSize))
      && st' == st.(disk := st'.disk, table := st'.table, rc := st'.rc, freeIdx := st'.freeIdx, snapsAt := at,
                    snapsSize := size)
    ensures Exact(st') && MetaOnce(st')
  {
    var n, lo, m := SnapClusters(st.g, st'.snapsSize), st.snapsAt, SnapClusters(st.g, st.snapsSize);
    ExchangedTrees(st, st', at, n, lo, m);
    forall c: nat ensures RcOf(st'.rc, c) == Refs(st', c) + st'.Blk(c) {
      assert RcOf(st.rc, c) == Refs(st, c) + st.Blk(c);
      assert TreeRefs(st.g, st'.disk, st.l1, |st.l1|, c) == ActiveRefs(st', c);
    }
    forall c: nat | RcOf(st.rc, c) == 1 && InRun(c, lo, m) == 0
      ensures RcOf(st'.rc, c) == 1
    {
      ExchangedCount(st, st', at, n, lo, m, c);
    }
    forall q: nat, c: nat | q < |st'.snaps| && InRun(c, st'.snaps[q].l1At, L1Clusters(st'.g, st'.snaps[q].l1Size)) > 0
      ensures RcOf(st'.rc, c) == 1
    {
      SnapRunAlone(st, q, q, c);
    }
  }

  lemma WriteSnapsCorrect(env: Env, st: Img, st': Img)
    requires Inv(st) && WriteSnaps(st) == Some(st')
    ensures Inv(st') && SavedKept(env, st, st') && SameView(env, st, st') && st'.g == st.g && |st'.l1| == |st.l1|
  {
    var at := WriteSnapsExchanged(st, st');
    var n, lo, m := SnapClusters(st.g, st'.snapsSize), st.snapsAt, SnapClusters(st.g, st.snapsSize);
    ExchangedTrees(st, st', at, n, lo, m);
    SnapsMoveCounts(st, st', at);
    ExchangedViews(env, st, st', at, n, lo, m);
    SnapsMoveFlags(st, st', at);
  }

  lemma SnapsMoveFlags(st: Img, st': Img, at: nat)
    requires Inv(st)
    requires var size := TableSize(st.snaps, |st.snaps|);
      && Exchanged(st, st', at, SnapClusters(st.g, size), st.snapsAt, SnapClusters(st.g, st.snapsSize))
      && st' == st.(disk := st'.disk, table := st'.table, rc := st'.rc, freeIdx := st'.freeIdx, snapsAt := at,
                    snapsSize := size)
    ensures Flagged(st') && Stored(st'.g, st'.disk, st'.l1At, st'.l1)
  {
    var n, lo, m := SnapClusters(st.g, st'.snapsSize), st.snapsAt, SnapClusters(st.g, st.snapsSize);
    forall c: nat | InRun(c, lo, m) > 0 ensures ActiveRefs(st, c) == 0 { assert Fixed(st, c) > 0; }
    forall i: nat | i < |st'.l1| && st'.l1[i].Plain? ensures st'.l1[i].copied <==> RcOf(st'.rc, st'.l1[i].at) == 1 {
      ExchangedFlags(st, st', at, n, lo, m, i, 0);
    }
    forall i: nat, j: nat | i < |st'.l1| && L2Word(st'.disk, st'.l1[i], j).Plain?
      ensures L2Word(st'.disk, st'.l1[i], j).copied <==> RcOf(st'.rc, L2Word(st'.disk, st'.l1[i], j).at) == 1
    {
      ExchangedFlags(st, st', at, n, lo, m, i, j);
    }
    StoredFrame(st.g, st.disk, st'.disk, st.l1At, st.l1);
  }
}

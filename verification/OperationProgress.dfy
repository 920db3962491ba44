// When a whole request goes through.  Reading, freeing and dropping references never fail on an exact
// image; what remains is room for the clusters a request allocates and 16 bits for each count.

module OperationProgress {
  import opened Basics
  import opened L1Table
  import opened Arith
  import opened Layout
  import opened Refcounts
  import opened SnapIds
  import opened Invariant
  import opened GuestWrite
  import opened DataWrite
  import opened Walk
  import opened Snapshots
  import opened SnapshotCreate
  import opened SnapshotGoto
  import opened SnapshotDelete
  import opened SnapTable
  import opened TableMoves
  import opened L1Grow
  import opened Fresh
  import opened Runs
  import opened Progress

  // The image after a step; the image before it where the step does not go through.
  function Then(step: Option<Img>, st: Img): Img
  {
    if step.Some? then step.value else st
  }

  // ----- walks -----

  lemma WalkActiveExact(st: Img, a: int)
    requires -1 <= a <= 1 && st.Shaped() && Stored16(st) && Walkable(st, st.l1At, st.l1)
    ensures WalkActive(st, a).Some? <==> forall c: nat :: c < |st.rc| ==>
      InRange(st.rc[c] + Times(a, ActiveRefs(st, c)))
    ensures WalkActive(st, a).Some? ==> Stored16(WalkActive(st, a).value)
  {
    hide TreeOk, TreeCovered, Stored, WalkL1;
    WalkL1Exact(st, st.l1, 0, a);
    forall c: nat ensures TreeRefs(st.g, st.disk, st.l1, 0, c) == 0 {}
  }

  lemma WalkSnapExact(st: Img, q: nat, a: int)
    requires -1 <= a <= 1 && st.Shaped() && Stored16(st) && q < |st.snaps|
    requires Walkable(st, st.snaps[q].l1At, SnapL1(st.g, st.disk, st.snaps[q]))
    ensures WalkSnap(st, q, a).Some? <==> forall c: nat :: c < |st.rc| ==>
      InRange(st.rc[c] + Times(a, SnapTree(st, q, c)))
    ensures WalkSnap(st, q, a).Some? ==> Stored16(WalkSnap(st, q, a).value)
  {
    hide TreeOk, TreeCovered, Stored, WalkL1, SnapL1;
    var l1 := SnapL1(st.g, st.disk, st.snaps[q]);
    WalkL1Exact(st, l1, 0, a);
    forall c: nat ensures TreeRefs(st.g, st.disk, l1, 0, c) == 0 {}
  }

  // ----- snapshot delete -----

  lemma UnsaveSucceeds(st: Img, q: nat)
    requires Inv(st) && Stored16(st) && q < |st.snaps|
    ensures WalkSnap(st, q, -1).Some? && Stored16(WalkSnap(st, q, -1).value)
  {
    SnapWalkable(st, q);
    forall c: nat | c < |st.rc| ensures InRange(st.rc[c] + Times(-1, SnapTree(st, q, c))) {
      SnapTreeRefs(st, q, c);
      assert RcOf(st.rc, c) == Refs(st, c) + st.Blk(c);
    }
    WalkSnapExact(st, q, -1);
  }

  // On an exact image every reference a snapshot holds can be dropped.
  lemma DropSucceeds(st: Img, q: nat)
    requires Inv(st) && Stored16(st) && q < |st.snaps|
    ensures DropSnap(st, q).Some?
  {
    hide Inv, WalkSnap, WalkActive, UpdRun, Walkable, Unsaved;
    UnsaveSucceeds(st, q);
    var st1 := WalkSnap(st, q, -1).value;
    UnsaveSpec(st, q, st1);
    UnsavedWalkable(st, q, st1);
    UnsavedShape(st, q, st1);
    forall c: nat | c < |st1.rc| ensures InRange(st1.rc[c] + Times(0, ActiveRefs(st1, c))) {}
    WalkActiveExact(st1, 0);
    var st2 := WalkActive(st1, 0).value;
    WalkActiveSpec(st1, 0, st2);
    RunDrops(st, q, st1, st2);
  }

  lemma UnsavedShape(st: Img, q: nat, st1: Img)
    requires Inv(st) && q < |st.snaps| && Unsaved(st, q, st1)
    ensures st1.Shaped()
  {
  }

  // A run of clusters counted once can be freed.
  lemma FreeOnce(st: Img, lo: nat, n: nat)
    requires st.Shaped() && st.Covered() && forall c: nat :: InRun(c, lo, n) > 0 ==> RcOf(st.rc, c) == 1
    ensures UpdRun(st, lo, n, -1).Some?
  {
    if n > 0 {
      assert InRun(lo + n - 1, lo, n) > 0;
      forall c: nat | lo <= c < lo + n ensures c < |st.rc| && st.rc[c] == 1 { assert InRun(c, lo, n) > 0; }
      FreeSucceeds(st, lo, n);
    }
  }

  lemma RunDrops(st: Img, q: nat, st1: Img, st2: Img)
    requires Inv(st) && q < |st.snaps| && Unsaved(st, q, st1) && Stored16(st2)
    requires st2 == st1.(disk := st2.disk, rc := st2.rc, freeIdx := st2.freeIdx, l1 := st2.l1) && |st2.rc| == |st1.rc|
    requires |st2.disk| == |st1.disk|
    requires forall c: nat :: c < |st1.rc| ==> st2.rc[c] == st1.rc[c]
    ensures UpdRun(st2, st.snaps[q].l1At, L1Clusters(st.g, st.snaps[q].l1Size), -1).Some?
  {
    var lo, n := st.snaps[q].l1At, L1Clusters(st.g, st.snaps[q].l1Size);
    forall c: nat | InRun(c, lo, n) > 0 ensures RcOf(st2.rc, c) == 1 { SnapRunAlone(st, q, q, c); }
    forall c: nat | c < |st2.rc| && st2.rc[c] > 0 ensures st2.HasBlock(c) { assert st.HasBlock(c); }
    FreeOnce(st2, lo, n);
  }

  // ----- snapshot goto -----

  // Going to a snapshot of the active table's size fails only if a count would not fit.
  lemma GotoExact(st: Img, q: nat)
    requires Inv(st) && Stored16(st) && q < |st.snaps| && st.snaps[q].l1Size == |st.l1|
    ensures GotoSnap(st, q).Some? <==>
            forall c: nat :: c < |st.rc| ==> st.rc[c] - ActiveRefs(st, c) + SnapTree(st, q, c) <= MAX_REFCOUNT
  {
    hide Inv, WalkActive, Walkable, Unlinked;
    InvWalkable(st);
    InvCounts(st);
    forall c: nat | c < |st.rc| ensures InRange(st.rc[c] + Times(-1, ActiveRefs(st, c))) {}
    WalkActiveExact(st, -1);
    var st1 := WalkActive(st, -1).value;
    UnlinkSpec(st, st1);
    LoadWalkable(st, st1, q);
    LoadSpec(st, st1, q);
    UnlinkedLoad(st, st1, q);
    WalkActiveExact(LoadSnap(st1, q), 1);
    var st2 := LoadSnap(st1, q);
    forall c: nat | c < |st.rc|
      ensures InRange(st2.rc[c] + Times(1, ActiveRefs(st2, c))) <==>
        st.rc[c] - ActiveRefs(st, c) + SnapTree(st, q, c) <= MAX_REFCOUNT
    {
    }
  }

  lemma InvCounts(st: Img)
    requires Inv(st)
    ensures st.Shaped() && forall c: nat :: c < |st.rc| ==> ActiveRefs(st, c) <= st.rc[c]
  {
    forall c: nat | c < |st.rc|
      ensures ActiveRefs(st, c) <= st.rc[c]
    {
      assert RcOf(st.rc, c) == Refs(st, c) + st.Blk(c);
    }
  }

  lemma UnlinkedLoad(st: Img, st1: Img, q: nat)
    requires Inv(st) && Unlinked(st, st1) && q < |st.snaps| && Stored16(st1)
    ensures |st1.snaps| == |st.snaps| && var st2 := LoadSnap(st1, q);
      st2.Shaped() && Stored16(st2) && |st2.rc| == |st.rc| && forall c: nat :: c < |st.rc| ==>
        st2.rc[c] == st.rc[c] - ActiveRefs(st, c)
  {
  }

  // ----- allocations -----

  lemma {:induction false} FirstFitSame(rc: seq<nat>, rc1: seq<nat>, f: nat, n: nat)
    requires |rc1| == |rc| && forall c: nat :: RcOf(rc, c) == 0 <==> RcOf(rc1, c) == 0
    ensures FirstFit(rc1, f, n) == FirstFit(rc, f, n)
    decreases |rc| - f
  {
    if f < |rc| {
      assert RunFree(rc1, f, n) == RunFree(rc, f, n);
      if !RunFree(rc, f, n) { FirstFitSame(rc, rc1, f + 1, n); }
    }
  }

  // Whether an allocation fits depends only on which clusters are free.
  lemma FitsSame(st: Img, st1: Img, n: nat)
    requires st1.g == st.g && st1.table == st.table && st1.freeIdx == st.freeIdx && |st1.rc| == |st.rc|
    requires forall c: nat :: RcOf(st.rc, c) == 0 <==> RcOf(st1.rc, c) == 0
    ensures AllocFits(st1, n) == AllocFits(st, n)
  {
    FirstFitSame(st.rc, st1.rc, st.freeIdx, n);
    forall c: nat ensures st1.HasBlock(c) == st.HasBlock(c) {}
  }

  // ----- snapshot create -----

  // Saving the active tree fails only if a count would not fit or the copy of the L1 table has no room.
  lemma AddSnapExact(st: Img, info: Info)
    requires Inv(st) && Stored16(st)
    ensures AddSnap(st, info).Some? <==>
      && (forall c: nat :: c < |st.rc| ==> st.rc[c] + ActiveRefs(st, c) <= MAX_REFCOUNT)
      && AllocFits(st, L1Clusters(st.g, |st.l1|))
  {
    hide WalkActive, Walkable, Alloc, AllocFits, FirstFit;
    InvWalkable(st);
    InvCounts(st);
    WalkActiveExact(st, 1);
    if WalkActive(st, 1).Some? {
      var st1 := WalkActive(st, 1).value;
      WalkActiveSpec(st, 1, st1);
      WalkSound(st, st1);
      WalkFree(st, st1);
      AllocExact(st1, L1Clusters(st.g, |st.l1|));
      FitsSame(st, st1, L1Clusters(st.g, |st.l1|));
    } else {
      forall c: nat | c < |st.rc|
        ensures InRange(st.rc[c] + Times(1, ActiveRefs(st, c))) <==> st.rc[c] + ActiveRefs(st, c) <= MAX_REFCOUNT
      {
      }
    }
  }

  lemma WalkFree(st: Img, st1: Img)
    requires Inv(st) && WalkActive(st, 1) == Some(st1) && |st1.rc| == |st.rc|
    requires forall c: nat :: c < |st.rc| ==> st1.rc[c] == st.rc[c] + ActiveRefs(st, c)
    ensures st1.freeIdx == st.freeIdx
    ensures forall c: nat :: RcOf(st.rc, c) == 0 <==> RcOf(st1.rc, c) == 0
  {
    hide Inv, WalkL1;
    InvCounts(st);
    InvWalkable(st);
    WalkL1Index(st, st.l1, 0);
  }

  // Adding references never moves the allocator.
  lemma {:induction false} AdjustRunIndex(st: Img, lo: nat, n: nat)
    requires forall c: nat :: lo <= c < lo + n ==> st.HasBlock(c)
    ensures UpdRun(st, lo, n, 1).Some? ==> UpdRun(st, lo, n, 1).value.freeIdx == st.freeIdx
    decreases n
  {
    if n > 0 && Upd(st, lo, 1).Some? {
      var st1 := Upd(st, lo, 1).value;
      assert st.HasBlock(lo);
      forall c: nat | lo + 1 <= c < lo + n ensures st1.HasBlock(c) { assert st.HasBlock(c); }
      AdjustRunIndex(st1, lo + 1, n - 1);
    }
  }

  lemma WalkEntryIndex(st: Img, e: Entry)
    requires forall c: nat :: EntryRefs(st.g, e, c) > 0 ==> st.HasBlock(c)
    ensures WalkEntry(st, e, 1).Some? ==> WalkEntry(st, e, 1).value.0.freeIdx == st.freeIdx
  {
    match e
    case Zero =>
    case Plain(at, _) => assert EntryRefs(st.g, e, at) > 0;
    case Packed(_, _, _) =>
      var lo, n := First(st.g, e), Past(st.g, e) - First(st.g, e);
      if n >= 0 {
        forall c: nat | lo <= c < lo + n ensures st.HasBlock(c) { assert EntryRefs(st.g, e, c) > 0; }
        AdjustRunIndex(st, lo, n);
      }
  }

  lemma {:induction false} WalkL2Index(st: Img, ents: seq<Entry>, j: nat)
    requires j <= |ents| && EntsCovered(st, ents) && EntsSimple(st.g, ents)
    ensures WalkL2(st, ents, j, 1).Some? ==> WalkL2(st, ents, j, 1).value.0.freeIdx == st.freeIdx
    decreases |ents| - j
  {
    hide EntsSimple, WalkEntry;
    if j < |ents| && WalkEntry(st, ents[j], 1).Some? {
      var (st1, e) := WalkEntry(st, ents[j], 1).value;
      WalkEntryIndex(st, ents[j]);
      WalkEntrySpec(st, ents[j], 1, st1, e);
      StepEnts(st, ents, j, e, st1);
      WalkL2Index(st1, ents[j := e], j + 1);
    }
  }

  lemma WalkSlotIndex(st: Img, e: Entry)
    requires st.Shaped() && SlotTyped(st.g, st.disk, e) && SlotSimple(st.g, st.disk, e)
    requires forall c: nat :: SlotRefs(st.g, st.disk, e, c) > 0 ==> st.HasBlock(c)
    ensures WalkSlot(st, e, 1).Some? ==> WalkSlot(st, e, 1).value.0.freeIdx == st.freeIdx
  {
    if e.Plain? {
      hide WalkL2, EntsSimple, EntsCovered, SlotTyped, SlotSimple, L2Refs;
      var ents := Ents(st.disk, e.at);
      SlotSimpleEnts(st.g, st.disk, e);
      SlotCovered(st, e);
      WalkL2Index(st, ents, 0);
      if WalkL2(st, ents, 0, 1).Some? {
        var (st1, ents1) := WalkL2(st, ents, 0, 1).value;
        WalkL2Spec(st, ents, 0, 1, st1, ents1);
        assert st1.HasBlock(e.at);
      }
    }
  }

  lemma {:induction false} WalkL1Index(st: Img, l1: seq<Entry>, i: nat)
    requires i <= |l1| && st.Shaped() && TreeOk(st.g, st.disk, l1) && TreeCovered(st, l1)
    ensures WalkL1(st, l1, i, 1).Some? ==> WalkL1(st, l1, i, 1).value.0.freeIdx == st.freeIdx
    decreases |l1| - i
  {
    hide TreeOk, TreeCovered, WalkSlot, TreeRefs, SlotRefs, SlotFlag;
    if i < |l1| && WalkSlot(st, l1[i], 1).Some? {
      var (st1, e) := WalkSlot(st, l1[i], 1).value;
      TreeSlotCovered(st, l1, i);
      WalkSlotIndex(st, l1[i]);
      StepTree(st, l1, i, 1, st1, e);
      WalkL1Index(st1, l1[i := e], i + 1);
    }
  }

  // ----- tables that move -----

  // There is room for a snapshot table of the current snapshots.
  ghost predicate TableFits(st: Img)
  {
    AllocFits(st, SnapClusters(st.g, TableSize(st.snaps, |st.snaps|)))
  }

  // Rewriting the snapshot table fails only for lack of room: the old table can always be freed.
  lemma WriteSnapsExact(st: Img)
    requires Inv(st)
    ensures WriteSnaps(st).Some? <==> TableFits(st)
  {
    hide Inv, Alloc, UpdRun, AllocFits, TableSize, SnapClusters;
    var n := SnapClusters(st.g, TableSize(st.snaps, |st.snaps|));
    InvSound(st);
    AllocExact(st, n);
    if Alloc(st, n).Some? {
      var (st1, at) := Alloc(st, n).value;
      AllocSpec(st, n, st1, at);
      FixedOnce(st);
      OldRunFrees(st, st1, at, n, FillRun(st1.disk, at, n), st.snapsAt, SnapClusters(st.g, st.snapsSize));
    }
  }

  lemma FixedOnce(st: Img)
    requires Inv(st)
    ensures forall c: nat :: InRun(c, st.snapsAt, SnapClusters(st.g, st.snapsSize)) > 0 ==> RcOf(st.rc, c) == 1
    ensures forall c: nat :: InRun(c, st.l1At, L1Clusters(st.g, |st.l1|)) > 0 ==> RcOf(st.rc, c) == 1
  {
    forall c: nat | InRun(c, st.snapsAt, SnapClusters(st.g, st.snapsSize)) > 0 ensures RcOf(st.rc, c) == 1 {
      assert Fixed(st, c) > 0;
    }
  }

  // Such a run can still be freed after an allocation elsewhere.
  lemma OldRunFrees(st: Img, st1: Img, at: nat, n: nat, d: Disk, lo: nat, m: nat)
    requires st1.Sound() && Allocated(st, st1, at, n) && |d| == |st1.disk|
    requires forall c: nat :: InRun(c, lo, m) > 0 ==> RcOf(st.rc, c) == 1
    ensures UpdRun(st1.(disk := d), lo, m, -1).Some?
  {
    var st2 := st1.(disk := d);
    forall c: nat | InRun(c, lo, m) > 0 ensures RcOf(st2.rc, c) == 1 { assert st1.Blk(c) >= st.Blk(c); }
    forall c: nat | c < |st2.rc| && st2.rc[c] > 0 ensures st2.HasBlock(c) { assert st1.HasBlock(c); }
    FreeOnce(st2, lo, m);
  }

  // The table is long enough, or it is not empty (the size loop would never end) and the longer one fits.
  ghost predicate GrowFits(st: Img, min: nat)
  {
    min <= |st.l1| || (|st.l1| > 0 && AllocFits(st, L1Clusters(st.g, GrownSize(|st.l1|, min))))
  }

  // Growing the L1 table, likewise.
  lemma GrowExact(st: Img, min: nat)
    requires Inv(st)
    ensures GrowL1(st, min).Some? <==> GrowFits(st, min)
  {
    hide Inv, Alloc, UpdRun, AllocFits, StoreL1, L1Clusters, GrownSize;
    if min > |st.l1| > 0 {
      var l1 := Padded(st.l1, GrownSize(|st.l1|, min));
      var n := L1Clusters(st.g, |l1|);
      InvSound(st);
      AllocExact(st, n);
      if Alloc(st, n).Some? {
        var (st1, at) := Alloc(st, n).value;
        AllocSpec(st, n, st1, at);
        FixedOnce(st);
        OldRunFrees(st, st1, at, n, StoreL1(st.g, st1.disk, at, l1), st.l1At, L1Clusters(st.g, |st.l1|));
      }
    }
  }

  // ----- guest writes -----

  ghost predicate OwnFits(st: Img, i: nat)
  {
    (i < |st.l1| && st.l1[i].Plain? && st.l1[i].copied) || AllocFits(st, 1)
  }

  // Taking an L2 table of one's own needs a cluster unless the table is already unshared.
  lemma OwnExact(st: Img, i: nat)
    requires Inv(st) && Stored16(st) && i < |st.l1|
    ensures OwnL2(st, i).Some? <==> OwnFits(st, i)
  {
    hide Alloc, AllocFits;
    InvSound(st);
    assert SlotTyped(st.g, st.disk, st.l1[i]);
    if st.l1[i].Zero? {
      AllocExact(st, 1);
      if Alloc(st, 1).Some? { AllocSpec(st, 1, Alloc(st, 1).value.0, Alloc(st, 1).value.1); }
    } else if !st.l1[i].copied {
      SharedRelease(st, i);
      var st0 := UpdRun(st, st.l1[i].at, 1, -1).value;
      AllocExact(st0, 1);
      FitsSame(st, st0, 1);
      if Alloc(st0, 1).Some? { AllocSpec(st0, 1, Alloc(st0, 1).value.0, Alloc(st0, 1).value.1); }
    }
  }

  lemma SharedRelease(st: Img, i: nat)
    requires Inv(st) && Stored16(st) && i < |st.l1| && st.l1[i].Plain? && !st.l1[i].copied
    ensures UpdRun(st, st.l1[i].at, 1, -1).Some?
    ensures var st0 := UpdRun(st, st.l1[i].at, 1, -1).value;
      && st0.Sound() && st0.g == st.g && st0.table == st.table && st0.freeIdx == st.freeIdx && |st0.rc| == |st.rc|
      && st0.l1 == st.l1
      && forall c: nat :: RcOf(st.rc, c) == 0 <==> RcOf(st0.rc, c) == 0
  {
    var at := st.l1[i].at;
    TreeRefsAt(st.g, st.disk, st.l1, |st.l1|, i, at);
    SharedFree(st, at);
  }

  // Dropping one of several references frees nothing.
  lemma SharedFree(st: Img, at: nat)
    requires Inv(st) && Stored16(st) && ActiveRefs(st, at) > 0 && RcOf(st.rc, at) != 1
    ensures UpdRun(st, at, 1, -1).Some?
    ensures var st0 := UpdRun(st, at, 1, -1).value;
      && st0.Sound() && st0.g == st.g && st0.table == st.table && st0.freeIdx == st.freeIdx && |st0.rc| == |st.rc|
      && st0.l1 == st.l1
      && forall c: nat :: RcOf(st.rc, c) == 0 <==> RcOf(st0.rc, c) == 0
  {
    InvSound(st);
    assert RcOf(st.rc, at) == Refs(st, at) + st.Blk(at);
    assert st.HasBlock(at);
    RowLess(st.g.reach, at, |st.table|);
    var st0 := st.(rc := st.rc[at := st.rc[at] - 1]);
    assert Upd(st, at, -1) == Some(st0);
    assert UpdRun(st0, at + 1, 0, -1) == Some(st0);
    LessSound(st, st0);
  }

  lemma LessSound(st: Img, st0: Img)
    requires st.Sound() && st0 == st.(rc := st0.rc) && |st0.rc| == |st.rc|
    requires forall c: nat :: c < |st.rc| ==> st0.rc[c] <= st.rc[c] && (st0.rc[c] == 0 <==> st.rc[c] == 0)
    ensures st0.Sound()
  {
    forall c: nat | c < |st0.rc| && st0.rc[c] > 0 ensures st0.HasBlock(c) { assert st.HasBlock(c); }
    forall c: nat ensures st0.Blk(c) == st.Blk(c) {}
  }

  lemma EntryCounted(st: Img, i: nat, j: nat, e: Entry)
    requires Inv(st) && i < |st.l1| && st.l1[i].Plain? && e == L2Word(st.disk, st.l1[i], j)
    ensures e.Packed? ==> e.nb > 0
    ensures forall c: nat :: EntryRefs(st.g, e, c) > 0 ==> c < |st.rc| && st.rc[c] > 0
  {
    assert SlotTyped(st.g, st.disk, st.l1[i]);
    forall c: nat | EntryRefs(st.g, e, c) > 0 ensures c < |st.rc| && st.rc[c] > 0 {
      WordRefs(st, i, j, c);
      assert RcOf(st.rc, c) == Refs(st, c) + st.Blk(c);
    }
  }

  // The storage of an entry of the active tree can always be freed.
  lemma FreeEntrySucceeds(st: Img, i: nat, j: nat, e: Entry)
    requires Inv(st) && Stored16(st) && i < |st.l1| && st.l1[i].Plain? && e == L2Word(st.disk, st.l1[i], j)
    ensures FreeEntry(st, e).Some?
  {
    hide Inv, First, Past;
    InvSound(st);
    EntryCounted(st, i, j, e);
    match e
    case Zero =>
    case Plain(at, _) =>
      assert EntryRefs(st.g, e, at) > 0;
      FreeSucceeds(st, at, 1);
    case Packed(sec, _, nb) =>
      var lo, past := First(st.g, e), Past(st.g, e);
      PastFirst(st.g, e);
      assert EntryRefs(st.g, e, past - 1) > 0;
      forall c: nat | lo <= c < past ensures 0 < st.rc[c] <= MAX_REFCOUNT { assert EntryRefs(st.g, e, c) > 0; }
      FreeSucceeds(st, lo, past - lo);
  }

  // Writing within a cluster fails only if it needs a new cluster and there is none, counting the
  // storage it has just released.
  lemma WriteSlotExact(env: Env, st: Img, i: nat, j: nat, lo: nat, buf: seq<Sector>, e: Entry)
    requires Inv(st) && Stored16(st) && i < |st.l1| && st.l1[i].Plain? && j < st.g.width
    requires e == L2Word(st.disk, st.l1[i], j)
    ensures FreeEntry(st, e).Some?
    ensures WriteSlot(env, st, i, j, lo, buf).Some? <==> (e.Plain? && e.copied) || AllocFits(FreeEntry(st, e).value, 1)
  {
    hide Alloc, AllocFits, FreeEntry, EntryRefs, Inv;
    FreeEntrySucceeds(st, i, j, e);
    var st1 := FreeEntry(st, e).value;
    FreeEntrySpec(st, i, j, e, st1);
    AllocExact(st1, 1);
    SlotWidth(st, i);
  }

  lemma SlotWidth(st: Img, i: nat)
    requires Inv(st) && i < |st.l1| && st.l1[i].Plain?
    ensures |Ents(st.disk, st.l1[i].at)| == st.g.width
  {
    assert SlotTyped(st.g, st.disk, st.l1[i]);
  }

  // ----- counts stay within 16 bits -----

  lemma {:induction false} UpdRunStored(st: Img, lo: nat, n: nat, a: int)
    requires Stored16(st)
    ensures UpdRun(st, lo, n, a).Some? ==> Stored16(UpdRun(st, lo, n, a).value)
    decreases n
  {
    if n > 0 && Upd(st, lo, a).Some? { UpdRunStored(Upd(st, lo, a).value, lo + 1, n - 1, a); }
  }

  lemma AllocStored(st: Img, n: nat)
    requires Stored16(st)
    ensures Alloc(st, n).Some? ==> Stored16(Alloc(st, n).value.0)
  {
    hide UpdRun, FirstFit;
    var x := FirstFit(st.rc, st.freeIdx, Max1(n));
    UpdRunStored(st.(freeIdx := x + Max1(n)), x, n, 1);
  }

  lemma WalkEntryStored(st: Img, e: Entry, a: int)
    requires Stored16(st)
    ensures WalkEntry(st, e, a).Some? ==> Stored16(WalkEntry(st, e, a).value.0)
  {
    if e.Packed? && First(st.g, e) <= Past(st.g, e) {
      UpdRunStored(st, First(st.g, e), Past(st.g, e) - First(st.g, e), a);
    }
  }

  lemma {:induction false} WalkL2Stored(st: Img, ents: seq<Entry>, j: nat, a: int)
    requires Stored16(st)
    ensures WalkL2(st, ents, j, a).Some? ==> Stored16(WalkL2(st, ents, j, a).value.0)
    decreases |ents| - j
  {
    hide WalkEntry, Stored16;
    if j < |ents| && WalkEntry(st, ents[j], a).Some? {
      WalkEntryStored(st, ents[j], a);
      var (st1, e) := WalkEntry(st, ents[j], a).value;
      WalkL2Stored(st1, ents[j := e], j + 1, a);
    }
  }

  lemma {:induction false} WalkL1Stored(st: Img, l1: seq<Entry>, i: nat, a: int)
    requires Stored16(st)
    ensures WalkL1(st, l1, i, a).Some? ==> Stored16(WalkL1(st, l1, i, a).value.0)
    decreases |l1| - i
  {
    hide WalkL2;
    if i < |l1| && WalkSlot(st, l1[i], a).Some? {
      if l1[i].Plain? { WalkL2Stored(st, Ents(st.disk, l1[i].at), 0, a); }
      var (st1, e) := WalkSlot(st, l1[i], a).value;
      WalkL1Stored(st1, l1[i := e], i + 1, a);
    }
  }

  lemma WalkActiveStored(st: Img, a: int)
    requires Stored16(st)
    ensures WalkActive(st, a).Some? ==> Stored16(WalkActive(st, a).value)
  {
    hide WalkL1;
    WalkL1Stored(st, st.l1, 0, a);
  }

  lemma OwnStored(st: Img, i: nat)
    requires Stored16(st)
    ensures OwnL2(st, i).Some? ==> Stored16(OwnL2(st, i).value)
  {
    hide UpdRun, Alloc;
    AllocStored(st, 1);
    if i < |st.l1| && st.l1[i].Plain? && UpdRun(st, st.l1[i].at, 1, -1).Some? {
      UpdRunStored(st, st.l1[i].at, 1, -1);
      AllocStored(UpdRun(st, st.l1[i].at, 1, -1).value, 1);
    }
  }

  lemma FreeEntryStored(st: Img, e: Entry)
    requires Stored16(st)
    ensures FreeEntry(st, e).Some? ==> Stored16(FreeEntry(st, e).value)
  {
    hide UpdRun;
    if e.Plain? { UpdRunStored(st, e.at, 1, -1); }
    if e.Packed? && First(st.g, e) <= Past(st.g, e) {
      UpdRunStored(st, First(st.g, e), Past(st.g, e) - First(st.g, e), -1);
    }
  }

  lemma WriteSlotStored(env: Env, st: Img, i: nat, j: nat, lo: nat, buf: seq<Sector>)
    requires Stored16(st)
    ensures WriteSlot(env, st, i, j, lo, buf).Some? ==> Stored16(WriteSlot(env, st, i, j, lo, buf).value)
  {
    hide FreeEntry, Alloc, Content, Sealed, Patched;
    if i < |st.l1| && st.l1[i].Plain? && j < |Ents(st.disk, st.l1[i].at)| {
      var e := Ents(st.disk, st.l1[i].at)[j];
      FreeEntryStored(st, e);
      if FreeEntry(st, e).Some? { AllocStored(FreeEntry(st, e).value, 1); }
    }
  }

  lemma GrowStored(st: Img, min: nat)
    requires Stored16(st)
    ensures GrowL1(st, min).Some? ==> Stored16(GrowL1(st, min).value)
  {
    hide UpdRun, Alloc, StoreL1, L1Clusters, GrownSize;
    if 0 < |st.l1| < min {
      var l1 := Padded(st.l1, GrownSize(|st.l1|, min));
      AllocStored(st, L1Clusters(st.g, |l1|));
      if Alloc(st, L1Clusters(st.g, |l1|)).Some? {
        var (st1, at) := Alloc(st, L1Clusters(st.g, |l1|)).value;
        UpdRunStored(st1.(disk := StoreL1(st.g, st1.disk, at, l1)), st.l1At, L1Clusters(st.g, |st.l1|), -1);
      }
    }
  }

  lemma WriteSnapsStored(st: Img)
    requires Stored16(st)
    ensures WriteSnaps(st).Some? ==> Stored16(WriteSnaps(st).value)
  {
    hide UpdRun, Alloc, TableSize, SnapClusters;
    var n := SnapClusters(st.g, TableSize(st.snaps, |st.snaps|));
    AllocStored(st, n);
    if Alloc(st, n).Some? {
      var (st1, at) := Alloc(st, n).value;
      UpdRunStored(st1.(disk := FillRun(st1.disk, at, n)), st.snapsAt, SnapClusters(st.g, st.snapsSize), -1);
    }
  }

  lemma AddSnapStored(st: Img, info: Info)
    requires Stored16(st)
    ensures AddSnap(st, info).Some? ==> Stored16(AddSnap(st, info).value)
  {
    hide WalkActive, Alloc, StoreL1, L1Clusters;
    WalkActiveStored(st, 1);
    if WalkActive(st, 1).Some? { AllocStored(WalkActive(st, 1).value, L1Clusters(st.g, |st.l1|)); }
  }

  lemma GotoStored(st: Img, q: nat)
    requires Stored16(st)
    ensures GotoSnap(st, q).Some? ==> Stored16(GotoSnap(st, q).value)
  {
    hide WalkActive;
    WalkActiveStored(st, -1);
    if WalkActive(st, -1).Some? {
      var st1 := WalkActive(st, -1).value;
      if q < |st1.snaps| { WalkActiveStored(LoadSnap(st1, q), 1); }
    }
  }

  lemma DropStored(st: Img, q: nat)
    requires Stored16(st)
    ensures DropSnap(st, q).Some? ==> Stored16(DropSnap(st, q).value)
  {
    hide WalkActive, WalkL1, UpdRun, L1Clusters;
    if q < |st.snaps| {
      var s := st.snaps[q];
      WalkL1Stored(st, SnapL1(st.g, st.disk, s), 0, -1);
      if WalkSnap(st, q, -1).Some? {
        var st1 := WalkSnap(st, q, -1).value;
        WalkActiveStored(st1, 0);
        if WalkActive(st1, 0).Some? { UpdRunStored(WalkActive(st1, 0).value, s.l1At, L1Clusters(st.g, s.l1Size), -1); }
      }
    }
  }

  lemma WriteClusterStored(env: Env, st: Img, i: nat, j: nat, lo: nat, buf: seq<Sector>)
    requires Stored16(st)
    ensures WriteCluster(env, st, i, j, lo, buf).Some? ==> Stored16(WriteCluster(env, st, i, j, lo, buf).value)
  {
    hide GrowL1, OwnL2, WriteSlot;
    GrowStored(st, i + 1);
    if GrowL1(st, i + 1).Some? {
      var st1 := GrowL1(st, i + 1).value;
      OwnStored(st1, i);
      if OwnL2(st1, i).Some? { WriteSlotStored(env, OwnL2(st1, i).value, i, j, lo, buf); }
    }
  }

  // Every request keeps every count within the 16 bits it is stored in.
  lemma StepStored(env: Env, st: Img, op: Op, st': Img)
    requires Stored16(st) && Step(env, st, op) == Some(st')
    ensures Stored16(st')
  {
    hide WriteCluster, AddSnap, WriteSnaps, GotoSnap, DropSnap;
    match op
    case ChunkOp(sn, buf) =>
      var vc := Row(st.g.spc, sn);
      WriteClusterStored(env, st, Row(st.g.width, vc), Col(st.g.width, vc), Col(st.g.spc, sn), buf);
    case CreateOp(info) =>
      var info1 := Named(Infos(st.snaps), info);
      AddSnapStored(st, info1);
      if AddSnap(st, info1).Some? { WriteSnapsStored(AddSnap(st, info1).value); }
    case GotoOp(key) =>
      var r := Find(Infos(st.snaps), key);
      if r.Some? { GotoStored(st, r.value); }
    case DeleteOp(key) =>
      var r := Find(Infos(st.snaps), key);
      if r.Some? {
        DropStored(st, r.value);
        if DropSnap(st, r.value).Some? { WriteSnapsStored(DropSnap(st, r.value).value); }
      }
  }

  // ----- whole snapshot requests -----

  // Deleting a snapshot fails only when the new snapshot table has no room.
  lemma DeleteExact(env: Env, st: Img, q: nat)
    requires Inv(st) && Stored16(st) && q < |st.snaps|
    ensures DropSnap(st, q).Some?
    ensures Delete(st, q).Some? <==> TableFits(DropSnap(st, q).value)
  {
    hide DropSnap, WriteSnaps, AllocFits;
    DropSucceeds(st, q);
    var st1 := DropSnap(st, q).value;
    DropCorrect(env, st, q, st1);
    WriteSnapsExact(st1);
  }

  // Creating one fails only when a count would not fit, or there is no room for the copy of the L1
  // table and then for the new snapshot table.
  lemma CreateExact(env: Env, st: Img, info: Info)
    requires Inv(st) && Stored16(st)
    ensures Create(st, info).Some? <==> CreateFits(st, info)
  {
    hide AddSnap, WriteSnaps, AllocFits, Inv;
    AddSnapExact(st, info);
    if AddSnap(st, info).Some? {
      var st1 := AddSnap(st, info).value;
      AddSnapCorrect(env, st, info, st1);
      WriteSnapsExact(st1);
    }
  }

  // ----- whole requests -----

  // Room for a write within cluster (i, j), counting the storage it releases first.
  ghost predicate SlotRoom(st: Img, i: nat, j: nat)
  {
    var e := L2Word(st.disk, SlotAt(st.l1, i), j);
    (e.Plain? && e.copied) || AllocFits(Then(FreeEntry(st, e), st), 1)
  }

  // One turn of the write loop goes through exactly when the L1 table can grow, then an L2 table of its
  // own can be had, and then the cluster.
  ghost predicate ChunkFits(st: Img, i: nat, j: nat)
  {
    var st1 := Then(GrowL1(st, i + 1), st);
    var st2 := Then(OwnL2(st1, i), st1);
    GrowFits(st, i + 1) && OwnFits(st1, i) && SlotRoom(st2, i, j)
  }

  lemma WriteClusterExact(env: Env, st: Img, i: nat, j: nat, lo: nat, buf: seq<Sector>)
    requires Inv(st) && Stored16(st) && j < st.g.width
    ensures WriteCluster(env, st, i, j, lo, buf).Some? <==> ChunkFits(st, i, j)
  {
    hide Inv, Stored16, GrowL1, OwnL2, WriteSlot, GrowFits, OwnFits, AllocFits, FreeEntry;
    GrowExact(st, i + 1);
    if GrowL1(st, i + 1).Some? {
      var st1 := GrowL1(st, i + 1).value;
      GrowCorrect(env, st, i + 1, st1);
      GrowStored(st, i + 1);
      OwnExact(st1, i);
      if OwnL2(st1, i).Some? {
        var st2 := OwnL2(st1, i).value;
        OwnL2Correct(env, st1, i, st2);
        OwnStored(st1, i);
        WriteSlotExact(env, st2, i, j, lo, buf, L2Word(st2.disk, st2.l1[i], j));
      }
    }
  }

  // What each request needs, in terms of the image before it.
  ghost predicate StepFits(st: Img, op: Op)
  {
    match op
    case ChunkOp(sn, buf) =>
      var vc := Row(st.g.spc, sn);
      Col(st.g.spc, sn) + |buf| <= st.g.spc && ChunkFits(st, Row(st.g.width, vc), Col(st.g.width, vc))
    case CreateOp(info) =>
      var info1 := Named(Infos(st.snaps), info);
      FindId(Infos(st.snaps), info1.id, 0).Some? || CreateFits(st, info1)
    case GotoOp(key) => var r := Find(Infos(st.snaps), key); r.None? || GotoFits(st, r.value)
    case DeleteOp(key) => var r := Find(Infos(st.snaps), key); r.None? || TableFits(Then(DropSnap(st, r.value), st))
  }

  ghost predicate CreateFits(st: Img, info: Info)
  {
    && (forall c: nat :: c < |st.rc| ==> st.rc[c] + ActiveRefs(st, c) <= MAX_REFCOUNT)
    && AllocFits(st, L1Clusters(st.g, |st.l1|))
    && TableFits(Then(AddSnap(st, info), st))
  }

  ghost predicate GotoFits(st: Img, q: nat)
    requires q < |st.snaps|
  {
    && st.snaps[q].l1Size == |st.l1|
    && forall c: nat :: c < |st.rc| ==> st.rc[c] - ActiveRefs(st, c) + SnapTree(st, q, c) <= MAX_REFCOUNT
  }

  // The reasons above are the only ones: a request goes through exactly when it fits.
  lemma StepExact(env: Env, st: Img, op: Op)
    requires Inv(st) && Stored16(st)
    ensures Step(env, st, op).Some? <==> StepFits(st, op)
  {
    hide Inv, Stored16, WriteCluster, Create, Delete, GotoSnap, ChunkFits, CreateFits, TableFits, DropSnap;
    match op
    case ChunkOp(sn, buf) =>
      var vc := Row(st.g.spc, sn);
      WriteClusterExact(env, st, Row(st.g.width, vc), Col(st.g.width, vc), Col(st.g.spc, sn), buf);
    case CreateOp(info) => CreateExact(env, st, Named(Infos(st.snaps), info));
    case GotoOp(key) =>
      var r := Find(Infos(st.snaps), key);
      if r.Some? {
        GotoSize(st, r.value);
        if st.snaps[r.value].l1Size == |st.l1| { GotoExact(st, r.value); }
      }
    case DeleteOp(key) =>
      var r := Find(Infos(st.snaps), key);
      if r.Some? { DeleteExact(env, st, r.value); }
  }

  lemma GotoSize(st: Img, q: nat)
    requires q < |st.snaps|
    ensures GotoSnap(st, q).Some? ==> st.snaps[q].l1Size == |st.l1|
  {
  }

  // The flat disk an image shows.
  function Shown(env: Env, st: Img): Flat
  {
    Flat((t: nat) => SectorView(env, st, t), Infos(st.snaps),
         seq<nat -> Sector>(|st.snaps|, q requires 0 <= q < |st.snaps| => (t: nat) => SnapSector(env, st, q, t)))
  }

  lemma ShownShows(env: Env, st: Img)
    ensures Shows(env, st, Shown(env, st))
  {
    hide SectorView, SnapSector;
  }

  lemma StepInv(env: Env, st: Img, op: Op, st': Img)
    requires Inv(st) && env.Lawful() && Step(env, st, op) == Some(st')
    ensures Inv(st')
  {
    hide Inv, Step, Shows, FlatStep, Shown;
    ShownShows(env, st);
    assert [op][1..] == [];
    RunRefines(env, st, Shown(env, st), [op], st');
  }

  // A whole run goes through exactly when each of its requests fits the image it meets.
  ghost predicate RunFitsAll(env: Env, st: Img, ops: seq<Op>)
    decreases |ops|
  {
    |ops| == 0 || (StepFits(st, ops[0]) && RunFitsAll(env, Then(Step(env, st, ops[0]), st), ops[1..]))
  }

  lemma {:induction false} RunFitsExact(env: Env, st: Img, ops: seq<Op>)
    requires Inv(st) && Stored16(st) && env.Lawful()
    ensures Run(env, st, ops).Some? <==> RunFitsAll(env, st, ops)
    decreases |ops|
  {
    hide Inv, Stored16, Step, StepFits, Shows, FlatRun;
    if |ops| > 0 {
      StepExact(env, st, ops[0]);
      if Step(env, st, ops[0]).Some? {
        var st1 := Step(env, st, ops[0]).value;
        StepInv(env, st, ops[0], st1);
        StepStored(env, st, ops[0], st1);
        RunFitsExact(env, st1, ops[1..]);
      }
    }
  }

  // ----- free clusters are not enough -----

  // A new image whose L1 table fills the range of the first refcount block: all later ranges are free, but a
  // run that takes all of the second leaves the block that would count it nowhere to go in that range.
  lemma FullRange(g: Geo, blocks: nat, l1Size: nat)
    requires g.reach > 1 && blocks > 1 && L1Clusters(g, l1Size) + 3 == g.reach
    ensures var st := Created(g, blocks, l1Size);
      Inv(st) && RunFree(st.rc, g.reach, |st.rc|) && Alloc(st, g.reach).None? && Alloc(st, g.reach - 1).Some?
  {
    hide Inv, Alloc, StoreL1;
    var st := Created(g, blocks, l1Size);
    CreatedInv(g, blocks, l1Size);
    InvSound(st);
    TwoRanges(g.reach, blocks);
    FreeFrom(st, g.reach, g.reach);
    FreeFrom(st, g.reach, g.reach - 1);
    AllocExact(st, g.reach);
    AllocExact(st, g.reach - 1);
  }

  lemma Twice(reach: nat, blocks: nat)
    requires blocks > 1
    ensures reach + reach <= blocks * reach
  {
    assert blocks * reach == 2 * reach + (blocks - 2) * reach;
  }

  lemma TwoRanges(reach: nat, blocks: nat)
    requires reach > 0 && blocks > 1
    ensures reach + reach <= blocks * reach && Row(reach, reach + reach) == 2
    ensures forall c: nat :: reach <= c < reach + reach ==> Row(reach, c) == 1
  {
    hide Row;
    RowColOf(reach, 2, 0);
    forall c: nat | reach <= c < reach + reach ensures Row(reach, c) == 1 { RowColOf(reach, 1, c - reach); }
    Twice(reach, blocks);
  }

  // The first fit on an image whose first k clusters are counted and the others free.
  lemma FreeFrom(st: Img, k: nat, n: nat)
    requires st.freeIdx == 0 && n > 0 && k <= |st.rc|
    requires forall c: nat :: c < |st.rc| ==> (st.rc[c] == 0 <==> c >= k)
    ensures FirstFit(st.rc, st.freeIdx, n) == k && RunFree(st.rc, k, n)
  {
    FirstFitSpec(st.rc, 0, n);
    var x := FirstFit(st.rc, 0, n);
    assert RcOf(st.rc, x) == 0;
    assert RunFree(st.rc, k, n);
  }

  // Such an image exists with the smallest clusters qcow_open accepts, where a refcount table has 64 entries.
  lemma AllocStuck()
    ensures var st := Created(Geo(1, 64, 256, 512), 64, 253 * 64);
      Inv(st) && RunFree(st.rc, 256, |st.rc|) && Alloc(st, 256).None? && Alloc(st, 255).Some?
  {
    RowColOf(64, 253, 63);
    assert L1Clusters(Geo(1, 64, 256, 512), 253 * 64) == 253;
    FullRange(Geo(1, 64, 256, 512), 64, 253 * 64);
  }
}

// Writing guest data: get_cluster_offset with allocate = 1, followed by the data write.

module GuestWrite {
  import opened Basics
  import opened Arith
  import opened Layout
  import opened Refcounts
  import opened Invariant

  function SetBlock(disk: Disk, c: nat, b: Block): (d: Disk)
    ensures |d| == |disk|
  {
    if c < |disk| then disk[c := b] else disk
  }

  function PutWord(disk: Disk, c: nat, w: nat, e: Entry): (d: Disk)
    ensures |d| == |disk|
  {
    if c < |disk| && disk[c].L1? && w < |disk[c].ents|
    then disk[c := L1(disk[c].ents[w := e])] else disk
  }

  function PutL1Word(g: Geo, disk: Disk, at: nat, i: nat, e: Entry): (d: Disk)
    ensures |d| == |disk|
  {
    PutWord(disk, at + Row(g.width, i), Col(g.width, i), e)
  }

  function ZeroTable(g: Geo): (t: seq<Entry>)
    ensures |t| == g.width && forall j :: 0 <= j < |t| ==> t[j] == Zero
  {
    seq(g.width, _ => Zero)
  }

  // Point L1 slot i at a fresh L2 table in cluster n.
  function Relink(st: Img, i: nat, n: nat, ents: seq<Entry>): Img
    requires i < |st.l1|
  {
    st.(l1 := st.l1[i := Plain(n, true)],
        disk := PutL1Word(st.g, SetBlock(st.disk, n, L2(ents)), st.l1At, i, Plain(n, true)))
  }

  // Give the active tree its own L2 table for slot i.
  function OwnL2(st: Img, i: nat): Option<Img>
  {
    if i >= |st.l1| then None
    else match st.l1[i]
      case Packed(_, _, _) => None
      case Zero =>
        var (st1, n) :- Alloc(st, 1);
        if i >= |st1.l1| then None else Some(Relink(st1, i, n, ZeroTable(st.g)))
      case Plain(at, copied) =>
        if copied then Some(st) else
          var st0 :- UpdRun(st, at, 1, -1);
          var (st1, n) :- Alloc(st0, 1);
          if i >= |st1.l1| then None else Some(Relink(st1, i, n, Ents(st1.disk, at)))
  }

  // ----- the L1 word on disk -----

  lemma {:induction false} ShapeAt(g: Geo, disk: Disk, at: nat, size: nat, i: nat)
    requires L1Shape(g, disk, at, size) && i < size
    ensures var c := at + Row(g.width, i);
      c < |disk| && disk[c].L1? && Col(g.width, i) < |disk[c].ents|
    decreases size
  {
    if i >= g.width { ShapeAt(g, disk, at + 1, size - g.width, i - g.width); }
  }

  lemma {:induction false} PutShape(g: Geo, disk: Disk, c: nat, w: nat, e: Entry, at: nat, size: nat)
    requires L1Shape(g, disk, at, size)
    ensures L1Shape(g, PutWord(disk, c, w, e), at, size)
    decreases size
  {
    if size > g.width { PutShape(g, disk, c, w, e, at + 1, size - g.width); }
  }

  lemma PutStored(g: Geo, disk: Disk, at: nat, l1: seq<Entry>, i: nat, e: Entry)
    requires Stored(g, disk, at, l1) && i < |l1|
    ensures Stored(g, PutL1Word(g, disk, at, i, e), at, l1[i := e])
  {
    var d', l1' := PutL1Word(g, disk, at, i, e), l1[i := e];
    PutShape(g, disk, at + Row(g.width, i), Col(g.width, i), e, at, |l1|);
    ShapeAt(g, disk, at, |l1|, i);
    forall k: nat | k < |l1'| ensures ReadL1(g, d', at, |l1'|)[k] == l1'[k] {
      ShapeAt(g, disk, at, |l1|, k);
      assert ReadL1(g, disk, at, |l1|)[k] == l1[k];
      if Row(g.width, k) == Row(g.width, i) && Col(g.width, k) == Col(g.width, i) { SameSlot(g.width, k, i); }
    }
  }

  lemma PutInside(g: Geo, disk: Disk, at: nat, size: nat, i: nat, e: Entry, x: nat)
    requires i < size && x < |disk| && PutL1Word(g, disk, at, i, e)[x] != disk[x]
    ensures InRun(x, at, L1Clusters(g, size)) > 0
  {
    L1WordInRun(g, size, i);
  }

  // ----- taking over an L2 table -----

  ghost predicate Quiet(st: Img, c: nat)
  {
    ActiveRefs(st, c) == 0 && SavedRefs(st, c) == 0
  }

  // What OwnL2 does when it replaces the table of slot i by the fresh cluster n.
  ghost predicate Owned(st: Img, st': Img, i: nat, n: nat)
  {
    && i < |st.l1| && !st.l1[i].Packed?
    && st' == st.(disk := st'.disk, table := st'.table, rc := st'.rc, freeIdx := st'.freeIdx,
                  l1 := st.l1[i := Plain(n, true)])
    && |st'.disk| == |st.disk| && |st'.rc| == |st.rc| && |st'.table| == |st.table|
    && (forall x: nat :: x < |st.disk| && st'.disk[x] != st.disk[x] ==> Quiet(st, x))
    && n < |st.disk| && Quiet(st, n) && RcOf(st.rc, n) == 0 && RcOf(st'.rc, n) == 1
    && st'.disk[n] == L2(if st.l1[i].Zero? then ZeroTable(st.g) else Ents(st.disk, st.l1[i].at))
    && (forall c: nat :: st'.Blk(c) >= st.Blk(c))
    && (forall c: nat :: st'.Blk(c) > st.Blk(c) ==> RcOf(st.rc, c) == 0 && RcOf(st'.rc, c) == 1)
    && (forall c: nat :: c < |st.rc| ==>
          st'.rc[c] == st.rc[c] - B2N(st.l1[i].Plain? && st.l1[i].at == c) + B2N(c == n) + st'.Blk(c) - st.Blk(c))
    && st'.Covered()
    && Stored(st'.g, st'.disk, st'.l1At, st'.l1)
    && (st.l1[i].Plain? ==> !st.l1[i].copied)
  }

  lemma {:induction false} ZeroTableRefs(g: Geo, t: seq<Entry>, n: nat, c: nat)
    requires n <= |t| && forall j :: 0 <= j < |t| ==> t[j] == Zero
    ensures L2Refs(g, t, n, c) == 0
  {
    if n > 0 { ZeroTableRefs(g, t, n - 1, c); }
  }

  // Active references move from the old table to the new one; nothing else changes.
  lemma OwnedRefs(st: Img, st': Img, i: nat, n: nat, c: nat)
    requires Inv(st) && Owned(st, st', i, n)
    ensures ActiveRefs(st', c) == ActiveRefs(st, c) - B2N(st.l1[i].Plain? && st.l1[i].at == c) + B2N(c == n)
  {
    forall k: nat | k < |st.l1| && k != i
      ensures SlotRefs(st.g, st.disk, st.l1[k], c) == SlotRefs(st.g, st'.disk, st'.l1[k], c)
    {
      var e := st.l1[k];
      assert SlotTyped(st.g, st.disk, e);
      if e.Plain? { TreeRefsAt(st.g, st.disk, st.l1, |st.l1|, k, e.at); }
    }
    TreeRefsUpdate(st.g, st.disk, st'.disk, st.l1, st'.l1, |st.l1|, i, c);
    assert SlotTyped(st.g, st.disk, st.l1[i]);
    if st.l1[i].Zero? {
      ZeroTableRefs(st.g, ZeroTable(st.g), st.g.width, c);
    } else {
      TreeRefsAt(st.g, st.disk, st.l1, |st.l1|, i, st.l1[i].at);
    }
  }

  // The word at (k, j) is the same before and after.
  lemma OwnedWord(st: Img, st': Img, i: nat, n: nat, k: nat, j: nat)
    requires Inv(st) && Owned(st, st', i, n) && k < |st.l1|
    ensures L2Word(st'.disk, st'.l1[k], j) == L2Word(st.disk, st.l1[k], j)
  {
    var e := st.l1[k];
    assert SlotTyped(st.g, st.disk, e);
    if e.Plain? { TreeRefsAt(st.g, st.disk, st.l1, |st.l1|, k, e.at); }
  }

  // Everything the word at (k, j) points to is in the tree.
  lemma WordRefs(st: Img, k: nat, j: nat, x: nat)
    requires k < |st.l1|
    ensures ActiveRefs(st, x) >= EntryRefs(st.g, L2Word(st.disk, st.l1[k], j), x)
    ensures st.l1[k].Plain? ==>
      ActiveRefs(st, x) >= EntryRefs(st.g, L2Word(st.disk, st.l1[k], j), x) + B2N(x == st.l1[k].at)
  {
    TreeRefsAt(st.g, st.disk, st.l1, |st.l1|, k, x);
    var e := st.l1[k];
    if e.Plain? && j < |Ents(st.disk, e.at)| { L2RefsAt(st.g, Ents(st.disk, e.at), |Ents(st.disk, e.at)|, j, x); }
  }

  // Nothing below L1 slot k and L2 index j other than slot i's own table is the old table or the new one.
  lemma OwnedApart(st: Img, st': Img, i: nat, n: nat, k: nat, j: nat)
    requires Inv(st) && Owned(st, st', i, n) && k < |st.l1|
    ensures k != i && st.l1[k].Plain? ==> st.l1[k].at != n && (st.l1[i].Plain? ==> st.l1[k].at != st.l1[i].at)
    ensures var e := L2Word(st.disk, st.l1[k], j);
      e.Plain? ==> e.at != n && (st.l1[i].Plain? ==> e.at != st.l1[i].at)
  {
    if st.l1[k].Plain? { TreeRefsAt(st.g, st.disk, st.l1, |st.l1|, k, st.l1[k].at); }
    if k < i { TreeRefsAt2(st.g, st.disk, st.l1, |st.l1|, k, i, SlotCluster(st.l1[i])); }
    if k > i { TreeRefsAt2(st.g, st.disk, st.l1, |st.l1|, i, k, SlotCluster(st.l1[i])); }
    var e := L2Word(st.disk, st.l1[k], j);
    if e.Plain? {
      WordRefs(st, k, j, e.at);
      L2RefsAt(st.g, Ents(st.disk, st.l1[k].at), |Ents(st.disk, st.l1[k].at)|, j, e.at);
    }
  }

  function SlotCluster(e: Entry): nat { if e.Plain? then e.at else 0 }

  lemma OwnedExact(st: Img, st': Img, i: nat, n: nat)
    requires Inv(st) && Owned(st, st', i, n)
    ensures Exact(st') && SavedOk(st')
  {
    SavedFrame(st, st'.disk);
    forall c: nat ensures RcOf(st'.rc, c) == Refs(st', c) + st'.Blk(c) {
      OwnedRefs(st, st', i, n, c);
      assert SavedRefs(st', c) == SavedRefs(st.(disk := st'.disk), c);
    }
  }

  // A cluster in no active tree with count 1 keeps it.
  lemma OwnedOne(st: Img, st': Img, i: nat, n: nat, c: nat)
    requires Owned(st, st', i, n) && RcOf(st.rc, c) == 1 && ActiveRefs(st, c) == 0
    ensures RcOf(st'.rc, c) == 1
  {
    hide Stored, Quiet;
    if st.l1[i].Plain? { TreeRefsAt(st.g, st.disk, st.l1, |st.l1|, i, SlotCluster(st.l1[i])); }
  }

  lemma OwnedMeta(st: Img, st': Img, i: nat, n: nat)
    requires Inv(st) && Owned(st, st', i, n)
    ensures MetaOnce(st')
  {
    forall c: nat | RcOf(st.rc, c) == 1 && ActiveRefs(st, c) == 0 ensures RcOf(st'.rc, c) == 1 {
      OwnedOne(st, st', i, n, c);
    }
    forall q: nat, c: nat | q < |st.snaps| && InRun(c, st.snaps[q].l1At, L1Clusters(st.g, st.snaps[q].l1Size)) > 0
      ensures RcOf(st'.rc, c) == 1
    {
      SnapsRefsAt(st.g, st.disk, st.snaps, |st.snaps|, q, c);
    }
  }

  lemma OwnedTree(st: Img, st': Img, i: nat, n: nat)
    requires Inv(st) && Owned(st, st', i, n)
    ensures TreeOk(st'.g, st'.disk, st'.l1)
  {
    forall k: nat | k < |st'.l1| ensures SlotTyped(st'.g, st'.disk, st'.l1[k]) {
      assert SlotTyped(st.g, st.disk, st.l1[k]);
      OwnedSlot(st, st', i, n, k);
    }
    forall k: nat | k < |st'.l1| && st'.l1[k].Plain?
      ensures TreeRefs(st'.g, st'.disk, st'.l1, |st'.l1|, st'.l1[k].at) == 1
    {
      OwnedApart(st, st', i, n, k, 0);
      OwnedRefs(st, st', i, n, st'.l1[k].at);
    }
    forall k: nat, j: nat | k < |st'.l1| && L2Word(st'.disk, st'.l1[k], j).Plain?
      ensures TreeRefs(st'.g, st'.disk, st'.l1, |st'.l1|, L2Word(st'.disk, st'.l1[k], j).at) == 1
    {
      OwnedWord(st, st', i, n, k, j);
      OwnedApart(st, st', i, n, k, j);
      OwnedRefs(st, st', i, n, L2Word(st.disk, st.l1[k], j).at);
    }
  }

  lemma OwnedSlot(st: Img, st': Img, i: nat, n: nat, k: nat)
    requires Inv(st) && Owned(st, st', i, n) && k < |st.l1|
    ensures SlotTyped(st'.g, st'.disk, st'.l1[k])
  {
    assert SlotTyped(st.g, st.disk, st.l1[k]);
    var t := st'.l1[k];
    if t.Plain? {
      if st.l1[k].Plain? { TreeRefsAt(st.g, st.disk, st.l1, |st.l1|, k, st.l1[k].at); }
      forall j: nat | j < st.g.width ensures EntryTyped(st.g, st'.disk, st'.disk[t.at].ents[j]) {
        OwnedWord(st, st', i, n, k, j);
        var e := L2Word(st.disk, st.l1[k], j);
        forall x: nat | x < |st.disk| && EntryRefs(st.g, e, x) > 0 ensures Same(st.disk[x], st'.disk[x]) {
          WordRefs(st, k, j, x);
        }
        EntryTypedFrame(st.g, st.disk, st'.disk, e, e);
      }
    }
  }

  lemma OwnedFlags(st: Img, st': Img, i: nat, n: nat)
    requires Inv(st) && Owned(st, st', i, n)
    ensures Flagged(st')
  {
    forall k: nat | k < |st'.l1| && st'.l1[k].Plain?
      ensures st'.l1[k].copied <==> RcOf(st'.rc, st'.l1[k].at) == 1
    {
      OwnedApart(st, st', i, n, k, 0);
      if k != i {
        TreeRefsAt(st.g, st.disk, st.l1, |st.l1|, k, st.l1[k].at);
        assert RcOf(st.rc, st.l1[k].at) > 0;
      }
    }
    forall k: nat, j: nat | k < |st'.l1| && L2Word(st'.disk, st'.l1[k], j).Plain?
      ensures L2Word(st'.disk, st'.l1[k], j).copied <==> RcOf(st'.rc, L2Word(st'.disk, st'.l1[k], j).at) == 1
    {
      OwnedWord(st, st', i, n, k, j);
      OwnedApart(st, st', i, n, k, j);
      WordRefs(st, k, j, L2Word(st.disk, st.l1[k], j).at);
      assert RcOf(st.rc, L2Word(st.disk, st.l1[k], j).at) > 0;
    }
  }

  lemma OwnedInv(st: Img, st': Img, i: nat, n: nat)
    requires Inv(st) && Owned(st, st', i, n)
    ensures Inv(st')
  {
    OwnedExact(st, st', i, n);
    OwnedMeta(st, st', i, n);
    OwnedTree(st, st', i, n);
    OwnedFlags(st, st', i, n);
  }

  lemma OwnedView(env: Env, st: Img, st': Img, i: nat, n: nat, k: nat, j: nat, s: nat)
    requires Inv(st) && Owned(st, st', i, n)
    ensures TreeView(env, st.g, st'.disk, st'.l1, k, j, s) == TreeView(env, st.g, st.disk, st.l1, k, j, s)
  {
    if k < |st.l1| {
      OwnedWord(st, st', i, n, k, j);
      var e := L2Word(st.disk, st.l1[k], j);
      forall x: nat | x < |st.disk| && EntryRefs(st.g, e, x) > 0 ensures Same(st.disk[x], st'.disk[x]) {
        WordRefs(st, k, j, x);
      }
      EntryViewFrame(env, st.g, st.disk, st'.disk, e, e, SectorNum(st.g, k, j, s), s);
    }
  }

  // ----- from OwnL2 to Owned -----

  // Dropping references held by the active tree leaves the allocator's own data sound.
  lemma DropSound(st: Img, st': Img, lo: nat, n: nat)
    requires Inv(st) && Dropped(st, st', lo, n)
    requires forall c: nat :: lo <= c < lo + n ==> ActiveRefs(st, c) > 0
    ensures st'.Sound()
    ensures forall c: nat :: st'.Blk(c) == st.Blk(c)
  {
    InvSound(st);
    forall c: nat | c < |st'.rc| && st'.rc[c] > 0 ensures st'.HasBlock(c) { assert st.HasBlock(c); }
    assert RcOf(st.rc, 0) == Refs(st, 0) + st.Blk(0);
    forall c: nat | st'.Blk(c) > 0 ensures c < |st'.rc| && st'.rc[c] > 0 {
      assert st.Blk(c) > 0;
      assert RcOf(st.rc, c) == 1;
    }
  }

  // stA is st, or st with the reference from slot i to its old table dropped.
  ghost predicate Released(st: Img, stA: Img, i: nat)
  {
    && i < |st.l1| && !st.l1[i].Packed? && (st.l1[i].Plain? ==> !st.l1[i].copied)
    && stA == st.(rc := stA.rc, freeIdx := stA.freeIdx) && |stA.rc| == |st.rc|
    && (forall c: nat :: c < |st.rc| ==> stA.rc[c] == st.rc[c] - B2N(st.l1[i].Plain? && st.l1[i].at == c))
  }

  lemma ReleasedFree(st: Img, stA: Img, i: nat, c: nat)
    requires Inv(st) && Released(st, stA, i) && c < |st.rc| && stA.rc[c] == 0
    ensures st.rc[c] == 0 && Quiet(st, c) && InRun(c, st.l1At, L1Clusters(st.g, |st.l1|)) == 0
  {
    var t := SlotCluster(st.l1[i]);
    TreeRefsAt(st.g, st.disk, st.l1, |st.l1|, i, t);
    assert st.l1[i].Plain? ==> RcOf(st.rc, t) >= 2;
    assert RcOf(st.rc, c) == 0;
  }

  // The blocks Relink replaces are quiet, and the fresh table is not one of the L1 table's clusters.
  lemma RelinkBlock(st: Img, stA: Img, st1: Img, i: nat, n: nat, ents: seq<Entry>)
    requires Inv(st) && Released(st, stA, i) && stA.Sound() && Allocated(stA, st1, n, 1)
    ensures var d1 := SetBlock(st1.disk, n, L2(ents));
      && |d1| == |st.disk| && n < |d1| && d1[n] == L2(ents)
      && (forall x: nat :: x < |st.disk| && d1[x] != st.disk[x] ==> Quiet(st, x))
      && (forall x: nat :: x < |st.disk| && InRun(x, st.l1At, L1Clusters(st.g, |st.l1|)) > 0 ==>
            d1[x] == st.disk[x] && x != n && Quiet(st, x))
  {
    var d1 := SetBlock(st1.disk, n, L2(ents));
    ReleasedFree(st, stA, i, n);
    forall x: nat | x < |st.disk| && d1[x] != st.disk[x] ensures Quiet(st, x) && st.rc[x] == 0 {
      assert stA.Blk(x) == st.Blk(x);
      if x != n { ReleasedFree(st, stA, i, x); }
    }
    forall x: nat | x < |st.disk| && InRun(x, st.l1At, L1Clusters(st.g, |st.l1|)) > 0
      ensures d1[x] == st.disk[x] && Quiet(st, x)
    {
      assert RcOf(st.rc, x) == 1;
    }
  }

  lemma RelinkDisk(st: Img, d1: Disk, i: nat, n: nat)
    requires Inv(st) && i < |st.l1| && |d1| == |st.disk| && n < |d1|
    requires forall x: nat :: x < |st.disk| && d1[x] != st.disk[x] ==> Quiet(st, x)
    requires forall x: nat :: x < |st.disk| && InRun(x, st.l1At, L1Clusters(st.g, |st.l1|)) > 0 ==>
      d1[x] == st.disk[x] && x != n && Quiet(st, x)
    ensures var d' := PutL1Word(st.g, d1, st.l1At, i, Plain(n, true));
      && Stored(st.g, d', st.l1At, st.l1[i := Plain(n, true)])
      && d'[n] == d1[n]
      && (forall x: nat :: x < |st.disk| && d'[x] != st.disk[x] ==> Quiet(st, x))
  {
    StoredFrame(st.g, st.disk, d1, st.l1At, st.l1);
    PutStored(st.g, d1, st.l1At, st.l1, i, Plain(n, true));
    var d' := PutL1Word(st.g, d1, st.l1At, i, Plain(n, true));
    forall x: nat | x < |st.disk| && d'[x] != d1[x] ensures InRun(x, st.l1At, L1Clusters(st.g, |st.l1|)) > 0 {
      PutInside(st.g, d1, st.l1At, |st.l1|, i, Plain(n, true), x);
    }
  }

  lemma RelinkOwned(st: Img, stA: Img, st1: Img, i: nat, n: nat, ents: seq<Entry>)
    requires Inv(st) && Released(st, stA, i) && stA.Sound()
    requires Allocated(stA, st1, n, 1) && st1.Covered()
    requires ents == if st.l1[i].Zero? then ZeroTable(st.g) else Ents(st.disk, st.l1[i].at)
    ensures Owned(st, Relink(st1, i, n, ents), i, n)
  {
    var st' := Relink(st1, i, n, ents);
    var d1 := SetBlock(st1.disk, n, L2(ents));
    RelinkBlock(st, stA, st1, i, n, ents);
    RelinkDisk(st, d1, i, n);
    ReleasedFree(st, stA, i, n);
    RelinkCounts(st, stA, st1, i, n, st');
  }

  lemma RelinkCounts(st: Img, stA: Img, st1: Img, i: nat, n: nat, st': Img)
    requires Inv(st) && Released(st, stA, i) && stA.Sound()
    requires Allocated(stA, st1, n, 1) && st1.Covered()
    requires st' == st1.(disk := st'.disk, l1 := st'.l1)
    ensures st'.Covered()
    ensures forall c: nat :: st'.Blk(c) >= st.Blk(c)
    ensures forall c: nat :: st'.Blk(c) > st.Blk(c) ==> RcOf(st.rc, c) == 0 && RcOf(st'.rc, c) == 1
    ensures forall c: nat :: c < |st.rc| ==>
      st'.rc[c] == st.rc[c] - B2N(st.l1[i].Plain? && st.l1[i].at == c) + B2N(c == n) + st'.Blk(c) - st.Blk(c)
  {
    assert forall c: nat :: stA.Blk(c) == st.Blk(c) && st'.Blk(c) == st1.Blk(c);
    forall c: nat | c < |st'.rc| && st'.rc[c] > 0 ensures st'.HasBlock(c) { assert st1.HasBlock(c); }
    forall c: nat | st'.Blk(c) > st.Blk(c) ensures RcOf(st.rc, c) == 0 && RcOf(st'.rc, c) == 1 {
      ReleasedFree(st, stA, i, c);
    }
  }

  lemma OwnZero(st: Img, i: nat, st': Img) returns (n: nat)
    requires Inv(st) && i < |st.l1| && st.l1[i].Zero? && OwnL2(st, i) == Some(st')
    ensures Owned(st, st', i, n)
  {
    InvSound(st);
    var st1 := Alloc(st, 1).value.0;
    n := Alloc(st, 1).value.1;
    AllocSpec(st, 1, st1, n);
    RelinkOwned(st, st, st1, i, n, ZeroTable(st.g));
  }

  lemma SharedCount(st: Img, i: nat)
    requires Inv(st) && i < |st.l1| && st.l1[i].Plain? && !st.l1[i].copied
    ensures RcOf(st.rc, st.l1[i].at) >= 2 && ActiveRefs(st, st.l1[i].at) > 0
  {
    TreeRefsAt(st.g, st.disk, st.l1, |st.l1|, i, st.l1[i].at);
  }

  lemma ReleaseShared(st: Img, i: nat, st0: Img)
    requires Inv(st) && i < |st.l1| && st.l1[i].Plain? && !st.l1[i].copied
    requires UpdRun(st, st.l1[i].at, 1, -1) == Some(st0)
    ensures Released(st, st0, i) && st0.Sound()
    ensures st.l1[i].at < |st0.rc| && st0.rc[st.l1[i].at] > 0
  {
    hide UpdRun, Exact, MetaOnce, TreeOk, Flagged, Stored, SavedOk;
    var at := st.l1[i].at;
    FreeSpec(st, at, 1, st0);
    SharedCount(st, i);
    DropSound(st, st0, at, 1);
  }

  lemma OwnShared(st: Img, i: nat, st': Img) returns (n: nat)
    requires Inv(st) && i < |st.l1| && st.l1[i].Plain? && !st.l1[i].copied && OwnL2(st, i) == Some(st')
    ensures Owned(st, st', i, n)
  {
    hide Inv, UpdRun, Alloc;
    var at := st.l1[i].at;
    var st0 := UpdRun(st, at, 1, -1).value;
    ReleaseShared(st, i, st0);
    var st1 := Alloc(st0, 1).value.0;
    n := Alloc(st0, 1).value.1;
    AllocSpec(st0, 1, st1, n);
    assert Ents(st1.disk, at) == Ents(st.disk, at);
    RelinkOwned(st, st0, st1, i, n, Ents(st.disk, at));
  }

  // OwnL2 either finds an unshared table or moves the slot to a fresh copy.
  lemma OwnL2Spec(st: Img, i: nat, st': Img)
    requires Inv(st) && OwnL2(st, i) == Some(st')
    ensures st' != st ==> exists n: nat :: Owned(st, st', i, n)
    ensures i < |st.l1| && |st'.l1| == |st.l1| && st'.l1[i].Plain? && st'.l1[i].copied
  {
    if st.l1[i].Zero? {
      var n := OwnZero(st, i, st');
    } else if !st.l1[i].copied {
      var n := OwnShared(st, i, st');
    }
  }

  // ----- snapshots -----

  function SnapView(env: Env, st: Img, q: nat, i: nat, j: nat, k: nat): Sector
    requires q < |st.snaps|
  {
    TreeView(env, st.g, st.disk, SnapL1(st.g, st.disk, st.snaps[q]), i, j, k)
  }

  function View(env: Env, st: Img, i: nat, j: nat, k: nat): Sector
  {
    TreeView(env, st.g, st.disk, st.l1, i, j, k)
  }

  // The active image shows the same data.
  ghost predicate SameView(env: Env, st: Img, st': Img)
  {
    forall i: nat, j: nat, k: nat :: View(env, st', i, j, k) == View(env, st, i, j, k)
  }

  // Snapshot q2 of st' shows what snapshot q of st showed.
  ghost predicate SnapKept(env: Env, st: Img, q: nat, st': Img, q2: nat)
    requires q < |st.snaps| && q2 < |st'.snaps|
  {
    forall i: nat, j: nat, k: nat :: SnapView(env, st', q2, i, j, k) == SnapView(env, st, q, i, j, k)
  }

  // Snapshot q of st' shows what the active image of st showed.
  ghost predicate SnapIs(env: Env, st': Img, q: nat, st: Img)
    requires q < |st'.snaps|
  {
    forall i: nat, j: nat, k: nat :: SnapView(env, st', q, i, j, k) == View(env, st, i, j, k)
  }

  // No snapshot's data changes.
  ghost predicate SavedKept(env: Env, st: Img, st': Img)
  {
    st'.snaps == st.snaps && forall q: nat :: q < |st.snaps| ==> SnapKept(env, st, q, st', q)
  }

  lemma SavedViews(env: Env, st: Img, st': Img)
    requires SavedOk(st) && |st'.disk| == |st.disk| && st'.snaps == st.snaps && st'.g == st.g
    requires forall x: nat :: x < |st.disk| && SavedRefs(st, x) > 0 ==> Same(st.disk[x], st'.disk[x])
    ensures SavedKept(env, st, st')
  {
    forall q: nat | q < |st.snaps| ensures SnapKept(env, st, q, st', q) { SnapViews(env, st, st', q); }
  }

  lemma SnapViews(env: Env, st: Img, st': Img, q: nat)
    requires SavedOk(st) && |st'.disk| == |st.disk| && st'.snaps == st.snaps && st'.g == st.g && q < |st.snaps|
    requires forall x: nat :: x < |st.disk| && SavedRefs(st, x) > 0 ==> Same(st.disk[x], st'.disk[x])
    ensures SnapKept(env, st, q, st', q)
  {
    forall i: nat, j: nat, k: nat ensures SnapView(env, st', q, i, j, k) == SnapView(env, st, q, i, j, k) {
      SnapOkFrame(st, st'.disk, q);
      var l1, l1' := SnapL1(st.g, st.disk, st.snaps[q]), SnapL1(st.g, st'.disk, st.snaps[q]);
      forall x: nat | x < |st.disk| && TreeRefs(st.g, st.disk, l1, |l1|, x) > 0 ensures Same(st.disk[x], st'.disk[x]) {
        SnapsRefsAt(st.g, st.disk, st.snaps, |st.snaps|, q, x);
      }
      TreeViewFrame(env, st.g, st.disk, st'.disk, l1, l1', i, j, k);
    }
  }

  lemma SnapKeptTrans(env: Env, a: Img, q: nat, b: Img, q2: nat, c: Img, q3: nat)
    requires q < |a.snaps| && q2 < |b.snaps| && q3 < |c.snaps|
    requires SnapKept(env, a, q, b, q2) && SnapKept(env, b, q2, c, q3)
    ensures SnapKept(env, a, q, c, q3)
  {
    forall i: nat, j: nat, k: nat ensures SnapView(env, c, q3, i, j, k) == SnapView(env, a, q, i, j, k) {
      assert SnapView(env, c, q3, i, j, k) == SnapView(env, b, q2, i, j, k);
    }
  }

  lemma SavedKeptTrans(env: Env, a: Img, b: Img, c: Img)
    requires SavedKept(env, a, b) && SavedKept(env, b, c)
    ensures SavedKept(env, a, c)
  {
    forall q: nat | q < |a.snaps| ensures SnapKept(env, a, q, c, q) { SnapKeptTrans(env, a, q, b, q, c, q); }
  }
}

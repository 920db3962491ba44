// The driver state with its caches.  Every operation is proved against the cache-free image of
// the other modules: Abs() is that image, and the caches never show through.

module Driver {
  import opened Basics
  import opened Arith
  import ByteAlloc
  import opened Layout
  import opened Refcounts
  import opened SnapIds
  import opened Invariant
  import opened Storage
  import opened GuestWrite
  import opened DataWrite
  import opened L2Cache
  import opened Compressed
  import opened ClusterCache
  import opened SnapshotGoto
  import opened Walk
  import opened Snapshots
  import opened SnapshotCreate
  import opened SnapshotDelete
  import opened SnapTable
  import opened TableMoves
  import opened Fresh
  import opened L1Table
  import opened L1Grow
  import opened Runs
  import HostBytes
  import Packing
  import Conversion
  import PackCache

  lemma {:induction false} FirstFitSkip(rc: seq<nat>, f: nat, f': nat, m: nat)
    requires f <= f' && forall y: nat :: f <= y < f' ==> !RunFree(rc, y, m)
    ensures FirstFit(rc, f, m) == FirstFit(rc, f', m)
    decreases f' - f
  {
    if f < f' {
      assert !RunFree(rc, f, m);
      FirstFitSkip(rc, f + 1, f', m);
    }
  }

  lemma RunFreeStep(rc: seq<nat>, f: nat, i: nat)
    requires RunFree(rc, f, i) && RcOf(rc, f + i) == 0
    ensures RunFree(rc, f, i + 1)
  {
  }

  // No run of m free clusters starts at f .. u when u is in use and close enough.
  lemma NotFound(rc: seq<nat>, f: nat, u: nat, m: nat)
    requires f <= u < f + m && RcOf(rc, u) != 0
    ensures FirstFit(rc, f, m) == FirstFit(rc, u + 1, m) && u < |rc|
  {
    forall y: nat | f <= y < u + 1 ensures !RunFree(rc, y, m) { assert y <= u < y + m; }
    FirstFitSkip(rc, f, u + 1, m);
  }

  // The first free cluster is neither the header nor a refcount block.
  lemma FreshBlock(st: Img, b: nat)
    requires st.Sound() && b == FirstFit(st.rc, st.freeIdx, 1)
    ensures b != 0 && !IsBlock(st.table, b) && RcOf(st.rc, b) == 0
  {
    hide FirstFit;
    FirstFitSpec(st.rc, st.freeIdx, 1);
    assert RcOf(st.rc, b) == 0;
    assert st.Blk(b) == 0;
    BlockRefsIs(st.table, b);
  }

  ghost predicate AllBlocks(st: Img, lo: nat, n: nat)
  {
    forall c: nat :: lo <= c < lo + n ==> st.HasBlock(c)
  }

  lemma UpdKeeps(st: Img, lo: nat, n: nat, st': Img)
    requires n > 0 && Upd(st, lo, 1) == Some(st') && (st.Sound() || AllBlocks(st, lo, n))
    ensures st'.Sound() || AllBlocks(st', lo + 1, n - 1)
  {
    if st.Sound() {
      UpdGrown(st, lo, st');
    } else {
      assert st.HasBlock(lo);
      forall c: nat | lo + 1 <= c < lo + n ensures st'.HasBlock(c) { assert st.HasBlock(c); }
    }
  }

  // One step of the loop in update_refcount, seen from what is left to do.
  lemma UpdRunStep(st: Img, lo: nat, n: nat, a: int)
    ensures n == 0 ==> UpdRun(st, lo, n, a) == Some(st)
    ensures n > 0 && Upd(st, lo, a).Some? ==> UpdRun(st, lo, n, a) == UpdRun(Upd(st, lo, a).value, lo + 1, n - 1, a)
    ensures n > 0 && Upd(st, lo, a).None? ==> UpdRun(st, lo, n, a).None?
  {
  }

  lemma SectorNumAdd(g: Geo, i: nat, j: nat, k: nat, t: nat)
    ensures SectorNum(g, i, j, k + t) == SectorNum(g, i, j, k) + t
  {
  }

  // Every L1 entry of a sound image is empty or names a live L2 table.
  lemma SlotAlive(st: Img, i: nat)
    requires Inv(st)
    ensures var e := SlotAt(st.l1, i);
      || e.Zero?
      || (&& e.Plain? && 0 < e.at < |st.disk| && st.disk[e.at].L2?
          && |st.disk[e.at].ents| == st.g.width && RcOf(st.rc, e.at) > 0)
  {
    if i < |st.l1| {
      assert SlotTyped(st.g, st.disk, st.l1[i]);
      if st.l1[i].Plain? {
        TreeRefsAt(st.g, st.disk, st.l1, |st.l1|, i, st.l1[i].at);
        assert RcOf(st.rc, st.l1[i].at) > 0;
        assert RcOf(st.rc, 0) == 1;
      }
    }
  }

  // Reading n sectors from guest sector sn on, within one cluster.
  lemma PartView(env: Env, st: Img, sn: nat, n: nat, t: nat)
    requires t < n && Col(st.g.spc, sn) + n <= st.g.spc
    ensures var vc := Row(st.g.spc, sn);
      SectorView(env, st, sn + t) == View(env, st, Row(st.g.width, vc), Col(st.g.width, vc), Col(st.g.spc, sn) + t)
  {
    RowColShift(st.g.spc, sn, t);
  }

  // The cluster cache stays coherent over a read of cluster (i, j).
  lemma ReadKeeps(env: Env, st: Img, i: nat, j: nat, at: Option<Place>, cache: seq<Sector>, at': Option<Place>,
                  cache': seq<Sector>)
    requires PackedOnce(st) && InflatedOk(env, st, at, cache)
    requires var e := L2Word(st.disk, SlotAt(st.l1, i), j);
      && (!e.Packed? ==> at' == at && cache' == cache)
      && (e.Packed? ==>
            at' == Some(PlaceOf(e)) && cache' == if at == Some(PlaceOf(e)) then cache
              else Inflated(env, st.g, st.disk, e))
    ensures InflatedOk(env, st, at', cache')
  {
    var e := L2Word(st.disk, SlotAt(st.l1, i), j);
    if e.Packed? {
      assert InTree(st.disk, st.l1, e);
      InflatedLoad(env, st, e);
    }
  }

  // After a copy the cluster cache either is as before or holds the old data.
  lemma PartRead(env: Env, g: Geo, disk: Disk, at: Option<Place>, cache: seq<Sector>, e: Entry, i: nat, j: nat,
                 view: seq<Sector>,
                 a: nat, b: nat, buf: seq<Sector>)
    requires Reads(env, g, disk, at, cache, e, i, j, view) && a <= b <= g.spc && |buf| == b - a
    requires forall t: nat :: t < b - a ==> buf[t] == Seen(env, g, disk, at, cache, e, SectorNum(g, i, j, a + t), a + t)
    ensures |view| == g.spc && buf == view[a..b]
  {
    hide Seen, SectorNum;
    forall t: nat | t < b - a ensures buf[t] == view[a..b][t] { assert view[a + t] == view[a..b][t]; }
  }

  lemma CopiedReads(env: Env, g: Geo, d2: Disk, x: nat, lo: nat, buf: seq<Sector>, at: Option<Place>,
                    cache: seq<Sector>,
                    at': Option<Place>, cache': seq<Sector>, e: Entry, i: nat, j: nat, view: seq<Sector>)
    requires Reads(env, g, d2, at, cache, e, i, j, view) && (e.Plain? ==> e.at != x) && (at.Some? ==> |cache| == g.spc)
    requires !e.Packed? ==> at' == at && cache' == cache
    requires e.Packed? ==> at' == Some(PlaceOf(e))
    requires e.Packed? ==> cache' == if at == Some(PlaceOf(e)) then cache else Inflated(env, g, d2, e)
    ensures Reads(env, g, PutSectors(g, d2, x, lo, buf), at', cache', e, i, j, view)
    ensures (at' == at && cache' == cache) || (e.Packed? && at' == Some(PlaceOf(e)) && cache' == view)
  {
    if e.Packed? {
      forall k: nat | k < g.spc ensures cache'[k] == view[k] {
        assert Seen(env, g, d2, at, cache, e, SectorNum(g, i, j, k), k) == view[k];
      }
      assert cache' == view;
      forall k: nat | k < g.spc ensures Seen(env, g, d2, at', cache', e, SectorNum(g, i, j, k), k) == view[k] {}
    }
    ReadsAfterPut(env, g, d2, x, lo, buf, at', cache', e, i, j, view);
  }

  lemma SlotDisk(st: Img, at: seq<nat>, counts: seq<nat>, tabs: seq<seq<Entry>>, r: nat)
    requires CacheOk(st, at, counts, tabs) && r < SLOTS && at[r] != 0
    ensures at[r] < |st.disk| && st.disk[at[r]] == L2(tabs[r]) && |at| == |counts| == |tabs| == SLOTS
  {
    assert SlotOk(st, at[r], tabs[r]);
  }

  // Only refcount blocks carry counts.
  lemma BlockTag(g: Geo, disk: Disk, table: seq<nat>, x: nat)
    requires BlocksOk(g, disk, table) && x < |disk| && !disk[x].Counts?
    ensures !IsBlock(table, x)
  {
  }

  // The cluster of an unshared entry is in no slot of the L2 cache.
  lemma InPlace(st: Img, i: nat, j: nat, at: seq<nat>, counts: seq<nat>, tabs: seq<seq<Entry>>)
    requires Inv(st) && CacheOk(st, at, counts, tabs) && i < |st.l1| && L2Word(st.disk, st.l1[i], j).Plain?
    ensures var x := L2Word(st.disk, st.l1[i], j).at;
      x < |st.disk| && st.disk[x].Data? && x !in at
  {
    assert SlotTyped(st.g, st.disk, st.l1[i]);
    var e := L2Word(st.disk, st.l1[i], j);
    assert EntryTyped(st.g, st.disk, e);
    WordRefs(st, i, j, e.at);
    assert RcOf(st.rc, 0) == 1;
    OtherNotCached(st, at, counts, tabs, e.at);
  }

  lemma MidFacts(env: Env, st: Img, st2: Img, at: Option<Place>, cache: seq<Sector>, i: nat, j: nat, d: nat)
    requires Inv(st) && Mid(st, st2, i, j, d) && InflatedOk(env, st, at, cache)
    ensures st2.g == st.g && st2.l1 == st.l1 && 0 < d < |st2.disk| && d != st.l1[i].at && i < |st.l1|
    ensures st2 == st.(disk := st2.disk, table := st2.table, rc := st2.rc, freeIdx := st2.freeIdx)
    ensures Ents(st2.disk, st.l1[i].at) == Ents(st.disk, st.l1[i].at)
    ensures var e := L2Word(st2.disk, st.l1[i], j);
      && e == L2Word(st.disk, st.l1[i], j) && (e.Plain? ==> e.at != d)
      && Reads(env, st.g, st2.disk, at, cache, e, i, j, OldData(env, st, i, j))
  {
    MidReads(env, st, st2, st2.disk, at, cache, i, j);
    assert SlotTyped(st.g, st.disk, st.l1[i]);
    WordRefs(st, i, j, st.l1[i].at);
  }

  lemma SlotsShape(st: Img, at: seq<nat>, counts: seq<nat>, tabs: seq<seq<Entry>>)
    requires CacheOk(st, at, counts, tabs)
    ensures |at| == |counts| == |tabs| == SLOTS && Small(counts)
  {
  }

  lemma CacheSame(st: Img, st': Img, at: seq<nat>, counts: seq<nat>, tabs: seq<seq<Entry>>)
    requires CacheOk(st, at, counts, tabs) && st'.disk == st.disk && st'.rc == st.rc
    ensures CacheOk(st', at, counts, tabs)
  {
    forall s: nat | s < |at| ensures SlotOk(st', at[s], tabs[s]) { assert SlotOk(st, at[s], tabs[s]); }
  }

  lemma L1WordOk(st: Img, i: nat, e: Entry, st1: Img, at: seq<nat>, counts: seq<nat>, tabs: seq<seq<Entry>>)
    requires CacheOk(st, at, counts, tabs) && i < |st.l1|
    requires var c := st.l1At + Row(st.g.width, i);
      0 < c < |st.disk| && st.disk[c].L1? && Col(st.g.width, i) < |st.disk[c].ents|
    requires st1 == st.(l1 := st.l1[i := e], disk := PutL1Word(st.g, st.disk, st.l1At, i, e))
    ensures CacheOk(st1, at, counts, tabs)
  {
    hide CacheOk;
    var c := st.l1At + Row(st.g.width, i);
    OtherNotCached(st, at, counts, tabs, c);
    PutOk(st, at, counts, tabs, c, st1.disk[c]);
    CacheSame(st.(disk := st1.disk), st1, at, counts, tabs);
  }

  // The L1 word and the new L2 table may be written in either order.
  lemma RelinkOrder(st: Img, i: nat, n: nat, tab: seq<Entry>)
    requires i < |st.l1| && n < |st.disk| && n != st.l1At + Row(st.g.width, i)
    ensures Relink(st, i, n, tab) ==
      st.(l1 := st.l1[i := Plain(n, true)], disk := PutL1Word(st.g, st.disk, st.l1At, i, Plain(n, true))[n := L2(tab)])
  {
    assert PutL1Word(st.g, st.disk[n := L2(tab)], st.l1At, i, Plain(n, true)) ==
      PutL1Word(st.g, st.disk, st.l1At, i, Plain(n, true))[n := L2(tab)];
  }

  lemma OwnRelease(st: Img, i: nat, stA: Img)
    requires Inv(st) && i < |st.l1| && (st.l1[i].Plain? ==> !st.l1[i].copied)
    requires st.l1[i].Plain? ==> UpdRun(st, st.l1[i].at, 1, -1) == Some(stA)
    requires st.l1[i].Zero? ==> stA == st
    requires !st.l1[i].Packed?
    ensures Released(st, stA, i) && stA.Sound() && TablesKept(st, stA)
  {
    if st.l1[i].Plain? { ReleaseShared(st, i, stA); } else { InvSound(st); }
  }

  // The cluster taken for a new L2 table is in no cache slot, and the slots still mirror the disk.
  lemma OwnCached(st: Img, stA: Img, st1: Img, at: seq<nat>, counts: seq<nat>, tabs: seq<seq<Entry>>, n: nat)
    requires CacheOk(st, at, counts, tabs) && TablesKept(st, stA) && TablesKept(st, st1)
    requires n != 0 && RcOf(stA.rc, n) == 0 && st1.Blk(n) == 0
    ensures CacheOk(st1, at, counts, tabs) && n !in at && !IsBlock(st1.table, n)
  {
    hide CacheOk, TablesKept, IsBlock;
    KeptOk(st, stA, at, counts, tabs);
    FreeNotCached(stA, at, counts, tabs, n);
    KeptOk(st, st1, at, counts, tabs);
    BlockRefsIs(st1.table, n);
  }

  // What the cluster taken for a new L2 table is not.
  lemma OwnMid(st: Img, stA: Img, st1: Img, i: nat, n: nat)
    requires Inv(st) && Released(st, stA, i) && stA.Sound() && TablesKept(st, stA) && Alloc(stA, 1) == Some((st1, n))
    ensures st1 == st.(disk := st1.disk, table := st1.table, rc := st1.rc, freeIdx := st1.freeIdx)
    ensures TablesKept(st, st1)
    ensures 0 < n < |st1.disk| && RcOf(stA.rc, n) == 0 && RcOf(st1.rc, n) > 0 && st1.Blk(n) == 0
    ensures var c := st.l1At + Row(st.g.width, i);
      0 < c < |st1.disk| && st1.disk[c].L1? && Col(st.g.width, i) < |st1.disk[c].ents| && c != n
    ensures st.l1[i].Plain? ==> st.l1[i].at < |st1.disk| && st1.disk[st.l1[i].at] == st.disk[st.l1[i].at]
  {
    hide Inv, Alloc;
    AllocSpec(stA, 1, st1, n);
    AllocTables(stA, st1, n, 1);
    L1Place(st, i);
    SlotAlive(st, i);
    if st.l1[i].Plain? { SharedCount(st, i); }
  }

  lemma InvShape(st: Img)
    requires Inv(st)
    ensures L1Shape(st.g, st.disk, st.l1At, |st.l1|)
  {
  }

  lemma HeaderAlone(st: Img)
    requires Inv(st)
    ensures InRun(0, st.l1At, L1Clusters(st.g, |st.l1|)) == 0
  {
    assert Fixed(st, 0) > 0;
    assert RcOf(st.rc, 0) == Refs(st, 0) + st.Blk(0);
  }

  // The cluster that holds word i of the active L1 table.
  lemma L1Place(st: Img, i: nat)
    requires Inv(st) && i < |st.l1|
    ensures var c := st.l1At + Row(st.g.width, i);
      && 0 < c < |st.disk| && st.disk[c].L1? && Col(st.g.width, i) < |st.disk[c].ents| && RcOf(st.rc, c) == 1
      && (st.l1[i].Plain? ==> st.l1[i].at != c)
  {
    hide Inv, TreeRefs, SnapsRefs, BlockRefs, L1Shape;
    var c := st.l1At + Row(st.g.width, i);
    InvShape(st);
    ShapeAt(st.g, st.disk, st.l1At, |st.l1|, i);
    L1WordInRun(st.g, |st.l1|, i);
    assert InRun(c, st.l1At, L1Clusters(st.g, |st.l1|)) > 0;
    RunAlone(st, c);
    HeaderAlone(st);
    if st.l1[i].Plain? { TreeRefsAt(st.g, st.disk, st.l1, |st.l1|, i, st.l1[i].at); }
  }

  lemma StoreStep(g: Geo, disk: Disk, at: nat, l: seq<Entry>)
    ensures |l| == 0 ==> StoreL1(g, disk, at, l) == disk
    ensures |l| > 0 ==> L1Clusters(g, |l|) == 1 + L1Clusters(g, |l| - Min(g.width, |l|))
    ensures |l| > 0 && at < |disk| ==>
      StoreL1(g, disk, at, l) == StoreL1(g, disk[at := L1(l[..Min(g.width, |l|)])], at + 1, l[Min(g.width, |l|)..])
  {
    if |l| > 0 { ClustersStep(g, |l|); }
  }

  // A run that was just allocated lies on the disk and holds no refcount block.
  lemma TakenRun(st: Img, n: nat, st1: Img, at: nat)
    requires st.Sound() && Alloc(st, n) == Some((st1, at)) && n > 0
    ensures st1 == st.(disk := st1.disk, table := st1.table, rc := st1.rc, freeIdx := st1.freeIdx)
    ensures 0 < at && at + n <= |st1.disk|
    ensures forall x: nat :: at <= x < at + n ==> !IsBlock(st1.table, x)
  {
    AllocSpec(st, n, st1, at);
    forall x: nat | at <= x < at + n ensures !IsBlock(st1.table, x) {
      BlockRefsIs(st1.table, x);
      assert st1.Blk(x) == 0;
    }
  }

  lemma {:induction false} ShapeTag(g: Geo, disk: Disk, at: nat, size: nat, x: nat)
    requires L1Shape(g, disk, at, size) && InRun(x, at, L1Clusters(g, size)) > 0
    ensures x < |disk| && disk[x].L1?
    decreases size
  {
    if size > 0 {
      ClustersStep(g, size);
      if x > at { ShapeTag(g, disk, at + 1, size - g.width, x); }
    }
  }

  lemma ShapeTags(g: Geo, disk: Disk, at: nat, size: nat)
    requires L1Shape(g, disk, at, size)
    ensures if size > 0 then at + L1Clusters(g, size) <= |disk| else L1Clusters(g, size) == 0
    ensures forall x: nat :: at <= x < at + L1Clusters(g, size) ==> x < |disk| && disk[x].L1?
  {
    hide L1Shape;
    if size > 0 { ShapeBound(g, disk, at, size); }
    forall x: nat | at <= x < at + L1Clusters(g, size) ensures x < |disk| && disk[x].L1? {
      ShapeTag(g, disk, at, size, x);
    }
  }

  lemma GrowTables(st: Img, min: nat, st': Img)
    requires Inv(st) && GrowL1(st, min) == Some(st')
    ensures TablesKept(st, st')
  {
    hide GrowL1, TreeRefs, SnapsRefs;
    if min > |st.l1| {
      var at := GrowSpec(st, min, st');
      forall x: nat | x < |st.disk| && st.disk[x].L2? && RcOf(st.rc, x) > 0
        ensures st'.disk[x] == st.disk[x] && RcOf(st'.rc, x) > 0
      {
        if InRun(x, st.l1At, L1Clusters(st.g, |st.l1|)) > 0 { ShapeTag(st.g, st.disk, st.l1At, |st.l1|, x); }
      }
    } else {
      GrowNothing(st, min, st');
    }
  }

  lemma GrowNothing(st: Img, min: nat, st': Img)
    requires GrowL1(st, min) == Some(st') && min <= |st.l1|
    ensures st' == st
  {
  }

  lemma GrowSafe(env: Env, st: Img, min: nat, st1: Img, at: seq<nat>, counts: seq<nat>, tabs: seq<seq<Entry>>,
                 cacheAt: Option<Place>, cache: seq<Sector>)
    requires CacheOk(st, at, counts, tabs) && Inv(st) && PackedOnce(st) && InflatedOk(env, st, cacheAt, cache)
    requires GrowL1(st, min) == Some(st1)
    ensures CacheOk(st1, at, counts, tabs) && Inv(st1) && PackedOnce(st1) && InflatedOk(env, st1, cacheAt, cache)
    ensures |st1.l1| >= min
  {
    hide *;
    GrowCorrect(env, st, min, st1);
    GrowTables(st, min, st1);
    KeptOk(st, st1, at, counts, tabs);
    GrowPacked(st, min, st1);
    PackedKeptOnce(st, st1);
    InflatedKept(env, st, st1, cacheAt, cache);
  }

  lemma OwnSafe(env: Env, st: Img, i: nat, st1: Img, cacheAt: Option<Place>, cache: seq<Sector>)
    requires Inv(st) && PackedOnce(st) && InflatedOk(env, st, cacheAt, cache) && OwnL2(st, i) == Some(st1)
    ensures Inv(st1) && PackedOnce(st1) && InflatedOk(env, st1, cacheAt, cache)
    ensures i < |st1.l1| && st1.l1[i].Plain? && st1.l1[i].copied
  {
    hide *;
    OwnL2Correct(env, st, i, st1);
    OwnL2Packed(st, i, st1);
    PackedKeptOnce(st, st1);
    InflatedKept(env, st, st1, cacheAt, cache);
  }

  // The write of the data completes the cache-free write and leaves everything coherent.
  lemma WriteSafe(env: Env, st2: Img, i: nat, j: nat, lo: nat, buf: seq<Sector>, st3: Img, d: nat, st': Img,
                  at: seq<nat>, counts: seq<nat>, tabs: seq<seq<Entry>>, cacheAt: Option<Place>, cache: seq<Sector>)
    requires Inv(st2) && PackedOnce(st2) && env.Lawful() && i < |st2.l1| && st2.l1[i].Plain? && st2.l1[i].copied
    requires lo + |buf| <= st2.g.spc
    requires Prepare(env, st2, i, j, lo, lo + |buf|) == Some((st3, d)) && st3.g == st2.g && d < |st3.disk| && d !in at
    requires st' == st3.(disk := PutSectors(st3.g, st3.disk, d, lo, Sealed(env, st3.g, i, j, lo, buf)))
    requires CacheOk(st3, at, counts, tabs) && InflatedOk(env, st2, cacheAt, cache)
    ensures WriteSlot(env, st2, i, j, lo, buf) == Some(st')
    ensures CacheOk(st', at, counts, tabs) && Inv(st') && PackedOnce(st') && InflatedOk(env, st', cacheAt, cache)
  {
    hide Inv, PackedOnce, Prepare, WriteSlot, InflatedOk, CacheOk, Sealed;
    PrepareFinish(env, st2, i, j, lo, buf);
    PutOk(st3, at, counts, tabs, d, st'.disk[d]);
    SlotCorrect(env, st2, i, j, lo, buf, st');
    WriteSlotPacked(env, st2, i, j, lo, buf, st');
    PackedKeptOnce(st2, st');
    InflatedKept(env, st2, st', cacheAt, cache);
  }

  lemma SlotCorrect(env: Env, st: Img, i: nat, j: nat, lo: nat, buf: seq<Sector>, st': Img)
    requires Inv(st) && env.Lawful() && i < |st.l1| && st.l1[i].Plain? && st.l1[i].copied
    requires WriteSlot(env, st, i, j, lo, buf) == Some(st')
    ensures Inv(st')
  {
    hide Inv, WriteSlot;
    var e := L2Word(st.disk, st.l1[i], j);
    if e.Plain? && e.copied { PatchCorrect(env, st, i, j, lo, buf, st'); }
      else { ReplaceCorrect(env, st, i, j, lo, buf, st'); }
  }

  // One turn of the qcow_write loop, seen from what is left to write.
  lemma RunChunks(env: Env, st: Img, sn: nat, buf: seq<Sector>)
    requires |buf| > 0
    ensures var n := ChunkLen(st.g, sn, |buf|);
      && var vc := Row(st.g.spc, sn);
      && var r := WriteCluster(env, st, Row(st.g.width, vc), Col(st.g.width, vc), Col(st.g.spc, sn), buf[..n]);
      && (r.None? ==> Run(env, st, Chunks(st.g, sn, buf)).None?)
      && (r.Some? ==> Run(env, st, Chunks(st.g, sn, buf)) == Run(env, r.value, Chunks(st.g, sn + n, buf[n..])))
  {
    hide WriteCluster;
    var n := ChunkLen(st.g, sn, |buf|);
    var ops := Chunks(st.g, sn, buf);
    assert ops[0] == ChunkOp(sn, buf[..n]) && ops[1..] == Chunks(st.g, sn + n, buf[n..]);
    RunStep(env, st, ops);
  }

  lemma RunStep(env: Env, st: Img, ops: seq<Op>)
    requires |ops| > 0
    ensures Step(env, st, ops[0]).None? ==> Run(env, st, ops).None?
    ensures Step(env, st, ops[0]).Some? ==> Run(env, st, ops) == Run(env, Step(env, st, ops[0]).value, ops[1..])
  {
    hide Step;
  }

  lemma RunNone(env: Env, st: Img, sn: nat, buf: seq<Sector>)
    requires |buf| == 0
    ensures Run(env, st, Chunks(st.g, sn, buf)) == Some(st)
  {
  }

  lemma CacheDropped(env: Env, st: Img, cache: seq<Sector>)
    ensures InflatedOk(env, st, None, cache)
  {
  }

  // ----- walking a tree -----

  ghost predicate EntryCovered(st: Img, e: Entry)
  {
    forall c: nat :: EntryRefs(st.g, e, c) > 0 ==> st.HasBlock(c)
  }

  lemma CoveredPlain(st: Img, e: Entry)
    requires EntryCovered(st, e) && e.Plain?
    ensures st.HasBlock(e.at)
  {
    assert EntryRefs(st.g, e, e.at) > 0;
  }

  lemma CoveredPacked(st: Img, e: Entry)
    requires EntryCovered(st, e) && e.Packed? && First(st.g, e) <= Past(st.g, e)
    ensures AllBlocks(st, First(st.g, e), Past(st.g, e) - First(st.g, e))
  {
    forall c: nat | First(st.g, e) <= c < First(st.g, e) + (Past(st.g, e) - First(st.g, e)) ensures st.HasBlock(c) {
      assert EntryRefs(st.g, e, c) > 0;
    }
  }

  lemma CoveredEntry(st: Img, ents: seq<Entry>, j: nat)
    requires EntsCovered(st, ents) && j < |ents|
    ensures EntryCovered(st, ents[j])
  {
  }

  lemma WalkL2Unfold(st: Img, ents: seq<Entry>, j: nat, a: int)
    ensures j >= |ents| ==> WalkL2(st, ents, j, a) == Some((st, ents))
    ensures j < |ents| && WalkEntry(st, ents[j], a).None? ==> WalkL2(st, ents, j, a).None?
    ensures j < |ents| && WalkEntry(st, ents[j], a).Some? ==>
      WalkL2(st, ents, j, a) == WalkL2(WalkEntry(st, ents[j], a).value.0, ents[j := WalkEntry(st, ents[j], a).value.1],
                                       j + 1, a)
  {
    hide WalkEntry;
  }

  // Handling one entry changes counts only, so the rest stays covered.
  lemma WalkedEntry(st: Img, ents: seq<Entry>, j: nat, a: int, st1: Img, e: Entry)
    requires -1 <= a <= 1 && EntsCovered(st, ents) && j < |ents| && WalkEntry(st, ents[j], a) == Some((st1, e))
    ensures EntsCovered(st1, ents[j := e]) && st1.disk == st.disk && st1.table == st.table
  {
    hide WalkEntry;
    WalkEntrySpec(st, ents[j], a, st1, e);
    var ents1 := ents[j := e];
    forall k: nat, c: nat | k < |ents1| && EntryRefs(st1.g, ents1[k], c) > 0 ensures st1.HasBlock(c) {
      assert EntryRefs(st.g, ents[k], c) > 0;
      assert st.HasBlock(c);
    }
  }

  ghost predicate SlotCovered(st: Img, e: Entry)
  {
    forall c: nat :: SlotRefs(st.g, st.disk, e, c) > 0 ==> st.HasBlock(c)
  }

  lemma CoveredSlot(st: Img, e: Entry)
    requires SlotCovered(st, e) && e.Plain?
    ensures EntsCovered(st, Ents(st.disk, e.at)) && st.HasBlock(e.at)
  {
    var ents := Ents(st.disk, e.at);
    assert SlotRefs(st.g, st.disk, e, e.at) > 0;
    forall j: nat, c: nat | j < |ents| && EntryRefs(st.g, ents[j], c) > 0 ensures st.HasBlock(c) {
      L2RefsAt(st.g, ents, |ents|, j, c);
      assert SlotRefs(st.g, st.disk, e, c) > 0;
    }
  }

  lemma WalkL1Unfold(st: Img, l: seq<Entry>, i: nat, a: int)
    ensures i >= |l| ==> WalkL1(st, l, i, a) == Some((st, l))
    ensures i < |l| && WalkSlot(st, l[i], a).None? ==> WalkL1(st, l, i, a).None?
    ensures i < |l| && WalkSlot(st, l[i], a).Some? ==>
      WalkL1(st, l, i, a) == WalkL1(WalkSlot(st, l[i], a).value.0, l[i := WalkSlot(st, l[i], a).value.1], i + 1, a)
  {
    hide WalkSlot;
  }

  lemma TreeSlot(st: Img, l: seq<Entry>, i: nat)
    requires TreeOk(st.g, st.disk, l) && TreeCovered(st, l) && i < |l|
    ensures SlotTyped(st.g, st.disk, l[i]) && SlotCovered(st, l[i])
  {
    forall c: nat | SlotRefs(st.g, st.disk, l[i], c) > 0
      ensures st.HasBlock(c)
    {
      TreeRefsAt(st.g, st.disk, l, |l|, i, c);
    }
  }

  // After the walk the L1 table is still where it was.
  lemma WalkedRun(st: Img, at: nat, was: seq<Entry>, a: int, st1: Img, l: seq<Entry>)
    requires -1 <= a <= 1 && Walkable(st, at, was) && WalkL1(st, was, 0, a) == Some((st1, l))
    ensures |l| == |was| && (|l| > 0 ==> at + L1Clusters(st.g, |l|) <= |st1.disk|)
    ensures forall x: nat :: at <= x < at + L1Clusters(st.g, |l|) ==> x < |st1.disk| && st1.disk[x].L1?
  {
    hide WalkL1, L1Clusters, L1Shape;
    WalkL1Spec(st, was, 0, a, st1, l);
    WalkedKeeps(st, at, was, st1, l);
    ShapeTags(st.g, st1.disk, at, |was|);
  }

  ghost predicate EmptySlots(at: seq<nat>, counts: seq<nat>, tabs: seq<seq<Entry>>)
  {
    |at| == |counts| == |tabs| == SLOTS && (forall s: nat :: s < SLOTS ==> at[s] == 0 && counts[s] == 0)
  }

  // An empty cache is coherent with any image.
  lemma EmptyOk(st: Img, at: seq<nat>, counts: seq<nat>, tabs: seq<seq<Entry>>)
    requires EmptySlots(at, counts, tabs)
    ensures CacheOk(st, at, counts, tabs)
  {
  }

  lemma TakenNothing(st: Img, st1: Img, at: nat)
    requires Alloc(st, 0) == Some((st1, at))
    ensures st1 == st.(freeIdx := st1.freeIdx) && FillRun(st1.disk, at, 0) == st1.disk
  {
  }

  // How a snapshot request ends: carried out, refused without a change (-ENOENT), or outside this model.
  datatype Reply = Done | Refused | Stuck

  lemma WalkedSound(st: Img, st1: Img)
    requires Inv(st) && WalkActive(st, 1) == Some(st1)
    ensures st1.Sound() && |st1.l1| == |st.l1|
    ensures st1 == st.(disk := st1.disk, rc := st1.rc, freeIdx := st1.freeIdx, l1 := st1.l1)
  {
    hide WalkActive;
    InvWalkable(st);
    WalkActiveSpec(st, 1, st1);
    WalkSound(st, st1);
  }

  lemma NoTable(g: Geo, st: Img, st1: Img, at: nat)
    requires st.g == g && |st.l1| == 0 && Alloc(st, L1Clusters(g, |st.l1|)) == Some((st1, at))
    ensures st1 == st.(freeIdx := st1.freeIdx) && StoreL1(g, st1.disk, at, st1.l1) == st1.disk
  {
    assert L1Clusters(g, 0) == 0;
  }

  lemma UnlinkedParts(st: Img, st1: Img)
    requires Unlinked(st, st1)
    ensures st1 == st.(disk := st1.disk, rc := st1.rc, freeIdx := st1.freeIdx, l1 := st1.l1) && |st1.l1| == |st.l1|
  {
  }

  // The active L1 table lies on the disk, in clusters that are no refcount blocks.
  lemma LoadRun(st: Img, st1: Img)
    requires Unlinked(st, st1)
    ensures |st1.l1| > 0 ==> st1.l1At + L1Clusters(st1.g, |st1.l1|) <= |st1.disk|
    ensures forall x: nat :: st1.l1At <= x < st1.l1At + L1Clusters(st1.g, |st1.l1|) ==>
      x < |st1.disk| && st1.disk[x].L1?
  {
    hide L1Clusters, L1Shape;
    ShapeTags(st1.g, st1.disk, st1.l1At, |st1.l1|);
  }

  lemma GotoSafe(env: Env, st: Img, q: nat, st': Img, cacheAt: Option<Place>, cache: seq<Sector>)
    requires Inv(st) && PackedOnce(st) && InflatedOk(env, st, cacheAt, cache) && GotoSnap(st, q) == Some(st')
    ensures Inv(st') && PackedOnce(st') && InflatedOk(env, st', cacheAt, cache)
  {
    hide *;
    GotoCorrect(env, st, q, st');
    GotoPacked(st, q, st');
    PackedKeptOnce(st, st');
    InflatedKept(env, st, st', cacheAt, cache);
  }

  // ----- a new image -----

  lemma {:induction false} ErasedStore(g: Geo, base: Disk, at: nat, l: seq<Entry>)
    ensures Erased(StoreL1(g, base, at, l)) == StoreL1(g, Erased(base), at, l)
    decreases |l|
  {
    if |l| > 0 {
      var b := L1(l[..Min(g.width, |l|)]);
      assert Erased(SetBlock(base, at, b)) == SetBlock(Erased(base), at, b);
      ErasedStore(g, SetBlock(base, at, b), at + 1, l[Min(g.width, |l|)..]);
    }
  }

  // The counts qcow_create writes: one for each cluster in use.
  function FirstCounts(g: Geo, used: nat): (r: seq<nat>)
    ensures |r| == g.reach && forall c: nat :: c < g.reach ==> r[c] == B2N(c < used)
  {
    seq(g.reach, c => if c < used then 1 else 0)
  }

  function FirstDisk(g: Geo, blocks: nat, l1Size: nat): Disk
  {
    var n := L1Clusters(g, l1Size);
    StoreL1(g, seq(blocks * g.reach, c => if c == n + 2 then Counts(FirstCounts(g, n + 3))
      else Other), 1, ZeroL1(l1Size))
  }

  function FirstTable(g: Geo, blocks: nat, l1Size: nat): seq<nat>
  {
    seq(blocks, k => if k == 0 then L1Clusters(g, l1Size) + 2 else 0)
  }

  lemma FirstBlock(g: Geo, blocks: nat, l1Size: nat)
    requires blocks > 0 && L1Clusters(g, l1Size) + 3 <= g.reach
    ensures var n, disk := L1Clusters(g, l1Size), FirstDisk(g, blocks, l1Size);
      |disk| == blocks * g.reach && n + 2 < |disk| && disk[n + 2] == Counts(FirstCounts(g, n + 3))
  {
    var n := L1Clusters(g, l1Size);
    TotalEnough(g, blocks);
    StoreOutside(g, seq(blocks * g.reach, c => if c == n + 2 then Counts(FirstCounts(g, n + 3))
      else Other), 1, ZeroL1(l1Size), n + 2);
  }

  lemma FirstImage(g: Geo, blocks: nat, l1Size: nat)
    requires blocks > 0 && L1Clusters(g, l1Size) + 3 <= g.reach
    ensures var disk, table := FirstDisk(g, blocks, l1Size), FirstTable(g, blocks, l1Size);
      && BlocksOk(g, disk, table)
      && Erased(disk) == Created(g, blocks, l1Size).disk
      && CountMap(g, disk, table) == Created(g, blocks, l1Size).rc
  {
    var n := L1Clusters(g, l1Size);
    var base: Disk := seq(blocks * g.reach, c => if c == n + 2 then Counts(FirstCounts(g, n + 3)) else Other);
    assert Erased(base) == Blank(blocks * g.reach, n + 2);
    ErasedStore(g, base, 1, ZeroL1(l1Size));
    FirstBlock(g, blocks, l1Size);
    FirstMap(g, blocks, l1Size);
  }

  lemma FirstMap(g: Geo, blocks: nat, l1Size: nat)
    requires blocks > 0 && L1Clusters(g, l1Size) + 3 <= g.reach
    ensures CountMap(g, FirstDisk(g, blocks, l1Size), FirstTable(g, blocks, l1Size)) == Created(g, blocks, l1Size).rc
  {
    hide FirstDisk;
    var disk, table := FirstDisk(g, blocks, l1Size), FirstTable(g, blocks, l1Size);
    FirstBlock(g, blocks, l1Size);
    forall c: nat | c < |disk| ensures CountMap(g, disk, table)[c] == Created(g, blocks, l1Size).rc[c] {
      if c < g.reach { assert Row(g.reach, c) == 0 && Col(g.reach, c) == c; }
      else { assert Row(g.reach, c) > 0; }
    }
  }

  lemma NoPacked(st: Img)
    requires |st.snaps| == 0 && forall i :: 0 <= i < |st.l1| ==> st.l1[i] == Zero
    ensures PackedOnce(st)
  {
    forall e: Entry ensures !Reaches(st, e) {}
  }

  // BDRVQcowState
  // ----- compressed writes -----

  // Writing bytes outside the refcount blocks.
  lemma StoreBytes(g: Geo, disk: Disk, table: seq<nat>, at: nat, z: seq<bv8>)
    requires BlocksOk(g, disk, table)
    requires forall x: nat :: ByteAlloc.Touches(g, ByteAlloc.Range(at, |z|), x) ==> x < |disk| && !IsBlock(table, x)
    ensures var disk' := HostBytes.PutBytes(g, disk, at, z);
      && BlocksOk(g, disk', table) && CountMap(g, disk', table) == CountMap(g, disk, table)
      && Erased(disk') == HostBytes.PutBytes(g, Erased(disk), at, z)
  {
    hide ByteAlloc.Touches, HostBytes.Merged;
    var disk' := HostBytes.PutBytes(g, disk, at, z);
    forall k: nat | k < |table| && table[k] != 0
      ensures disk'[table[k]] == disk[table[k]]
    {
      assert IsBlock(table, table[k]);
    }
    forall c: nat | c < |disk| ensures StoredCount(g, disk', table, c) == StoredCount(g, disk, table, c) {}
    forall c: nat | c < |disk| ensures Raw(g, Erased(disk)[c]) == Raw(g, disk[c]) {}
  }

  lemma BlockKept(g: Geo, disk: Disk, table: seq<nat>, at: nat, z: seq<bv8>, b: nat)
    requires BlocksOk(g, disk, table)
    requires forall x: nat :: ByteAlloc.Touches(g, ByteAlloc.Range(at, |z|), x) ==> !IsBlock(table, x)
    ensures IsBlock(table, b) ==> b < |disk| && HostBytes.PutBytes(g, disk, at, z)[b] == disk[b]
  {
  }

  // A cached table is still on disk after a step that keeps live tables.
  lemma TableHeld(st: Img, st1: Img, at: seq<nat>, counts: seq<nat>, tabs: seq<seq<Entry>>, r: nat)
    requires CacheOk(st, at, counts, tabs) && TablesKept(st, st1) && r < SLOTS && at[r] != 0
    ensures |tabs| == SLOTS && Ents(st1.disk, at[r]) == Ents(st.disk, at[r]) == tabs[r]
  {
    assert SlotOk(st, at[r], tabs[r]);
  }

  lemma BytesOk(st: Img, l2At: seq<nat>, counts: seq<nat>, tabs: seq<seq<Entry>>, at: nat, z: seq<bv8>)
    requires CacheOk(st, l2At, counts, tabs)
    requires forall x: nat :: ByteAlloc.Touches(st.g, ByteAlloc.Range(at, |z|), x) ==> x !in l2At
    ensures CacheOk(st.(disk := HostBytes.PutBytes(st.g, st.disk, at, z)), l2At, counts, tabs)
  {
    hide ByteAlloc.Touches, HostBytes.Merged;
    var st' := st.(disk := HostBytes.PutBytes(st.g, st.disk, at, z));
    forall s: nat | s < |l2At| ensures SlotOk(st', l2At[s], tabs[s]) {
      assert SlotOk(st, l2At[s], tabs[s]);
      assert l2At[s] in l2At;
    }
  }

  // Taking bytes leaves every live L2 table alone.
  lemma AddedTables(st: Img, st1: Img, r: ByteAlloc.Range)
    requires ByteAlloc.Added(st, st1, r)
    ensures TablesKept(st, st1)
  {
    forall x: nat | x < |st.disk| && st.disk[x].L2? && RcOf(st.rc, x) > 0
      ensures st1.disk[x] == st.disk[x] && RcOf(st1.rc, x) > 0
    {
      assert st1.Blk(x) >= st.Blk(x);
    }
  }

  // The clusters of a new stream are no cached tables and no refcount blocks.
  lemma StreamApart(deflate: Conversion.Deflate, st: Img, reg: seq<Conversion.Packet>, st1: Img, r: ByteAlloc.Range,
                    l2At: seq<nat>, counts: seq<nat>, tabs: seq<seq<Entry>>, x: nat)
    requires Inv(st) && Conversion.Packs(deflate, st, reg) && ByteAlloc.Added(st, st1, r)
    requires ByteAlloc.Handed(st1, Conversion.Ranges(deflate, reg) + [r]) && ByteAlloc.Touches(st.g, r, x)
    requires CacheOk(st, l2At, counts, tabs)
    ensures x < |st1.disk| && x !in l2At && !IsBlock(st1.table, x)
  {
    hide CacheOk, ByteAlloc.Handed, ByteAlloc.Touches, Packing.Loose;
    Conversion.TouchedLoose(deflate, st, reg, st1, r, x);
    BlockRefsIs(st1.table, x);
    InvShape2(st, x);
    if RcOf(st.rc, x) == 0 {
      FreeNotCached(st, l2At, counts, tabs, x);
    } else {
      Conversion.StreamData(deflate, st, reg, st1, r, x);
      OtherNotCached(st, l2At, counts, tabs, x);
    }
  }

  lemma InvShape2(st: Img, x: nat)
    requires Inv(st) && Packing.Loose(st, x)
    ensures |st.disk| == |st.rc| && x != 0
  {
  }

  class Qcow2 {
    const g: Geo
    const env: Env
    const rtAt: nat
    const rtLen: nat

    var disk: Disk
    var table: seq<nat>
    var blockAt: nat            // refcount_block_cache_offset, 0 for none
    var block: seq<nat>         // refcount_block_cache
    var freeIdx: nat
    var freeByte: nat
    var l1: seq<Entry>
    var l1At: nat
    var snaps: seq<Snapshot>
    var snapsAt: nat
    var snapsSize: nat

    var l2At: seq<nat>          // l2_cache_offsets, 0 for an empty slot
    var l2Count: seq<nat>       // l2_cache_counts
    var l2Tab: seq<seq<Entry>>  // l2_cache
    var cacheAt: Option<Place>  // cluster_cache_offset
    var cache: seq<Sector>      // cluster_cache

    ghost function Abs(): Img
      reads this`disk, this`table, this`freeIdx, this`freeByte, this`l1, this`l1At, this`snaps, this`snapsAt
      reads this`snapsSize
    {
      Img(g, Erased(disk), table, CountMap(g, disk, table), freeIdx, freeByte, l1, l1At, snaps, snapsAt, snapsSize,
          rtAt, rtLen)
    }

    // The refcount table, the blocks on disk and the one-block cache fit together.
    ghost predicate BlocksValid()
      reads this`disk, this`table, this`blockAt, this`block
    {
      && BlocksOk(g, disk, table)
      && (blockAt != 0 ==> IsBlock(table, blockAt) && disk[blockAt] == Counts(block))
    }

    // load_refcount_block
    method LoadRefcountBlock(b: nat)
      requires BlocksValid() && IsBlock(table, b)
      modifies this`blockAt, this`block
      ensures BlocksValid() && blockAt == b
    {
      blockAt := b;
      block := disk[b].counts;
    }

    // get_refcount: 0 past the table and where there is no block
    method GetRefcount(c: nat) returns (r: nat)
      requires BlocksValid()
      modifies this`blockAt, this`block
      ensures BlocksValid()
      ensures r == RcOf(CountMap(g, disk, table), c)
    {
      var k := Row(g.reach, c);
      if k >= |table| {
        assert c >= |disk| by { if c < |disk| { RowLess(g.reach, c, |table|); } }
        return 0;
      }
      var b := table[k];
      assert c < |disk| by { RowBound(g.reach, c, |table|); }
      if b == 0 {
        return 0;
      }
      if b != blockAt {
        LoadRefcountBlock(b);
      }
      r := block[Col(g.reach, c)];
    }

    // The inner loop of alloc_clusters_noref: the cluster at freeIdx is free; are the next n - 1 free too?
    method ScanRun(n: nat) returns (found: bool)
      requires BlocksValid() && RcOf(CountMap(g, disk, table), freeIdx) == 0
      modifies this`blockAt, this`block, this`freeIdx
      ensures BlocksValid()
      ensures found ==> freeIdx == old(freeIdx) + Max1(n) && RunFree(CountMap(g, disk, table), old(freeIdx), Max1(n))
      ensures !found ==> old(freeIdx) < freeIdx < old(freeIdx) + n && RcOf(CountMap(g, disk, table), freeIdx) != 0
    {
      ghost var rc := CountMap(g, disk, table);
      RunFreeStep(rc, freeIdx, 0);
      freeIdx := freeIdx + 1;
      var i := 1;
      while i < n
        invariant BlocksValid()
        invariant 1 <= i <= Max1(n) && freeIdx == old(freeIdx) + i
        invariant RunFree(rc, old(freeIdx), i)
      {
        var r := GetRefcount(freeIdx);
        if r != 0 { return false; }
        RunFreeStep(rc, old(freeIdx), i);
        freeIdx := freeIdx + 1;
        i := i + 1;
      }
      found := true;
    }

    // One turn of the outer loop of alloc_clusters_noref.
    method TryRun(n: nat) returns (found: bool)
      requires BlocksValid()
      modifies this`blockAt, this`block, this`freeIdx
      ensures BlocksValid()
      ensures found ==> freeIdx == old(freeIdx) + Max1(n) && RunFree(CountMap(g, disk, table), old(freeIdx), Max1(n))
      ensures !found ==> old(freeIdx) < freeIdx <= |disk|
      ensures !found ==>
        FirstFit(CountMap(g, disk, table), old(freeIdx), Max1(n)) ==
          FirstFit(CountMap(g, disk, table), freeIdx, Max1(n))
    {
      hide FirstFit, BlocksOk, CountMap;
      ghost var rc := CountMap(g, disk, table);
      found := false;
      var r := GetRefcount(freeIdx);
      if r == 0 { found := ScanRun(n); }
      if !found {
        NotFound(rc, old(freeIdx), freeIdx, Max1(n));
        freeIdx := freeIdx + 1;
      }
    }

    // alloc_clusters_noref
    method AllocClustersNoref(n: nat) returns (x: nat)
      requires BlocksValid()
      modifies this`blockAt, this`block, this`freeIdx
      ensures BlocksValid()
      ensures var x0 := FirstFit(CountMap(g, disk, table), old(freeIdx), Max1(n));
        freeIdx == x0 + Max1(n) && x == if n == 0 then x0 + 1 else x0
    {
      ghost var rc := CountMap(g, disk, table);
      var found := TryRun(n);
      ghost var f: nat := old(freeIdx);
      while !found
        invariant BlocksValid() && f <= freeIdx
        invariant FirstFit(rc, old(freeIdx), Max1(n)) == FirstFit(rc, f, Max1(n))
        invariant !found ==> freeIdx <= |rc| && FirstFit(rc, f, Max1(n)) == FirstFit(rc, freeIdx, Max1(n))
        invariant found ==> freeIdx == f + Max1(n) && RunFree(rc, f, Max1(n))
        decreases !found, |rc| - freeIdx
      {
        f := freeIdx;
        found := TryRun(n);
      }
      x := freeIdx - n;
    }

    // The end of update_cluster_refcount: the block of cluster c exists.
    method BumpCount(c: nat, a: int) returns (r: Option<nat>)
      requires BlocksValid() && c < |disk| && Row(g.reach, c) < |table| && table[Row(g.reach, c)] != 0
      requires blockAt == table[Row(g.reach, c)]
      modifies this`disk, this`block, this`freeIdx
      ensures BlocksValid()
      ensures r.Some? <==> Bump(old(Abs()), c, a).Some?
      ensures r.Some? ==> Bump(old(Abs()), c, a) == Some(Abs()) && r.value == Abs().rc[c]
    {
      var col := Col(g.reach, c);
      var v := block[col] + a;
      if v < 0 || v > MAX_REFCOUNT { return None; }
      StoreCount(g, disk, table, c, v);
      if v == 0 && c < freeIdx { freeIdx := c; }
      block := block[col := v];
      disk := disk[blockAt := Counts(disk[blockAt].counts[col := v])];
      r := Some(v);
    }

    // Put a zeroed refcount block into cluster b and enter it in the table.
    method PlaceBlock(k: nat, b: nat)
      requires BlocksValid() && k < |table| && table[k] == 0 && 0 < b < |disk| && !IsBlock(table, b)
      modifies this`disk, this`table, this`block, this`blockAt
      ensures BlocksValid() && blockAt == b && table == old(table)[k := b] && |disk| == old(|disk|)
      ensures Abs() == old(Abs()).(table := old(table)[k := b], disk := old(Abs()).disk[b := Counts([])])
    {
      InstallBlock(g, disk, table, k, b);
      block := seq(g.reach, _ => 0);
      disk := disk[b := Counts(block)];
      table := table[k := b];
      blockAt := b;
      assert IsBlock(table, b) by { assert table[k] == b; }
    }

    // Creating the refcount block of cluster c.  The source then counts the block through a recursive
    // update; once the block's own range is described, that update only has to store a 1.
    method CreateBlock(c: nat) returns (ok: bool)
      requires BlocksValid() && Abs().Sound() && Row(g.reach, c) < |table| && table[Row(g.reach, c)] == 0
      modifies this`disk, this`table, this`block, this`blockAt, this`freeIdx
      ensures BlocksValid()
      ensures ok <==> AddBlock(old(Abs()), c).Some?
      ensures ok ==> AddBlock(old(Abs()), c) == Some(Abs()) && blockAt == table[Row(g.reach, c)] != 0
    {
      hide FirstFit, BlocksOk, CountMap, Row;
      ghost var st := Abs();
      var b := AllocClustersNoref(1);
      if Row(g.reach, b) != Row(g.reach, c) {
        // From here on the source would use another block's cache as this one.
        return false;
      }
      RowBound(g.reach, b, |table|);
      FreshBlock(st, b);
      PlaceBlock(Row(g.reach, c), b);
      var r := BumpCount(b, 1);
      ok := true;
    }

    // update_cluster_refcount
    method UpdateClusterRefcount(c: nat, a: int) returns (r: Option<nat>)
      requires BlocksValid() && a != 0
      requires a > 0 && !Abs().HasBlock(c) ==> Abs().Sound()
      modifies this`disk, this`table, this`block, this`blockAt, this`freeIdx
      ensures BlocksValid()
      ensures r.Some? <==> Upd(old(Abs()), c, a).Some?
      ensures r.Some? ==> Upd(old(Abs()), c, a) == Some(Abs()) && r.value == RcOf(Abs().rc, c)
    {
      var k := Row(g.reach, c);
      if k >= |table| {
        // The refcount table would have to grow.
        return None;
      }
      RowBound(g.reach, c, |table|);
      if table[k] == 0 {
        if a < 0 { return None; }
        var ok := CreateBlock(c);
        if !ok { return None; }
      } else if table[k] != blockAt {
        LoadRefcountBlock(table[k]);
      }
      r := BumpCount(c, a);
    }

    // update_refcount over n clusters
    method UpdateRefcount(lo: nat, n: nat, a: int) returns (ok: bool)
      requires BlocksValid() && (a == 1 || a == -1)
      requires a == 1 ==> Abs().Sound() || AllBlocks(Abs(), lo, n)
      modifies this`disk, this`table, this`block, this`blockAt, this`freeIdx
      ensures BlocksValid()
      ensures ok <==> UpdRun(old(Abs()), lo, n, a).Some?
      ensures ok ==> UpdRun(old(Abs()), lo, n, a) == Some(Abs())
    {
      hide UpdRun, Upd;
      ghost var target := UpdRun(Abs(), lo, n, a);
      var k := 0;
      while k < n
        invariant BlocksValid() && 0 <= k <= n
        invariant a == 1 ==> Abs().Sound() || AllBlocks(Abs(), lo + k, n - k)
        invariant target == UpdRun(Abs(), lo + k, n - k, a)
      {
        ghost var st := Abs();
        UpdRunStep(st, lo + k, n - k, a);
        var r := UpdateClusterRefcount(lo + k, a);
        if r.None? { return false; }
        if a == 1 { UpdKeeps(st, lo + k, n - k, Abs()); }
        k := k + 1;
      }
      UpdRunStep(Abs(), lo + k, 0, a);
      ok := true;
    }

    // alloc_clusters
    method AllocClusters(n: nat) returns (r: Option<nat>)
      requires BlocksValid() && Abs().Sound()
      modifies this`disk, this`table, this`block, this`blockAt, this`freeIdx
      ensures BlocksValid()
      ensures r.Some? <==> Alloc(old(Abs()), n).Some?
      ensures r.Some? ==> Alloc(old(Abs()), n) == Some((Abs(), r.value))
    {
      hide UpdRun;
      ghost var st := Abs();
      var x := AllocClustersNoref(n);
      MoveSound(st, freeIdx);
      assert Abs() == st.(freeIdx := freeIdx);
      var start := if n == 0 then x - 1 else x;
      var ok := UpdateRefcount(start, n, 1);
      r := if ok then Some(x) else None;
    }

    method TakeBytes(size: nat) returns (r: Option<nat>)
      requires BlocksValid() && Abs().Sound() && 0 < size && Col(g.bytes, freeByte) + size <= g.bytes
      modifies this`disk, this`table, this`block, this`blockAt, this`freeIdx, this`freeByte
      ensures BlocksValid()
      ensures r.Some? <==> ByteAlloc.Take(old(Abs()), size).Some?
      ensures r.Some? ==> ByteAlloc.Take(old(Abs()), size) == Some((Abs(), r.value))
    {
      hide Upd, Img.Sound, Row, Col;
      ghost var st := Abs();
      var at := freeByte;
      freeByte := if Col(g.bytes, at) + size == g.bytes then 0 else at + size;
      assert Abs() == st.(freeByte := freeByte);
      ByteAlloc.LaterSound(st, freeByte);
      if Col(g.bytes, at) != 0 {
        var c := UpdateClusterRefcount(Row(g.bytes, at), 1);
        if c.None? { return None; }
      }
      r := Some(at);
    }

    // A cluster for freeByte to move to; freeByte itself is not moved yet.
    method NextCluster() returns (r: Option<nat>)
      requires BlocksValid() && Abs().Sound()
      modifies this`disk, this`table, this`block, this`blockAt, this`freeIdx
      ensures BlocksValid()
      ensures r.Some? <==> Alloc(old(Abs()), 1).Some?
      ensures r.Some? ==>
        Alloc(old(Abs()), 1) == Some((Abs(), r.value)) && Abs().Sound() && Abs().freeByte == old(freeByte)
      ensures r.Some? ==> Abs().(freeByte := ByteAlloc.Start(g, r.value)).Sound()
    {
      hide Alloc, Img.Sound, BlocksOk, CountMap, Erased;
      ghost var st := Abs();
      r := AllocClusters(1);
      if r.Some? { ByteAlloc.NextSound(st, Abs(), r.value); }
    }

    // The branch of alloc_bytes taken when the current cluster is too full: the new cluster continues it,
    // or freeByte moves there and nothing is handed out yet.
    method MoveBytes(size: nat) returns (ok: bool, at: Option<nat>)
      requires BlocksValid() && Abs().Sound() && size <= g.bytes < Col(g.bytes, freeByte) + size
      modifies this`disk, this`table, this`block, this`blockAt, this`freeIdx, this`freeByte
      ensures BlocksValid()
      ensures !ok ==> ByteAlloc.TakeOrMove(old(Abs()), size).None?
      ensures ok && at.Some? ==> ByteAlloc.TakeOrMove(old(Abs()), size) == Some((Abs(), at.value))
      ensures ok && at.None? ==>
        ByteAlloc.TakeOrMove(old(Abs()), size) == ByteAlloc.TakeOrMove(Abs(), size) && Abs().Sound() &&
          Col(g.bytes, freeByte) == 0
    {
      hide BlocksOk, CountMap, Erased, Upd, Alloc, Img.Sound, Row, Col, ByteAlloc.TakeOrMove, ByteAlloc.Take;
      ByteAlloc.MoveStep(Abs(), size);
      var was := freeByte;
      var x := NextCluster();
      if x.None? { return false, None; }
      ghost var st := Abs();
      if Row(g.bytes, was) + 1 == x.value {
        var c := UpdateClusterRefcount(Row(g.bytes, was), 1);
        if c.None? { return false, None; }
        st := Abs();
        freeByte := was + size;
        assert Abs() == st.(freeByte := freeByte);
        return true, Some(was);
      }
      RowColOf(g.bytes, x.value, 0);
      freeByte := ByteAlloc.Start(g, x.value);
      assert Abs() == st.(freeByte := freeByte);
      return true, None;
    }

    // alloc_bytes; redos counts the jumps back to its label
    method AllocBytes(size: nat) returns (r: Option<nat>, redos: nat)
      requires BlocksValid() && Abs().Sound() && 0 < size <= g.bytes
      modifies this`disk, this`table, this`block, this`blockAt, this`freeIdx, this`freeByte
      ensures BlocksValid() && redos <= 1
      ensures r.Some? <==> ByteAlloc.AllocBytes(old(Abs()), size).Some?
      ensures r.Some? ==> ByteAlloc.AllocBytes(old(Abs()), size) == Some((Abs(), r.value))
    {
      hide BlocksOk, CountMap, Erased, Alloc, Img.Sound, Row, Col, ByteAlloc.TakeOrMove, ByteAlloc.Take;
      hide ByteAlloc.AllocBytes;
      redos := 0;
      ghost var target := ByteAlloc.AllocBytes(Abs(), size);
      ByteAlloc.StartStep(Abs(), size);
      if freeByte == 0 {
        var x := NextCluster();
        if x.None? { return None, 0; }
        ghost var st := Abs();
        freeByte := ByteAlloc.Start(g, x.value);
        assert Abs() == st.(freeByte := freeByte);
      }
      while Col(g.bytes, freeByte) + size > g.bytes
        invariant BlocksValid() && Abs().Sound() && redos <= 1
        invariant redos == 1 ==> Col(g.bytes, freeByte) == 0
        invariant target == ByteAlloc.TakeOrMove(Abs(), size)
        decreases 1 - redos
      {
        var ok, at := MoveBytes(size);
        if !ok { return None, redos; }
        if at.Some? { return at, redos; }
        redos := redos + 1;
      }
      ByteAlloc.MoveStep(Abs(), size);
      r := TakeBytes(size);
    }

    // ----- the L2 cache -----

    ghost predicate L2Valid()
      reads this`disk, this`table, this`freeIdx, this`freeByte, this`l1, this`l1At, this`snaps, this`snapsAt
      reads this`snapsSize
      reads this`l2At, this`l2Count, this`l2Tab
    {
      CacheOk(Abs(), l2At, l2Count, l2Tab)
    }

    // l2_cache_reset
    method L2CacheReset()
      modifies this`l2At, this`l2Count, this`l2Tab
      ensures L2Valid() && EmptySlots(l2At, l2Count, l2Tab)
    {
      l2At := seq(SLOTS, _ => 0);
      l2Count := seq(SLOTS, _ => 0);
      l2Tab := seq(SLOTS, _ => seq(g.width, _ => Zero));
    }

    // l2_cache_new_entry: a least used slot
    method L2CacheNewEntry() returns (r: nat)
      requires |l2Count| == SLOTS && Small(l2Count)
      ensures r < SLOTS && forall s: nat :: s < SLOTS ==> l2Count[r] <= l2Count[s]
    {
      r := 0;
      var min := COUNT_LIMIT;
      var i := 0;
      while i < SLOTS
        invariant 0 <= i <= SLOTS && r < SLOTS
        invariant i > 0 ==> min == l2Count[r]
        invariant forall s: nat :: s < i ==> min <= l2Count[s]
        invariant i == 0 ==> min == COUNT_LIMIT
      {
        if l2Count[i] < min {
          min := l2Count[i];
          r := i;
        }
        i := i + 1;
      }
    }

    // The hit count of a slot goes up, by halving all counts when it would reach the limit.
    method CountHit(r: nat)
      requires r < |l2Count|
      modifies this`l2Count
      ensures l2Count == Hit(old(l2Count), r)
    {
      l2Count := l2Count[r := l2Count[r] + 1];
      if l2Count[r] == COUNT_LIMIT {
        ghost var up := l2Count;
        var j := 0;
        while j < |l2Count|
          invariant 0 <= j <= |l2Count| == |up|
          invariant forall s: nat :: s < |up| ==> l2Count[s] == if s < j then up[s] / 2 else up[s]
        {
          l2Count := l2Count[j := l2Count[j] / 2];
          j := j + 1;
        }
        assert l2Count == Halved(up);
      }
    }

    // The slot of get_cluster_offset that holds the L2 table at cluster `at`; a table that is cached stays in its slot.
    method FindL2(at: nat) returns (r: nat)
      requires L2Valid() && 0 < at < |disk| && disk[at].L2? && RcOf(Abs().rc, at) > 0
      modifies this`l2At, this`l2Count, this`l2Tab
      ensures L2Valid() && r < SLOTS && l2At[r] == at && l2Tab[r] == disk[at].ents
      ensures at in old(l2At) ==> l2At == old(l2At) && l2Tab == old(l2Tab)
    {
      var i := 0;
      while i < SLOTS
        invariant 0 <= i <= SLOTS
        invariant forall s: nat :: s < i ==> l2At[s] != at
      {
        if l2At[i] == at {
          HitSmall(l2Count, i);
          CountHit(i);
          assert SlotOk(Abs(), l2At[i], l2Tab[i]);
          return i;
        }
        i := i + 1;
      }
      r := L2CacheNewEntry();
      LoadOk(Abs(), l2At, l2Count, l2Tab, r, at);
      l2At := l2At[r := at];
      l2Count := l2Count[r := 1];
      l2Tab := l2Tab[r := disk[at].ents];
    }

    // ----- reading -----

    // An L1 entry is empty or names a live L2 table.
    ghost predicate SlotLive(e: Entry)
      reads this`disk, this`table, this`freeIdx, this`freeByte, this`l1, this`l1At, this`snaps, this`snapsAt
      reads this`snapsSize
    {
      e.Zero? || (e.Plain? && 0 < e.at < |disk| && disk[e.at].L2? && |disk[e.at].ents| == g.width &&
        RcOf(Abs().rc, e.at) > 0)
    }

    // get_cluster_offset with allocate = 0
    method Lookup(i: nat, j: nat) returns (e: Entry)
      requires L2Valid() && SlotLive(SlotAt(l1, i)) && j < g.width
      modifies this`l2At, this`l2Count, this`l2Tab
      ensures L2Valid() && e == L2Word(Abs().disk, SlotAt(l1, i), j)
      ensures i < |l1| && l1[i].Plain? && l1[i].at in old(l2At) ==> l2At == old(l2At) && l2Tab == old(l2Tab)
    {
      if i >= |l1| || l1[i].Zero? { return Zero; }
      var r := FindL2(l1[i].at);
      e := l2Tab[r][j];
    }

    // backing_read1 and the read of the part inside the backing file; zeros past its end
    method ReadBacking(sn: nat, n: nat) returns (buf: seq<Sector>)
      ensures |buf| == n && forall t: nat :: t < n ==> buf[t] == env.Backing(sn + t)
    {
      var total := |env.backing|;
      var n1 := if sn + n <= total then n else if sn >= total then 0 else total - sn;
      buf := (if n1 > 0 then env.backing[sn..sn + n1] else []) + seq(n - n1, _ => ZeroSector());
    }

    // decompress_cluster
    method DecompressCluster(e: Entry)
      requires e.Packed?
      modifies this`cacheAt, this`cache
      ensures cacheAt == Some(PlaceOf(e))
      ensures cache == if old(cacheAt) == Some(PlaceOf(e)) then old(cache) else Inflated(env, g, Abs().disk, e)
    {
      if cacheAt != Some(PlaceOf(e)) {
        ErasedStream(g, disk, e);
        cache := Inflated(env, g, disk, e);
        cacheAt := Some(PlaceOf(e));
      }
    }

    method ReadPlain(at: nat, sn: nat, k: nat, n: nat) returns (buf: seq<Sector>)
      ensures |buf| == n && forall t: nat :: t < n ==> buf[t] == env.dec(sn + t, SectorAt(Abs().disk, at, k + t))
    {
      buf := [];
      while |buf| < n
        invariant |buf| <= n
        invariant forall t: nat :: t < |buf| ==> buf[t] == env.dec(sn + t, SectorAt(Abs().disk, at, k + t))
      {
        ErasedSector(disk, at, k + |buf|);
        buf := buf + [env.dec(sn + |buf|, SectorAt(disk, at, k + |buf|))];
      }
    }

    ghost predicate CacheShaped()
      reads this`cacheAt, this`cache
    {
      cacheAt.Some? ==> |cache| == g.spc
    }

    // n sectors from sector k of the cluster that L2 entry w describes, through whatever the cluster cache holds
    method ReadEntry(w: Entry, i: nat, j: nat, k: nat, n: nat) returns (buf: seq<Sector>)
      requires CacheShaped() && k + n <= g.spc
      modifies this`cacheAt, this`cache
      ensures CacheShaped() && |buf| == n
      ensures forall t: nat :: t < n ==>
        buf[t] == Seen(env, g, Abs().disk, old(cacheAt), old(cache), w, SectorNum(g, i, j, k + t), k + t)
      ensures !w.Packed? ==> cacheAt == old(cacheAt) && cache == old(cache)
      ensures w.Packed? ==> cacheAt == Some(PlaceOf(w))
      ensures w.Packed? ==>
        cache == if old(cacheAt) == Some(PlaceOf(w)) then old(cache) else Inflated(env, g, Abs().disk, w)
    {
      hide SectorNum, Inflated, CountMap;
      var sn := SectorNum(g, i, j, k);
      match w {
        case Zero => buf := ReadBacking(sn, n);
        case Packed(_, _, _) =>
          DecompressCluster(w);
          buf := cache[k..k + n];
        case Plain(at, _) => buf := ReadPlain(at, sn, k, n);
      }
      forall t: nat | t < n
        ensures buf[t] == Seen(env, g, Abs().disk, old(cacheAt), old(cache), w, SectorNum(g, i, j, k + t), k + t)
      {
        SectorNumAdd(g, i, j, k, t);
      }
    }

    // One turn of the loop in qcow_read: n sectors from sector k of cluster (i, j)
    method ReadPart(i: nat, j: nat, k: nat, n: nat) returns (buf: seq<Sector>, ghost e: Entry)
      requires L2Valid() && CacheShaped() && SlotLive(SlotAt(l1, i)) && j < g.width && k + n <= g.spc
      modifies this`l2At, this`l2Count, this`l2Tab, this`cacheAt, this`cache
      ensures L2Valid() && CacheShaped() && e == L2Word(Abs().disk, SlotAt(l1, i), j)
      ensures i < |l1| && l1[i].Plain? && l1[i].at in old(l2At) ==> l2At == old(l2At) && l2Tab == old(l2Tab)
      ensures |buf| == n
      ensures forall t: nat :: t < n ==>
        buf[t] == Seen(env, g, Abs().disk, old(cacheAt), old(cache), e, SectorNum(g, i, j, k + t), k + t)
      ensures !e.Packed? ==> cacheAt == old(cacheAt) && cache == old(cache)
      ensures e.Packed? ==> cacheAt == Some(PlaceOf(e))
      ensures e.Packed? ==>
        cache == if old(cacheAt) == Some(PlaceOf(e)) then old(cache) else Inflated(env, g, Abs().disk, e)
    {
      hide CacheOk, SectorNum, Inflated, CountMap, Seen;
      var w := Lookup(i, j);
      e := w;
      buf := ReadEntry(w, i, j, k, n);
    }

    // The image as qcow_create lays it out, opened.
    constructor (env: Env, g: Geo, blocks: nat, l1Size: nat)
      requires blocks > 0 && L1Clusters(g, l1Size) + 3 <= g.reach
      ensures this.env == env && this.g == g && Valid() && Abs() == Created(g, blocks, l1Size) && cacheAt == None
    {
      this.env := env;
      this.g := g;
      rtAt := L1Clusters(g, l1Size) + 1;
      rtLen := 1;
      disk := FirstDisk(g, blocks, l1Size);
      table := FirstTable(g, blocks, l1Size);
      blockAt, block := 0, [];
      freeIdx, freeByte := 0, 0;
      l1, l1At := ZeroL1(l1Size), 1;
      snaps, snapsAt, snapsSize := [], 0, 0;
      l2At := seq(SLOTS, _ => 0);
      l2Count := seq(SLOTS, _ => 0);
      l2Tab := seq(SLOTS, _ => seq(g.width, _ => Zero));
      cacheAt, cache := None, [];
      new;
      FirstImage(g, blocks, l1Size);
      assert Abs() == Created(g, blocks, l1Size);
      CreatedInv(g, blocks, l1Size);
      NoPacked(Abs());
    }

    // The state between requests.
    ghost predicate Valid()
      reads this
    {
      && BlocksValid() && L2Valid() && Inv(Abs()) && PackedOnce(Abs())
      && InflatedOk(env, Abs(), cacheAt, cache)
    }

    // The turn of the qcow_read loop that starts at sector sn.
    method ReadChunk(sn: nat, n: nat) returns (buf: seq<Sector>)
      requires Valid() && Col(g.spc, sn) + n <= g.spc
      modifies this`l2At, this`l2Count, this`l2Tab, this`cacheAt, this`cache
      ensures Valid() && |buf| == n && forall t: nat :: t < n ==> buf[t] == SectorView(env, Abs(), sn + t)
    {
      hide Inv, EntryView, SectorView, View, Inflated, PackedOnce;
      var vc := Row(g.spc, sn);
      var i, j, k := Row(g.width, vc), Col(g.width, vc), Col(g.spc, sn);
      SlotAlive(Abs(), i);
      CacheReads(env, Abs(), cacheAt, cache, i, j);
      ghost var e: Entry;
      buf, e := ReadPart(i, j, k, n);
      ReadKeeps(env, Abs(), i, j, old(cacheAt), old(cache), cacheAt, cache);
      forall t: nat | t < n ensures buf[t] == SectorView(env, Abs(), sn + t) {
        PartView(env, Abs(), sn, n, t);
        assert OldData(env, Abs(), i, j)[k + t] == View(env, Abs(), i, j, k + t);
      }
    }

    // qcow_read
    method Read(sn: nat, n: nat) returns (buf: seq<Sector>)
      requires Valid()
      modifies this`l2At, this`l2Count, this`l2Tab, this`cacheAt, this`cache
      ensures Valid() && |buf| == n && forall t: nat :: t < n ==> buf[t] == SectorView(env, Abs(), sn + t)
    {
      hide Inv, EntryView, SectorView, PackedOnce;
      buf := [];
      while |buf| < n
        invariant Valid() && |buf| <= n
        invariant forall t: nat :: t < |buf| ==> buf[t] == SectorView(env, Abs(), sn + t)
      {
        var m := ChunkLen(g, sn + |buf|, n - |buf|);
        var part := ReadChunk(sn + |buf|, m);
        buf := buf + part;
      }
    }

    // ----- writing -----

    // A write to a cluster that is no refcount block.
    method PutBlock(x: nat, b: Block)
      requires BlocksValid() && x < |disk| && !IsBlock(table, x) && !b.Counts?
      modifies this`disk
      ensures BlocksValid() && Abs() == old(Abs()).(disk := old(Abs()).disk[x := b]) && disk == old(disk)[x := b]
    {
      StoreBlock(g, disk, table, x, b);
      disk := disk[x := b];
    }

    // A write of whole sectors into a data cluster.
    method PutData(x: nat, lo: nat, buf: seq<Sector>)
      requires BlocksValid() && x < |disk| && !IsBlock(table, x)
      modifies this`disk
      ensures BlocksValid() && Abs() == old(Abs()).(disk := PutSectors(g, old(Abs()).disk, x, lo, buf))
      ensures |disk| == old(|disk|) && forall y: nat :: y < |disk| && y != x ==> disk[y] == old(disk)[y]
    {
      PutBlock(x, Data(Patched(Raw(g, disk[x]), lo, buf)));
    }

    // Sectors read for guest sectors lo .. of cluster (i, j), sealed for storage.
    method SealSectors(i: nat, j: nat, lo: nat, buf: seq<Sector>) returns (r: seq<Sector>)
      ensures r == Sealed(env, g, i, j, lo, buf)
    {
      r := [];
      while |r| < |buf|
        invariant |r| <= |buf| && forall k: nat :: k < |r| ==> r[k] == env.enc(SectorNum(g, i, j, lo + k), buf[k])
      {
        r := r + [env.enc(SectorNum(g, i, j, lo + |r|), buf[|r|])];
      }
    }

    // Encrypt buf and write it at sector a of cluster d, which no cached table uses.
    method PutSealed(i: nat, j: nat, d: nat, a: nat, buf: seq<Sector>)
      requires BlocksValid() && L2Valid() && a + |buf| <= g.spc && 0 < d < |disk| && !IsBlock(table, d) && d !in l2At
      modifies this`disk
      ensures BlocksValid() && L2Valid() && |disk| == old(|disk|)
      ensures forall y: nat :: y < |disk| && y != d ==> disk[y] == old(disk)[y]
      ensures Abs() == old(Abs()).(disk := PutSectors(g, old(Abs()).disk, d, a, Sealed(env, g, i, j, a, buf)))
    {
      hide CacheOk, Sealed, BlocksOk, CountMap;
      ghost var st := Abs();
      var sealed := SealSectors(i, j, a, buf);
      PutData(d, a, sealed);
      PutOk(st, l2At, l2Count, l2Tab, d, Abs().disk[d]);
    }

    // copy_sectors into the fresh cluster d, reading the old data of cluster (i, j)
    method CopySectors(i: nat, j: nat, d: nat, a: nat, b: nat, ghost view: seq<Sector>)
      requires BlocksValid() && L2Valid() && CacheShaped() && j < g.width && a <= b <= g.spc
      requires i < |l1| && l1[i].Plain? && SlotLive(l1[i]) && l1[i].at in l2At
      requires 0 < d < |disk| && !IsBlock(table, d) && d !in l2At
      requires var e := L2Word(Abs().disk, l1[i], j);
        (e.Plain? ==> e.at != d) && Reads(env, g, Abs().disk, cacheAt, cache, e, i, j, view)
      modifies this`disk, this`l2At, this`l2Count, this`l2Tab, this`cacheAt, this`cache
      ensures BlocksValid() && L2Valid() && CacheShaped() && l2At == old(l2At) && l2Tab == old(l2Tab)
      ensures |disk| == old(|disk|) && forall y: nat :: y < |disk| && y != d ==> disk[y] == old(disk)[y]
      ensures a == b ==> Abs() == old(Abs())
      ensures a < b ==>
        Abs() == old(Abs()).(disk := PutSectors(g, old(Abs()).disk, d, a, Sealed(env, g, i, j, a, view[a..b])))
      ensures var e := L2Word(old(Abs()).disk, l1[i], j);
        && L2Word(Abs().disk, l1[i], j) == e
        && Reads(env, g, Abs().disk, cacheAt, cache, e, i, j, view)
        && (|| (cacheAt == old(cacheAt) && cache == old(cache))
            || (e.Packed? && cacheAt == Some(PlaceOf(e)) && cache == view))
    {
      hide EntryView, Inflated, CacheOk, SectorNum, Sealed, BlocksOk, CountMap, Reads;
      if a == b { return; }
      var buf: seq<Sector>;
      ghost var e: Entry;
      buf, e := ReadPart(i, j, a, b - a);
      PartRead(env, g, Abs().disk, old(cacheAt), old(cache), e, i, j, view, a, b, buf);
      ghost var st := Abs();
      PutSealed(i, j, d, a, buf);
      CopiedReads(env, g, st.disk, d, a, Sealed(env, g, i, j, a, buf), old(cacheAt), old(cache), cacheAt, cache, e, i,
                  j, view);
    }

    // The free_clusters calls of get_cluster_offset
    method FreeStorage(e: Entry) returns (ok: bool)
      requires BlocksValid()
      modifies this`disk, this`table, this`block, this`blockAt, this`freeIdx
      ensures BlocksValid()
      ensures ok <==> FreeEntry(old(Abs()), e).Some?
      ensures ok ==> FreeEntry(old(Abs()), e) == Some(Abs())
    {
      hide UpdRun;
      match e
      case Zero => ok := true;
      case Plain(at, _) => ok := UpdateRefcount(at, 1, -1);
      case Packed(_, _, _) =>
        if e.nb > 0 { PastFirst(g, e); }
        ok := UpdateRefcount(First(g, e), Past(g, e) - First(g, e), -1);
    }

    // The two copy_sectors calls of get_cluster_offset: fill the fresh cluster d around [lo, hi).
    method FillAround(i: nat, j: nat, d: nat, lo: nat, hi: nat, ghost st: Img)
      requires BlocksValid() && L2Valid() && CacheShaped() && j < g.width && lo <= hi <= g.spc && st.g == g
      requires st.l1 == l1
      requires i < |l1| && l1[i].Plain? && SlotLive(l1[i]) && l1[i].at in l2At
      requires 0 < d < |disk| && !IsBlock(table, d) && d !in l2At && d != l1[i].at
      requires var e := L2Word(Abs().disk, l1[i], j);
        && e == L2Word(st.disk, l1[i], j) && (e.Plain? ==> e.at != d)
        && Reads(env, g, Abs().disk, cacheAt, cache, e, i, j, OldData(env, st, i, j))
      requires PackedOnce(st) && InflatedOk(env, st, cacheAt, cache)
      modifies this`disk, this`l2At, this`l2Count, this`l2Tab, this`cacheAt, this`cache
      ensures BlocksValid() && L2Valid() && CacheShaped() && l2At == old(l2At) && l2Tab == old(l2Tab)
      ensures InflatedOk(env, st, cacheAt, cache)
      ensures Abs() == old(Abs()).(disk := Copied(env, st, old(Abs()).disk, d, i, j, lo, hi))
    {
      hide EntryView, Inflated, CacheOk, SectorNum, Sealed, PackedOnce, InflatedOk, Prepared, Seen, PutSectors, Copied;
      ghost var view := OldData(env, st, i, j);
      ghost var st2 := Abs();
      if hi - lo < g.spc {
        CopySectors(i, j, d, 0, lo, view);
        CopyKeeps(env, st, i, j, old(cacheAt), old(cache), cacheAt, cache);
        ghost var d1 := Abs().disk;
        ghost var at1, cache1 := cacheAt, cache;
        CopySectors(i, j, d, hi, g.spc, view);
        CopyKeeps(env, st, i, j, at1, cache1, cacheAt, cache);
        TwoCopies(env, st, st2.disk, d, i, j, lo, hi, d1, Abs().disk);
      } else {
        NoCopy(env, st, st2.disk, d, i, j, lo, hi);
      }
    }

    // Drop what the L2 entry (i, j) points to and take a fresh cluster.
    method NewCluster(i: nat, j: nat, e: Entry) returns (r: Option<nat>)
      requires BlocksValid() && L2Valid() && Inv(Abs()) && i < |l1| && l1[i].Plain? && l1[i].copied
      requires j < |Ents(Abs().disk, l1[i].at)| && e == Ents(Abs().disk, l1[i].at)[j] && !(e.Plain? && e.copied)
      modifies this`disk, this`table, this`block, this`blockAt, this`freeIdx
      ensures BlocksValid()
      ensures r.Some? <==> FreeEntry(old(Abs()), e).Some? && Alloc(FreeEntry(old(Abs()), e).value, 1).Some?
      ensures r.Some? ==> Alloc(FreeEntry(old(Abs()), e).value, 1) == Some((Abs(), r.value))
      ensures r.Some? ==> L2Valid() && SlotLive(l1[i]) && Mid(old(Abs()), Abs(), i, j, r.value)
      ensures r.Some? ==> r.value !in l2At && !IsBlock(table, r.value)
    {
      hide Inv, CacheOk, FreeEntry, Alloc, UpdRun, EntryRefs, TablesKept, BlocksOk, CountMap;
      ghost var st := Abs();
      var ok := FreeStorage(e);
      if !ok { return None; }
      ghost var st1 := Abs();
      FreeTables(st, i, j, e, st1);
      KeptOk(st, st1, l2At, l2Count, l2Tab);
      FreeEntrySpec(st, i, j, e, st1);
      r := AllocClusters(1);
      if r.None? { return; }
      ghost var d := r.value;
      MidState(st, i, j, st1, Abs(), d);
      AllocTables(st1, Abs(), d, 1);
      KeptOk(st1, Abs(), l2At, l2Count, l2Tab);
      FreeNotCached(st1, l2At, l2Count, l2Tab, d);
      BlockRefsIs(table, d);
      SlotAlive(st, i);
    }

    // The end of get_cluster_offset: enter a word in the cached L2 table and on disk.
    method LinkWord(r: nat, j: nat, e: Entry)
      requires BlocksValid() && L2Valid() && r < SLOTS && l2At[r] != 0 && j < |l2Tab[r]|
      modifies this`disk, this`l2Tab
      ensures BlocksValid() && L2Valid()
      ensures Abs() ==
        old(Abs()).(disk := SetBlock(old(Abs()).disk, l2At[r], L2(Ents(old(Abs()).disk, l2At[r])[j := e])))
    {
      hide CacheOk, SlotOk;
      SlotDisk(Abs(), l2At, l2Count, l2Tab, r);
      StoreWordOk(Abs(), l2At, l2Count, l2Tab, r, j, e);
      l2Tab := l2Tab[r := l2Tab[r][j := e]];
      PutBlock(l2At[r], L2(l2Tab[r]));
    }

    // get_cluster_offset with allocate = 1, from the L2 entry on; slot r holds the L2 table.
    method PrepareCluster(r: nat, i: nat, j: nat, lo: nat, hi: nat) returns (d: Option<nat>)
      requires Valid() && r < SLOTS && i < |l1| && l1[i].Plain? && l1[i].copied && l2At[r] == l1[i].at
      requires j < g.width && lo <= hi <= g.spc
      modifies this
      ensures BlocksValid()
      ensures d.Some? <==> Prepare(env, old(Abs()), i, j, lo, hi).Some?
      ensures d.Some? ==> Prepare(env, old(Abs()), i, j, lo, hi) == Some((Abs(), d.value))
      ensures d.Some? ==> L2Valid() && InflatedOk(env, old(Abs()), cacheAt, cache)
      ensures d.Some? ==> d.value < |disk| && !IsBlock(table, d.value) && d.value !in l2At
    {
      hide Inv, CacheOk, FreeEntry, Alloc, EntryView, Copied, PackedOnce, Mid;
      ghost var st := Abs();
      SlotAlive(st, i);
      SlotDisk(st, l2At, l2Count, l2Tab, r);
      var e := l2Tab[r][j];
      assert e == Ents(st.disk, st.l1[i].at)[j];
      if e.Plain? && e.copied {
        InPlace(st, i, j, l2At, l2Count, l2Tab);
        BlockTag(g, disk, table, e.at);
        return Some(e.at);
      }
      d := NewCluster(i, j, e);
      if d.None? { return; }
      ghost var st2 := Abs();
      MidFacts(env, st, st2, cacheAt, cache, i, j, d.value);
      FillAround(i, j, d.value, lo, hi, st);
      LinkWord(r, j, Plain(d.value, true));
    }

    // Write one word of the active L1 table, in memory and on disk.
    method SetL1(i: nat, e: Entry)
      requires BlocksValid() && i < |l1|
      requires var c := l1At + Row(g.width, i); c < |disk| && disk[c].L1? && Col(g.width, i) < |disk[c].ents|
      modifies this`l1, this`disk
      ensures BlocksValid() && disk == old(disk)[l1At + Row(g.width, i) := disk[l1At + Row(g.width, i)]]
      ensures Abs() == old(Abs()).(l1 := old(l1)[i := e], disk := PutL1Word(g, old(Abs()).disk, l1At, i, e))
    {
      var c, w := l1At + Row(g.width, i), Col(g.width, i);
      l1 := l1[i := e];
      BlockTag(g, disk, table, c);
      PutBlock(c, L1(disk[c].ents[w := e]));
    }

    // The l2_allocate branch of get_cluster_offset once the cluster n is taken: link it and fill a cache slot with its
    // table.
    method NewTable(i: nat, n: nat, tab: seq<Entry>) returns (r: nat)
      requires BlocksValid() && L2Valid() && i < |l1| && 0 < n < |disk| && !IsBlock(table, n) && n !in l2At
      requires RcOf(Abs().rc, n) > 0
      requires var c := l1At + Row(g.width, i);
        0 < c < |disk| && disk[c].L1? && Col(g.width, i) < |disk[c].ents| && c != n
      modifies this`l1, this`disk, this`l2At, this`l2Count, this`l2Tab
      ensures BlocksValid() && L2Valid() && r < SLOTS && l2At[r] == n && l1 == old(l1)[i := Plain(n, true)]
      ensures Abs() == Relink(old(Abs()), i, n, tab)
    {
      hide CacheOk, Relink, BlocksOk, IsBlock, Row, Col, PutWord;
      ghost var st := Abs();
      ghost var c := l1At + Row(g.width, i);
      SlotsShape(st, l2At, l2Count, l2Tab);
      SetL1(i, Plain(n, true));
      ghost var st1 := Abs();
      L1WordOk(st, i, Plain(n, true), st1, l2At, l2Count, l2Tab);
      r := L2CacheNewEntry();
      PutBlock(n, L2(tab));
      PutOk(st1, l2At, l2Count, l2Tab, n, L2(tab));
      LoadOk(Abs(), l2At, l2Count, l2Tab, r, n);
      RelinkOrder(st, i, n, tab);
      l2At := l2At[r := n];
      l2Count := l2Count[r := 1];
      l2Tab := l2Tab[r := tab];
    }

    // A new L2 table for slot i: empty, or a copy of the shared one.
    method MoveTable(i: nat) returns (r: Option<nat>)
      requires Valid() && i < |l1| && !(l1[i].Plain? && l1[i].copied)
      modifies this`disk, this`table, this`block, this`blockAt, this`freeIdx, this`l1, this`l2At, this`l2Count
      modifies this`l2Tab
      ensures BlocksValid()
      ensures r.Some? <==> OwnL2(old(Abs()), i).Some?
      ensures r.Some? ==> OwnL2(old(Abs()), i) == Some(Abs()) && L2Valid()
      ensures r.Some? ==> r.value < SLOTS && i < |l1| && l1[i].Plain? && l2At[r.value] == l1[i].at
    {
      hide Inv, CacheOk, UpdRun, Alloc, PackedOnce, InflatedOk, Relink, TablesKept, BlocksOk, CountMap, Row, Col;
      hide Img.Sound, Released, IsBlock, BlockRefs;
      ghost var st := Abs();
      SlotAlive(st, i);
      var e := l1[i];
      if e.Plain? {
        var ok := UpdateRefcount(e.at, 1, -1);
        if !ok { return None; }
      }
      ghost var stA := Abs();
      OwnRelease(st, i, stA);
      var n := AllocClusters(1);
      if n.None? { return None; }
      OwnMid(st, stA, Abs(), i, n.value);
      OwnCached(st, stA, Abs(), l2At, l2Count, l2Tab, n.value);
      var tab := if e.Zero? then ZeroTable(g) else disk[e.at].ents;
      var s := NewTable(i, n.value, tab);
      r := Some(s);
    }

    // The part of get_cluster_offset with allocate = 1 that gives the active tree its own L2 table; returns its cache
    // slot.
    method OwnTable(i: nat) returns (r: Option<nat>)
      requires Valid() && i < |l1|
      modifies this`disk, this`table, this`block, this`blockAt, this`freeIdx, this`l1, this`l2At, this`l2Count
      modifies this`l2Tab
      ensures BlocksValid()
      ensures r.Some? <==> OwnL2(old(Abs()), i).Some?
      ensures r.Some? ==> OwnL2(old(Abs()), i) == Some(Abs()) && L2Valid()
      ensures r.Some? ==> r.value < SLOTS && i < |l1| && l1[i].Plain? && l2At[r.value] == l1[i].at
    {
      hide Inv, CacheOk, UpdRun, Alloc, PackedOnce, InflatedOk, Relink, BlocksOk, CountMap;
      SlotAlive(Abs(), i);
      if l1[i].Plain? && l1[i].copied {
        var s := FindL2(l1[i].at);
        return Some(s);
      }
      r := MoveTable(i);
    }

    // Write a whole L1 table into the clusters from `at` on.
    method StoreTable(at: nat, l: seq<Entry>)
      requires BlocksValid() && at + L1Clusters(g, |l|) <= |disk|
      requires forall x: nat :: at <= x < at + L1Clusters(g, |l|) ==> !IsBlock(table, x)
      modifies this`disk
      ensures BlocksValid() && Abs() == old(Abs()).(disk := StoreL1(g, old(Abs()).disk, at, l))
    {
      hide StoreL1, L1Clusters, IsBlock;
      var c, rest := at, l;
      ghost var target := StoreL1(g, Abs().disk, at, l);
      while |rest| > 0
        invariant BlocksValid() && c + L1Clusters(g, |rest|) == at + L1Clusters(g, |l|) <= |disk| && at <= c
        invariant Abs() == old(Abs()).(disk := Abs().disk)
        invariant target == StoreL1(g, Abs().disk, c, rest)
        decreases |rest|
      {
        var n := Min(g.width, |rest|);
        StoreStep(g, Abs().disk, c, rest);
        PutBlock(c, L1(rest[..n]));
        rest := rest[n..];
        c := c + 1;
      }
      StoreStep(g, Abs().disk, c, rest);
    }

    // The loop of grow_l1_table that picks the new size
    method PickSize(size: nat, min: nat) returns (r: nat)
      requires size > 0
      ensures r == GrownSize(size, min)
    {
      r := size;
      while min > r
        invariant r > 0 && GrownSize(size, min) == GrownSize(r, min)
        decreases min - r
      {
        r := (r * 3 + 1) / 2;
      }
    }

    // grow_l1_table
    method GrowTable(min: nat) returns (ok: bool)
      requires BlocksValid() && Inv(Abs())
      modifies this`disk, this`table, this`block, this`blockAt, this`freeIdx, this`l1, this`l1At
      ensures BlocksValid()
      ensures ok <==> GrowL1(old(Abs()), min).Some?
      ensures ok ==> GrowL1(old(Abs()), min) == Some(Abs())
    {
      hide Inv, Alloc, UpdRun, StoreL1, L1Clusters, GrownSize, BlocksOk, CountMap, Erased, IsBlock;
      ghost var st := Abs();
      if min <= |l1| { return true; }
      // With an empty table the size would never grow.
      if |l1| == 0 { return false; }
      var size := PickSize(|l1|, min);
      var l := Padded(l1, size);
      InvSound(st);
      var n := L1Clusters(g, size);
      ClustersStep(g, size);
      var at := AllocClusters(n);
      if at.None? { return false; }
      ghost var st1 := Abs();
      TakenRun(st, n, st1, at.value);
      StoreTable(at.value, l);
      ok := UpdateRefcount(l1At, L1Clusters(g, |l1|), -1);
      if ok {
        l1 := l;
        l1At := at.value;
      }
    }

    // get_cluster_offset with allocate = 1 up to the L2 entry: room in the L1 table and an L2 table of our own.
    method OwnSlot(i: nat) returns (r: Option<nat>)
      requires Valid() && env.Lawful()
      modifies this
      ensures BlocksValid()
      ensures r.Some? <==> GrowL1(old(Abs()), i + 1).Some? && OwnL2(GrowL1(old(Abs()), i + 1).value, i).Some?
      ensures r.Some? ==> OwnL2(GrowL1(old(Abs()), i + 1).value, i) == Some(Abs()) && Valid()
      ensures r.Some? ==> r.value < SLOTS && i < |l1| && l1[i].Plain? && l1[i].copied && l2At[r.value] == l1[i].at
      ensures cacheAt == old(cacheAt) && cache == old(cache)
    {
      hide Inv, CacheOk, PackedOnce, InflatedOk, GrowL1, OwnL2, BlocksOk;
      ghost var st := Abs();
      var ok := GrowTable(i + 1);
      if !ok { return None; }
      ghost var st1 := Abs();
      GrowSafe(env, st, i + 1, st1, l2At, l2Count, l2Tab, cacheAt, cache);
      r := OwnTable(i);
      if r.Some? { OwnSafe(env, st1, i, Abs(), cacheAt, cache); }
    }

    // One turn of the qcow_write loop: get_cluster_offset and the data write
    method WritePart(i: nat, j: nat, lo: nat, buf: seq<Sector>) returns (ok: bool)
      requires Valid() && env.Lawful() && j < g.width && lo + |buf| <= g.spc
      modifies this
      ensures BlocksValid()
      ensures ok <==> WriteCluster(env, old(Abs()), i, j, lo, buf).Some?
      ensures ok ==> WriteCluster(env, old(Abs()), i, j, lo, buf) == Some(Abs()) && Valid()
    {
      hide Inv, CacheOk, PackedOnce, InflatedOk, GrowL1, OwnL2, BlocksOk, Prepare, WriteSlot, Sealed, PutSectors;
      ghost var st := Abs();
      var r := OwnSlot(i);
      if r.None? { return false; }
      ghost var st2 := Abs();
      var d := PrepareCluster(r.value, i, j, lo, lo + |buf|);
      PrepareFinish(env, st2, i, j, lo, buf);
      if d.None? { return false; }
      ghost var st3 := Abs();
      var sealed := SealSectors(i, j, lo, buf);
      PutData(d.value, lo, sealed);
      WriteSafe(env, st2, i, j, lo, buf, st3, d.value, Abs(), l2At, l2Count, l2Tab, cacheAt, cache);
      ok := true;
    }

    // qcow_write
    method Write(sn: nat, buf: seq<Sector>) returns (ok: bool)
      requires Valid() && env.Lawful()
      modifies this
      ensures BlocksValid()
      ensures ok <==> Run(env, old(Abs()), Chunks(g, sn, buf)).Some?
      ensures ok ==> Run(env, old(Abs()), Chunks(g, sn, buf)) == Some(Abs()) && Valid()
    {
      hide Inv, CacheOk, PackedOnce, InflatedOk, WriteCluster, BlocksOk, Run, Chunks, Step;
      ghost var target := Run(env, Abs(), Chunks(g, sn, buf));
      var k := 0;
      assert buf[0..] == buf;
      while k < |buf|
        invariant Valid() && 0 <= k <= |buf|
        invariant target == Run(env, Abs(), Chunks(g, sn + k, buf[k..]))
      {
        var n := ChunkLen(g, sn + k, |buf| - k);
        var vc := Row(g.spc, sn + k);
        RunChunks(env, Abs(), sn + k, buf[k..]);
        assert buf[k..][..n] == buf[k..k + n] && buf[k..][n..] == buf[k + n..];
        ok := WritePart(Row(g.width, vc), Col(g.width, vc), Col(g.spc, sn + k), buf[k..k + n]);
        if !ok { return; }
        k := k + n;
      }
      RunNone(env, Abs(), sn + k, buf[k..]);
      cacheAt := None;
      CacheDropped(env, Abs(), cache);
      ok := true;
    }

    // ----- qcow_write_compressed -----

    // bdrv_pwrite of a stream
    method PutStream(at: nat, z: seq<bv8>)
      requires BlocksValid() && L2Valid()
      requires forall x: nat :: ByteAlloc.Touches(g, ByteAlloc.Range(at, |z|), x) ==>
        x < |disk| && x !in l2At && !IsBlock(table, x)
      modifies this`disk
      ensures BlocksValid() && L2Valid() && Abs() == old(Abs()).(disk := HostBytes.PutBytes(g, old(Abs()).disk, at, z))
    {
      hide CacheOk, BlocksOk, CountMap, Erased, HostBytes.PutBytes, ByteAlloc.Touches;
      StoreBytes(g, disk, table, at, z);
      BytesOk(Abs(), l2At, l2Count, l2Tab, at, z);
      BlockKept(g, disk, table, at, z, blockAt);
      disk := HostBytes.PutBytes(g, disk, at, z);
    }

    // get_cluster_offset with allocate = 2 on an unallocated word whose table is in slot r, and the write of the stream
    method PackCluster(r: nat, i: nat, j: nat, z: seq<bv8>, ghost deflate: Conversion.Deflate,
                       ghost reg: seq<Conversion.Packet>) returns (ok: bool)
      requires BlocksValid() && L2Valid() && Inv(Abs()) && Conversion.Packs(deflate, Abs(), reg) && 0 < |z| <= g.bytes
      requires r < SLOTS && i < |l1| && l1[i].Plain? && l2At[r] == l1[i].at && j < g.width
      requires L2Word(Abs().disk, l1[i], j).Zero?
      modifies this`disk, this`table, this`block, this`blockAt, this`freeIdx, this`freeByte, this`l2Tab
      ensures BlocksValid()
      ensures ok <==> Packing.PackSlot(old(Abs()), i, j, z).Some?
      ensures ok ==> Packing.PackSlot(old(Abs()), i, j, z) == Some(Abs()) && L2Valid()
    {
      hide Inv, CacheOk, BlocksOk, CountMap, Erased, ByteAlloc.AllocBytes, ByteAlloc.Added, ByteAlloc.Handed;
      hide ByteAlloc.Touches, Conversion.Packs, HostBytes.PutBytes, Img.Sound, IsBlock, TablesKept;
      ghost var st := Abs();
      SlotAlive(st, i);
      InvSound(st);
      ghost var rs := Conversion.Ranges(deflate, reg);
      Conversion.PacksHanded(deflate, st, reg);
      var at, redos := AllocBytes(|z|);
      if at.None? { return false; }
      ghost var st1 := Abs();
      ghost var range := ByteAlloc.Range(at.value, |z|);
      ByteAlloc.AllocBytesSpec(st, rs, |z|, st1, at.value);
      ByteAlloc.AddedGeo(st, st1, range);
      AddedTables(st, st1, range);
      forall x: nat | ByteAlloc.Touches(g, range, x) ensures x < |st1.disk| && x !in l2At && !IsBlock(st1.table, x) {
        StreamApart(deflate, st, reg, st1, range, l2At, l2Count, l2Tab, x);
      }
      TableHeld(st, st1, l2At, l2Count, l2Tab, r);
      KeptOk(st, st1, l2At, l2Count, l2Tab);
      LinkWord(r, j, HostBytes.PackedAt(at.value, |z|));
      PutStream(at.value, z);
      ok := true;
    }

    // The compressed branch of qcow_write_compressed.
    method PackWhole(deflate: Conversion.Deflate, vc: nat, data: seq<Sector>, ghost reg: seq<Conversion.Packet>)
      returns (ok: bool, ghost p: Conversion.Packet)
      requires Valid() && env.Lawful() && Conversion.Zlib(env, deflate) && Conversion.Packs(deflate, Abs(), reg)
      requires |data| == g.spc && 0 < |deflate(data)| < g.bytes && PackCache.CacheKnown(reg, cacheAt)
      requires L2Word(Abs().disk, SlotAt(l1, Row(g.width, vc)), Col(g.width, vc)).Zero?
      modifies this
      ensures BlocksValid()
      ensures ok <==> Conversion.Compress(env, deflate, old(Abs()), vc, data).Some?
      ensures ok ==> Conversion.Compress(env, deflate, old(Abs()), vc, data) == Some(Abs()) && Valid()
      ensures ok ==> Conversion.Packs(deflate, Abs(), reg + [p]) && PackCache.CacheKnown(reg + [p], cacheAt)
    {
      hide Inv, CacheOk, BlocksOk, CountMap, Erased, PackedOnce, InflatedOk, GrowL1, OwnL2, Packing.PackSlot;
      hide Packing.Linked;
      hide Conversion.Packs, Conversion.Zlib, PackCache.CacheKnown, Row, Col, WriteCluster, SameView;
      ghost var st := Abs();
      p := Conversion.Packet(0, 0, 0, []);
      var i, j := Row(g.width, vc), Col(g.width, vc);
      var z := deflate(data);
      var r := OwnSlot(i);
      if r.None? { return false, p; }
      ghost var st2 := Abs();
      Conversion.OwnSlotLeft(env, deflate, st, reg, i, GrowL1(st, i + 1).value, st2);
      ok := PackCluster(r.value, i, j, z, deflate, reg);
      if ok {
        p := Conversion.PackFiles(deflate, st2, reg, i, j, data, Abs());
        Conversion.LinkedGeo(st2, Abs(), i, j, HostBytes.PackedAt(p.at, |z|));
        PackCache.PacksOnce(deflate, Abs(), reg + [p]);
        PackCache.KnownStays(env, deflate, st2, reg, Abs(), p, cacheAt, cache);
      }
    }

    // qcow_write_compressed of cluster vc, which this model covers while the cluster is unallocated
    method WriteCompressed(deflate: Conversion.Deflate, vc: nat, data: seq<Sector>, ghost reg: seq<Conversion.Packet>)
      returns (ok: bool, ghost reg': seq<Conversion.Packet>)
      requires Valid() && env.Lawful() && Conversion.Zlib(env, deflate) && Conversion.Packs(deflate, Abs(), reg)
      requires |data| == g.spc && PackCache.CacheKnown(reg, cacheAt)
      modifies this
      ensures BlocksValid()
      ensures ok <==> Conversion.Compress(env, deflate, old(Abs()), vc, data).Some?
      ensures ok ==> Conversion.Compress(env, deflate, old(Abs()), vc, data) == Some(Abs()) && Valid()
      ensures ok ==> Conversion.Packs(deflate, Abs(), reg') && PackCache.CacheKnown(reg', cacheAt)
    {
      hide Inv, CacheOk, BlocksOk, CountMap, Erased, PackedOnce, InflatedOk, GrowL1, OwnL2, Packing.PackSlot;
      hide WriteCluster;
      hide Conversion.Packs, Conversion.Zlib, Row, Col, Written;
      ghost var st := Abs();
      reg' := reg;
      var i, j := Row(g.width, vc), Col(g.width, vc);
      SlotAlive(st, i);
      var w := Lookup(i, j);
      if !w.Zero? { return false, reg; }
      Conversion.NeverEmpty(env, deflate, data);
      if |deflate(data)| < g.bytes {
        ghost var p;
        ok, p := PackWhole(deflate, vc, data, reg);
        reg' := reg + [p];
      } else {
        // It does not get smaller: an ordinary write, which drops the cluster cache.
        ok := WritePart(i, j, 0, data);
        if ok {
          Conversion.PlainCorrect(env, deflate, st, reg, i, j, data, Abs());
          cacheAt := None;
          CacheDropped(env, Abs(), cache);
        }
      }
    }

    // ----- update_snapshot_refcount -----

    // Add `a` to a count, or only look it up.
    method AdjustCount(c: nat, a: int) returns (r: Option<nat>)
      requires BlocksValid() && -1 <= a <= 1 && (a == 1 ==> Abs().HasBlock(c))
      modifies this`disk, this`table, this`block, this`blockAt, this`freeIdx
      ensures BlocksValid()
      ensures r.Some? <==> Adjust(old(Abs()), c, a).Some?
      ensures r.Some? ==> Adjust(old(Abs()), c, a) == Some(Abs()) && r.value == RcOf(Abs().rc, c)
    {
      hide Upd;
      if a != 0 {
        r := UpdateClusterRefcount(c, a);
      } else {
        var n := GetRefcount(c);
        r := Some(n);
      }
    }

    // One L2 entry
    method WalkWord(e: Entry, a: int) returns (r: Option<Entry>)
      requires BlocksValid() && -1 <= a <= 1 && EntryCovered(Abs(), e)
      modifies this`disk, this`table, this`block, this`blockAt, this`freeIdx
      ensures BlocksValid()
      ensures r.Some? <==> WalkEntry(old(Abs()), e, a).Some?
      ensures r.Some? ==> WalkEntry(old(Abs()), e, a) == Some((Abs(), r.value))
    {
      hide Upd, UpdRun, Adjust;
      match e
      case Zero => r := Some(Zero);
      case Plain(at, _) =>
        CoveredPlain(Abs(), e);
        var n := AdjustCount(at, a);
        r := if n.Some? then Some(Plain(at, n.value == 1)) else None;
      case Packed(_, _, _) =>
        if e.nb > 0 { PastFirst(g, e); }
        CoveredPacked(Abs(), e);
        var ok := true;
        if a != 0 { ok := UpdateRefcount(First(g, e), Past(g, e) - First(g, e), a); }
        // Compressed clusters never carry the flag.
        r := if ok then Some(e) else None;
    }

    // The inner loop over one L2 table
    method WalkTable(was: seq<Entry>, a: int) returns (r: Option<seq<Entry>>)
      requires BlocksValid() && -1 <= a <= 1 && EntsCovered(Abs(), was)
      modifies this`disk, this`table, this`block, this`blockAt, this`freeIdx
      ensures BlocksValid()
      ensures r.Some? <==> WalkL2(old(Abs()), was, 0, a).Some?
      ensures r.Some? ==> WalkL2(old(Abs()), was, 0, a) == Some((Abs(), r.value))
      ensures r.Some? ==> Abs().disk == old(Abs()).disk && Abs().table == old(Abs()).table
    {
      hide WalkEntry, WalkL2, EntsCovered, BlocksOk;
      ghost var target := WalkL2(Abs(), was, 0, a);
      var ents := was;
      var j := 0;
      while j < |ents|
        invariant BlocksValid() && 0 <= j <= |ents| && EntsCovered(Abs(), ents)
        invariant Abs().disk == old(Abs()).disk && Abs().table == old(Abs()).table
        invariant target == WalkL2(Abs(), ents, j, a)
      {
        ghost var st := Abs();
        WalkL2Unfold(st, ents, j, a);
        CoveredEntry(st, ents, j);
        var e := WalkWord(ents[j], a);
        if e.None? { return None; }
        WalkedEntry(st, ents, j, a, Abs(), e.value);
        ents := ents[j := e.value];
        j := j + 1;
      }
      WalkL2Unfold(Abs(), ents, j, a);
      r := Some(ents);
    }

    // One L1 entry: its L2 table, rewritten if a flag changed, then the table's own count
    method WalkLink(e: Entry, a: int) returns (r: Option<Entry>)
      requires BlocksValid() && -1 <= a <= 1 && SlotTyped(g, Abs().disk, e) && SlotCovered(Abs(), e)
      modifies this`disk, this`table, this`block, this`blockAt, this`freeIdx
      ensures BlocksValid()
      ensures r.Some? <==> WalkSlot(old(Abs()), e, a).Some?
      ensures r.Some? ==> WalkSlot(old(Abs()), e, a) == Some((Abs(), r.value))
    {
      hide WalkL2, Adjust, BlocksOk, EntsCovered, SlotCovered, EntryTyped;
      if e.Zero? { return Some(Zero); }
      var at := e.at;
      var was := disk[at].ents;
      ghost var st := Abs();
      CoveredSlot(st, e);
      var ents := WalkTable(was, a);
      if ents.None? { return None; }
      ghost var st1 := Abs();
      if ents.value != was {
        BlockTag(g, disk, table, at);
        PutBlock(at, L2(ents.value));
      }
      assert Abs() == st1.(disk := SetBlock(st1.disk, at, L2(ents.value)));
      var n := AdjustCount(at, a);
      r := if n.Some? then Some(Plain(at, n.value == 1)) else None;
    }

    // update_snapshot_refcount on the L1 table l stored at `at`; the L2 cache is emptied first.
    method UpdateSnapshotRefcount(at: nat, was: seq<Entry>, a: int) returns (r: Option<seq<Entry>>)
      requires BlocksValid() && -1 <= a <= 1 && Walkable(Abs(), at, was)
      modifies this`disk, this`table, this`block, this`blockAt, this`freeIdx, this`l2At, this`l2Count, this`l2Tab
      ensures BlocksValid() && EmptySlots(l2At, l2Count, l2Tab)
      ensures r.Some? <==> WalkL1(old(Abs()), was, 0, a).Some?
      ensures r.Some? ==> |r.value| == |was| && WalkL1(old(Abs()), was, 0, a).value.1 == r.value
      ensures r.Some? ==> Abs() == WriteBack(WalkL1(old(Abs()), was, 0, a).value.0, at, was, r.value)
    {
      hide WalkSlot, WalkL1, TreeOk, TreeCovered, BlocksOk, StoreL1, Stored;
      L2CacheReset();
      ghost var st := Abs();
      ghost var target := WalkL1(st, was, 0, a);
      var l := was;
      var i := 0;
      while i < |l|
        invariant BlocksValid() && 0 <= i <= |l| == |was| && EmptySlots(l2At, l2Count, l2Tab)
        invariant TreeOk(g, Abs().disk, l) && TreeCovered(Abs(), l)
        invariant target == WalkL1(Abs(), l, i, a)
      {
        ghost var st1 := Abs();
        WalkL1Unfold(st1, l, i, a);
        TreeSlot(st1, l, i);
        var e := WalkLink(l[i], a);
        if e.None? { return None; }
        StepTree(st1, l, i, a, Abs(), e.value);
        l := l[i := e.value];
        i := i + 1;
      }
      WalkL1Unfold(Abs(), l, i, a);
      WalkedRun(st, at, was, a, Abs(), l);
      if l != was {
        forall x: nat | at <= x < at + L1Clusters(g, |l|) ensures !IsBlock(table, x) { BlockTag(g, disk, table, x); }
        StoreTable(at, l);
      }
      r := Some(l);
    }

    // update_snapshot_refcount on the active table
    method WalkCurrent(a: int) returns (ok: bool)
      requires BlocksValid() && -1 <= a <= 1 && Walkable(Abs(), l1At, l1)
      modifies this`disk, this`table, this`block, this`blockAt, this`freeIdx, this`l1, this`l2At, this`l2Count
      modifies this`l2Tab
      ensures BlocksValid() && EmptySlots(l2At, l2Count, l2Tab)
      ensures ok <==> WalkActive(old(Abs()), a).Some?
      ensures ok ==> WalkActive(old(Abs()), a) == Some(Abs())
    {
      hide WalkL1, Walkable, BlocksOk, StoreL1;
      var l := UpdateSnapshotRefcount(l1At, l1, a);
      ok := l.Some?;
      if ok { l1 := l.value; }
    }

    // ----- snapshots -----

    // Read an L1 table from disk.
    method ReadTable(at: nat, size: nat) returns (l: seq<Entry>)
      ensures l == ReadL1(g, Abs().disk, at, size)
    {
      l := [];
      while |l| < size
        invariant |l| <= size && forall i: nat :: i < |l| ==> l[i] == L1Word(g, Abs().disk, at, i)
      {
        l := l + [L1Word(g, disk, at, |l|)];
      }
    }

    // The sizing pass of qcow_write_snapshots
    method SizeTable() returns (size: nat)
      ensures size == TableSize(snaps, |snaps|)
    {
      size := 0;
      var i := 0;
      while i < |snaps|
        invariant 0 <= i <= |snaps| && size == TableSize(snaps, i)
      {
        size := Align8(size) + HEADER_SIZE + |snaps[i].info.id| + |snaps[i].info.name|;
        i := i + 1;
      }
    }

    // Fill clusters with bytes the model does not look at.
    method FillClusters(at: nat, n: nat)
      requires BlocksValid() && at + n <= |disk| && forall x: nat :: at <= x < at + n ==> !IsBlock(table, x)
      modifies this`disk
      ensures BlocksValid() && Abs() == old(Abs()).(disk := FillRun(old(Abs()).disk, at, n))
    {
      ghost var d := Abs().disk;
      var k := 0;
      while k < n
        invariant BlocksValid() && 0 <= k <= n && |disk| == |d|
        invariant Abs() == old(Abs()).(disk := Abs().disk)
        invariant Abs().disk == FillRun(d, at, k)
      {
        PutBlock(at + k, Other);
        k := k + 1;
        assert Abs().disk == FillRun(d, at, k);
      }
    }

    // qcow_write_snapshots
    method WriteSnapshots() returns (ok: bool)
      requires BlocksValid() && Inv(Abs())
      modifies this`disk, this`table, this`block, this`blockAt, this`freeIdx, this`snapsAt, this`snapsSize
      ensures BlocksValid()
      ensures ok <==> WriteSnaps(old(Abs())).Some?
      ensures ok ==> WriteSnaps(old(Abs())) == Some(Abs())
    {
      hide Inv, Alloc, UpdRun, FillRun, BlocksOk, SnapClusters, TableSize;
      ghost var st := Abs();
      var size := SizeTable();
      var n := SnapClusters(g, size);
      InvSound(st);
      var at := AllocClusters(n);
      if at.None? { return false; }
      if n > 0 {
        TakenRun(st, n, Abs(), at.value);
        FillClusters(at.value, n);
      } else {
        TakenNothing(st, Abs(), at.value);
      }
      ok := UpdateRefcount(snapsAt, SnapClusters(g, snapsSize), -1);
      if ok {
        snapsAt := at.value;
        snapsSize := size;
      }
    }

    // find_snapshot_by_id
    method FindById(key: string) returns (r: Option<nat>)
      ensures r == FindId(Infos(snaps), key, 0)
    {
      var i := 0;
      while i < |snaps|
        invariant 0 <= i <= |snaps| && FindId(Infos(snaps), key, 0) == FindId(Infos(snaps), key, i)
      {
        if snaps[i].info.id == key { return Some(i); }
        i := i + 1;
      }
      r := None;
    }

    // find_snapshot_by_id_or_name
    method FindByIdOrName(key: string) returns (r: Option<nat>)
      ensures r == Find(Infos(snaps), key)
    {
      r := FindById(key);
      if r.Some? { return; }
      var i := 0;
      while i < |snaps|
        invariant 0 <= i <= |snaps| && FindName(Infos(snaps), key, 0) == FindName(Infos(snaps), key, i)
      {
        if snaps[i].info.name == key { return Some(i); }
        i := i + 1;
      }
      r := None;
    }

    // qcow_snapshot_create up to rewriting the snapshot table
    method SaveActive(info: Info) returns (ok: bool)
      requires BlocksValid() && Inv(Abs())
      modifies this`disk, this`table, this`block, this`blockAt, this`freeIdx, this`l1, this`l2At, this`l2Count
      modifies this`l2Tab, this`snaps
      ensures BlocksValid() && EmptySlots(l2At, l2Count, l2Tab)
      ensures ok <==> AddSnap(old(Abs()), info).Some?
      ensures ok ==> AddSnap(old(Abs()), info) == Some(Abs())
    {
      hide Inv, Alloc, WalkActive, StoreL1, BlocksOk, L1Clusters, Walkable, EmptySlots;
      ghost var st := Abs();
      InvWalkable(st);
      ok := WalkCurrent(1);
      if !ok { return; }
      ghost var st1 := Abs();
      WalkedSound(st, st1);
      var n := L1Clusters(g, |l1|);
      var at := AllocClusters(n);
      if at.None? { return false; }
      if |l1| > 0 {
        ClustersStep(g, |l1|);
        TakenRun(st1, n, Abs(), at.value);
        StoreTable(at.value, l1);
      } else {
        NoTable(g, st1, Abs(), at.value);
      }
      snaps := snaps + [Snapshot(at.value, |l1|, info)];
    }

    // find_new_snapshot_id
    method FindNewId() returns (id: string)
      ensures id == NewId(Infos(snaps))
    {
      ghost var infos := Infos(snaps);
      var max, i := 0, 0;
      while i < |snaps|
        invariant 0 <= i <= |snaps| && max == MaxId(infos, i)
      {
        var n := ToInt(StrToUl(snaps[i].info.id));
        if n > max { max := n; }
        i := i + 1;
      }
      id := Print(ToInt(max + 1));
    }

    // Save the active tree under the given id and rewrite the snapshot table.
    method AddSnapshot(info: Info) returns (ok: bool)
      requires Valid()
      modifies this
      ensures BlocksValid()
      ensures ok <==> Create(old(Abs()), info).Some?
      ensures ok ==> Create(old(Abs()), info) == Some(Abs()) && Valid()
    {
      hide Inv, AddSnap, WriteSnaps, BlocksOk, CountMap, Erased, PackedOnce, InflatedOk, CacheOk, EmptySlots;
      ghost var st := Abs();
      ok := SaveActive(info);
      if !ok { return; }
      ghost var st1 := Abs();
      AddSnapCorrect(env, st, info, st1);
      ok := WriteSnapshots();
      if !ok { return; }
      WriteSnapsCorrect(env, st1, Abs());
      EmptyOk(Abs(), l2At, l2Count, l2Tab);
      CreatePacked(env, st, info, Abs());
      PackedKeptOnce(st, Abs());
      InflatedKept(env, st, Abs(), cacheAt, cache);
    }

    // qcow_snapshot_create
    method SnapshotCreate(info: Info) returns (r: Reply)
      requires Valid()
      modifies this
      ensures BlocksValid()
      ensures r.Refused? <==> FindId(Infos(old(snaps)), Named(Infos(old(snaps)), info).id, 0).Some?
      ensures r.Stuck? <==> Step(env, old(Abs()), CreateOp(info)).None?
      ensures !r.Stuck? ==> Step(env, old(Abs()), CreateOp(info)) == Some(Abs()) && Valid()
    {
      hide Inv, Create, BlocksOk, CountMap, Erased, PackedOnce, InflatedOk, CacheOk, FindId, NewId;
      var info1 := info;
      if info.id == "" {
        var id := FindNewId();
        info1 := info.(id := id);
      }
      var taken := FindById(info1.id);
      if taken.Some? { return Refused; }
      var ok := AddSnapshot(info1);
      r := if ok then Done else Stuck;
    }

    // The middle of qcow_snapshot_goto: the saved L1 table becomes the active one.
    method LoadTable(q: nat, ghost st: Img)
      requires BlocksValid() && Inv(st) && Unlinked(st, Abs()) && q < |snaps| && snaps[q].l1Size == |l1|
      modifies this`l1, this`disk
      ensures BlocksValid() && Abs() == LoadSnap(old(Abs()), q)
    {
      hide Inv, StoreL1, BlocksOk, ReadL1;
      var l := ReadTable(snaps[q].l1At, snaps[q].l1Size);
      LoadRun(st, Abs());
      if |l| > 0 {
        forall x: nat | l1At <= x < l1At + L1Clusters(g, |l|)
          ensures !IsBlock(table, x)
        {
          BlockTag(g, disk, table, x);
        }
        StoreTable(l1At, l);
      } else {
        StoreStep(g, Abs().disk, l1At, l);
      }
      l1 := l;
    }

    // Drop the references of the active tree, load the table of snapshot q and count its references.
    method SwitchTree(q: nat) returns (ok: bool)
      requires BlocksValid() && Inv(Abs()) && q < |snaps| && snaps[q].l1Size == |l1|
      modifies this`disk, this`table, this`block, this`blockAt, this`freeIdx, this`l1, this`l2At, this`l2Count
      modifies this`l2Tab
      ensures BlocksValid() && EmptySlots(l2At, l2Count, l2Tab)
      ensures ok <==> GotoSnap(old(Abs()), q).Some?
      ensures ok ==> GotoSnap(old(Abs()), q) == Some(Abs())
    {
      hide Inv, WalkActive, LoadSnap, BlocksOk, CountMap, Erased, EmptySlots, Unlinked, Walkable;
      ghost var st := Abs();
      InvWalkable(st);
      ok := WalkCurrent(-1);
      if !ok { return; }
      ghost var st1 := Abs();
      UnlinkSpec(st, st1);
      UnlinkedParts(st, st1);
      LoadTable(q, st);
      LoadWalkable(st, st1, q);
      ok := WalkCurrent(1);
    }

    // qcow_snapshot_goto between tables of equal size
    method SnapshotGoto(key: string) returns (r: Reply)
      requires Valid() && env.Lawful()
      modifies this
      ensures BlocksValid()
      ensures r.Refused? <==> Find(Infos(old(snaps)), key).None?
      ensures r.Stuck? <==> Step(env, old(Abs()), GotoOp(key)).None?
      ensures !r.Stuck? ==> Step(env, old(Abs()), GotoOp(key)) == Some(Abs()) && Valid()
    {
      hide Inv, WalkActive, BlocksOk, CountMap, Erased, PackedOnce, InflatedOk, CacheOk, EmptySlots, Find;
      ghost var st := Abs();
      var q := FindByIdOrName(key);
      if q.None? { return Refused; }
      if snaps[q.value].l1Size != |l1| { return Stuck; }
      var ok := SwitchTree(q.value);
      if !ok { return Stuck; }
      EmptyOk(Abs(), l2At, l2Count, l2Tab);
      GotoSafe(env, st, q.value, Abs(), cacheAt, cache);
      r := Done;
    }

    // Drop the references of snapshot q.
    method WalkSaved(q: nat) returns (ok: bool)
      requires BlocksValid() && Inv(Abs()) && q < |snaps|
      modifies this`disk, this`table, this`block, this`blockAt, this`freeIdx, this`l2At, this`l2Count, this`l2Tab
      ensures BlocksValid() && EmptySlots(l2At, l2Count, l2Tab)
      ensures ok <==> WalkSnap(old(Abs()), q, -1).Some?
      ensures ok ==> WalkSnap(old(Abs()), q, -1) == Some(Abs())
    {
      hide Inv, WalkL1, StoreL1, BlocksOk, CountMap, Erased, EmptySlots, Walkable, ReadL1;
      SnapWalkable(Abs(), q);
      var l := ReadTable(snaps[q].l1At, snaps[q].l1Size);
      var l' := UpdateSnapshotRefcount(snaps[q].l1At, l, -1);
      ok := l'.Some?;
    }

    // qcow_snapshot_delete up to rewriting the snapshot table
    method ForgetSnapshot(q: nat) returns (ok: bool)
      requires BlocksValid() && Inv(Abs()) && q < |snaps|
      modifies this`disk, this`table, this`block, this`blockAt, this`freeIdx, this`l1, this`l2At, this`l2Count
      modifies this`l2Tab, this`snaps
      ensures BlocksValid() && EmptySlots(l2At, l2Count, l2Tab)
      ensures ok <==> DropSnap(old(Abs()), q).Some?
      ensures ok ==> DropSnap(old(Abs()), q) == Some(Abs())
    {
      hide Inv, WalkActive, WalkSnap, BlocksOk, CountMap, Erased, EmptySlots, Walkable, Unsaved, UpdRun, L1Clusters;
      ghost var st := Abs();
      var s := snaps[q];
      ok := WalkSaved(q);
      if !ok { return; }
      ghost var st1 := Abs();
      UnsaveSpec(st, q, st1);
      UnsavedWalkable(st, q, st1);
      ok := WalkCurrent(0);
      if !ok { return; }
      ok := UpdateRefcount(s.l1At, L1Clusters(g, s.l1Size), -1);
      if !ok { return; }
      snaps := snaps[..q] + snaps[q + 1..];
    }

    // Drop snapshot q and rewrite the snapshot table.
    method RemoveSnapshot(q: nat) returns (ok: bool)
      requires Valid() && q < |snaps|
      modifies this
      ensures BlocksValid()
      ensures ok <==> Delete(old(Abs()), q).Some?
      ensures ok ==> Delete(old(Abs()), q) == Some(Abs()) && Valid()
    {
      hide Inv, DropSnap, WriteSnaps, BlocksOk, CountMap, Erased, PackedOnce, InflatedOk, CacheOk, EmptySlots;
      ghost var st := Abs();
      ok := ForgetSnapshot(q);
      if !ok { return; }
      ghost var st1 := Abs();
      DropCorrect(env, st, q, st1);
      ok := WriteSnapshots();
      if !ok { return; }
      WriteSnapsCorrect(env, st1, Abs());
      EmptyOk(Abs(), l2At, l2Count, l2Tab);
      DeletePacked(env, st, q, Abs());
      PackedKeptOnce(st, Abs());
      InflatedKept(env, st, Abs(), cacheAt, cache);
    }

    // qcow_snapshot_delete
    method SnapshotDelete(key: string) returns (r: Reply)
      requires Valid()
      modifies this
      ensures BlocksValid()
      ensures r.Refused? <==> Find(Infos(old(snaps)), key).None?
      ensures r.Stuck? <==> Step(env, old(Abs()), DeleteOp(key)).None?
      ensures !r.Stuck? ==> Step(env, old(Abs()), DeleteOp(key)) == Some(Abs()) && Valid()
    {
      hide Inv, Delete, BlocksOk, CountMap, Erased, PackedOnce, InflatedOk, CacheOk, Find;
      var q := FindByIdOrName(key);
      if q.None? { return Refused; }
      var ok := RemoveSnapshot(q.value);
      r := if ok then Done else Stuck;
    }
  }
}

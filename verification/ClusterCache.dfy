// Reading guest data: the cache of the last decompressed cluster, and the cluster that a write prepares
// by copying old data into it while the old storage may already be reused.

module ClusterCache {
  import opened Basics
  import opened Layout
  import opened Refcounts
  import opened Invariant
  import opened GuestWrite
  import opened DataWrite
  import opened L2Cache
  import opened Compressed

  // The byte offset of a compressed cluster: sector and offset within it.
  type Place = (nat, nat)

  function PlaceOf(e: Entry): Place
    requires e.Packed?
  {
    (e.sec, e.off)
  }

  function Inflated(env: Env, g: Geo, disk: Disk, e: Entry): (r: seq<Sector>)
    requires e.Packed?
    ensures |r| == g.spc
    ensures forall k: nat :: k < g.spc ==> r[k] == env.inflate(Stream(g, disk, e), e.off, k)
  {
    seq<Sector>(g.spc, k requires 0 <= k < g.spc => env.inflate(Stream(g, disk, e), e.off, k))
  }

  // A filled cluster cache holds the data of every reachable compressed cluster at its place.
  ghost predicate InflatedOk(env: Env, st: Img, at: Option<Place>, cache: seq<Sector>)
  {
    at.Some? ==> |cache| == st.g.spc && forall e: Entry :: Reaches(st, e) && PlaceOf(e) == at.value ==>
      cache == Inflated(env, st.g, st.disk, e)
  }

  lemma InflatedKept(env: Env, st: Img, st': Img, at: Option<Place>, cache: seq<Sector>)
    requires InflatedOk(env, st, at, cache) && PackedKept(st, st')
    ensures InflatedOk(env, st', at, cache)
  {
    if at.Some? {
      forall e: Entry | Reaches(st', e) && PlaceOf(e) == at.value ensures cache == Inflated(env, st'.g, st'.disk, e) {
        assert Reaches(st, e);
      }
    }
  }

  lemma InflatedLoad(env: Env, st: Img, e: Entry)
    requires PackedOnce(st) && Reaches(st, e)
    ensures InflatedOk(env, st, Some(PlaceOf(e)), Inflated(env, st.g, st.disk, e))
  {
  }

  // Sector k of the cluster an L2 entry describes, as a read with this cluster cache returns it.
  function Seen(env: Env, g: Geo, disk: Disk, at: Option<Place>, cache: seq<Sector>, e: Entry, sn: nat, k: nat): Sector
  {
    if e.Packed? && at == Some(PlaceOf(e)) && k < |cache| then cache[k] else EntryView(env, g, disk, e, sn, k)
  }

  // Reading cluster (i, j) through the cache gives `view`.
  ghost predicate Reads(env: Env, g: Geo, disk: Disk, at: Option<Place>, cache: seq<Sector>, e: Entry, i: nat, j: nat,
                        view: seq<Sector>)
  {
    |view| == g.spc && forall k: nat :: k < g.spc ==>
      Seen(env, g, disk, at, cache, e, SectorNum(g, i, j, k), k) == view[k]
  }

  // The guest data of cluster (i, j).
  function OldData(env: Env, st: Img, i: nat, j: nat): (r: seq<Sector>)
    ensures |r| == st.g.spc && forall k: nat :: k < st.g.spc ==> r[k] == View(env, st, i, j, k)
  {
    seq<Sector>(st.g.spc, k requires 0 <= k < st.g.spc => View(env, st, i, j, k))
  }

  // With a coherent cache every read returns the guest's data.
  lemma CacheReads(env: Env, st: Img, at: Option<Place>, cache: seq<Sector>, i: nat, j: nat)
    requires InflatedOk(env, st, at, cache)
    ensures Reads(env, st.g, st.disk, at, cache, L2Word(st.disk, SlotAt(st.l1, i), j), i, j, OldData(env, st, i, j))
  {
    var e := L2Word(st.disk, SlotAt(st.l1, i), j);
    if e.Packed? && at == Some(PlaceOf(e)) {
      assert InTree(st.disk, st.l1, e);
      assert Reaches(st, e);
    }
  }

  // The same read still works once the storage of a shared or compressed entry was freed and a fresh
  // cluster allocated, as long as nothing has been written to it.
  lemma MidReads(env: Env, st: Img, st2: Img, d2: Disk, at: Option<Place>, cache: seq<Sector>, i: nat, j: nat)
    requires Inv(st) && i < |st.l1| && InflatedOk(env, st, at, cache) && st2.g == st.g && st2.l1 == st.l1
    requires |d2| == |st.disk|
    requires forall x: nat :: x < |st.disk| && d2[x] != st.disk[x] ==> Quiet(st, x)
    ensures L2Word(d2, st.l1[i], j) == L2Word(st.disk, st.l1[i], j)
    ensures Reads(env, st.g, d2, at, cache, L2Word(st.disk, st.l1[i], j), i, j, OldData(env, st, i, j))
  {
    var e := L2Word(st.disk, st.l1[i], j);
    CacheReads(env, st, at, cache, i, j);
    assert SlotTyped(st.g, st.disk, st.l1[i]);
    if st.l1[i].Plain? { WordRefs(st, i, j, st.l1[i].at); }
    forall x: nat | x < |st.disk| && EntryRefs(st.g, e, x) > 0
      ensures Same(st.disk[x], d2[x])
    {
      WordRefs(st, i, j, x);
    }
    forall k: nat | k < st.g.spc
      ensures Seen(env, st.g, d2, at, cache, e, SectorNum(st.g, i, j, k), k) == View(env, st, i, j, k)
    {
      EntryViewFrame(env, st.g, st.disk, d2, e, e, SectorNum(st.g, i, j, k), k);
    }
  }

  // ----- storing sectors -----

  function PutSectors(g: Geo, disk: Disk, x: nat, lo: nat, buf: seq<Sector>): (d: Disk)
    ensures |d| == |disk|
  {
    SetBlock(disk, x, Data(Patched(if x < |disk| then Raw(g, disk[x]) else [], lo, buf)))
  }

  // After part of the new cluster was written, the old data is still what a read returns: an uncompressed
  // entry lives elsewhere, and a compressed one has been read into the cache.
  lemma ReadsAfterPut(env: Env, g: Geo, d2: Disk, x: nat, lo: nat, buf: seq<Sector>, at: Option<Place>,
                      cache: seq<Sector>, e: Entry, i: nat, j: nat, view: seq<Sector>)
    requires Reads(env, g, d2, at, cache, e, i, j, view)
    requires e.Plain? ==> e.at != x
    requires e.Packed? ==> at == Some(PlaceOf(e)) && |cache| == g.spc
    ensures Reads(env, g, PutSectors(g, d2, x, lo, buf), at, cache, e, i, j, view)
  {
  }

  // ----- preparing a cluster for a write to sectors [lo, hi) -----

  function Old(env: Env, st: Img, i: nat, j: nat, k: nat): Sector
  {
    env.enc(SectorNum(st.g, i, j, k), View(env, st, i, j, k))
  }

  // The old data outside [lo, hi), whatever was there inside.
  function Prepared(env: Env, st: Img, was: seq<Sector>, i: nat, j: nat, lo: nat, hi: nat): (r: seq<Sector>)
    requires |was| == st.g.spc
    ensures |r| == st.g.spc
    ensures forall k: nat :: k < |r| ==> r[k] == if lo <= k < hi then was[k] else Old(env, st, i, j, k)
  {
    seq<Sector>(st.g.spc, k requires 0 <= k < st.g.spc => if lo <= k < hi then was[k] else Old(env, st, i, j, k))
  }

  // Nothing is copied when the whole cluster is about to be written.
  function Copied(env: Env, st: Img, disk: Disk, d: nat, i: nat, j: nat, lo: nat, hi: nat): (r: Disk)
    requires d < |disk|
    ensures |r| == |disk| && forall x: nat :: x < |disk| && x != d ==> r[x] == disk[x]
  {
    if hi - lo < st.g.spc then SetBlock(disk, d, Data(Prepared(env, st, Raw(st.g, disk[d]), i, j, lo, hi))) else disk
  }

  // get_cluster_offset with allocate = 1, from the L2 entry on
  function Prepare(env: Env, st: Img, i: nat, j: nat, lo: nat, hi: nat): Option<(Img, nat)>
  {
    if i >= |st.l1| || !st.l1[i].Plain? || j >= |Ents(st.disk, st.l1[i].at)| then None
    else
      var t := st.l1[i].at;
      var e := Ents(st.disk, t)[j];
      if e.Plain? && e.copied then Some((st, e.at))
      else
        var st1 :- FreeEntry(st, e);
        var (st2, d) :- Alloc(st1, 1);
        if d >= |st2.disk| || st2.g != st.g then None
        else Some((st2.(disk := SetBlock(Copied(env, st, st2.disk, d, i, j, lo, hi), t,
                                         L2(Ents(st.disk, t)[j := Plain(d, true)]))), d))
  }

  function Finish(env: Env, r: Option<(Img, nat)>, i: nat, j: nat, lo: nat, buf: seq<Sector>): Option<Img>
  {
    var (st, d) :- r;
    Some(st.(disk := PutSectors(st.g, st.disk, d, lo, Sealed(env, st.g, i, j, lo, buf))))
  }

  lemma FinishContent(env: Env, st: Img, was: seq<Sector>, i: nat, j: nat, lo: nat, buf: seq<Sector>)
    requires |was| == st.g.spc && lo + |buf| <= st.g.spc
    ensures Patched(Prepared(env, st, was, i, j, lo, lo + |buf|), lo, Sealed(env, st.g, i, j, lo, buf)) ==
      Content(env, st, i, j, lo, buf)
  {
    hide EntryView, TreeView, SectorNum;
    var p, s := Prepared(env, st, was, i, j, lo, lo + |buf|), Sealed(env, st.g, i, j, lo, buf);
    var a := Patched(p, lo, s);
    var b := Content(env, st, i, j, lo, buf);
    forall k: nat | k < st.g.spc ensures a[k] == b[k] {
      if lo <= k < lo + |buf| {
        assert a[k] == s[k - lo];
        assert lo + (k - lo) == k;
      } else {
        assert a[k] == p[k] == Old(env, st, i, j, k);
      }
    }
  }

  // Preparing the cluster and then writing the data is the write of the cache-free model.
  lemma PrepareFinish(env: Env, st: Img, i: nat, j: nat, lo: nat, buf: seq<Sector>)
    requires Inv(st) && i < |st.l1| && st.l1[i].Plain? && st.l1[i].copied && lo + |buf| <= st.g.spc
    ensures WriteSlot(env, st, i, j, lo, buf) == Finish(env, Prepare(env, st, i, j, lo, lo + |buf|), i, j, lo, buf)
  {
    var t := st.l1[i].at;
    assert SlotTyped(st.g, st.disk, st.l1[i]);
    if j < |Ents(st.disk, t)| {
      var e := Ents(st.disk, t)[j];
      if e.Plain? && e.copied {
        assert EntryTyped(st.g, st.disk, e);
      } else if FreeEntry(st, e).Some? && Alloc(FreeEntry(st, e).value, 1).Some? {
        PrepareFresh(env, st, i, j, lo, buf, FreeEntry(st, e).value);
      }
    }
  }

  lemma PutOver(g: Geo, disk: Disk, d: nat, t: nat, p: seq<Sector>, b: Block, lo: nat, s: seq<Sector>)
    requires d < |disk| && t < |disk| && d != t && |p| == g.spc
    ensures PutSectors(g, SetBlock(SetBlock(disk, d, Data(p)), t, b), d, lo, s) ==
      SetBlock(SetBlock(disk, d, Data(Patched(p, lo, s))), t, b)
  {
  }

  // Writing the whole cluster makes what was in it before irrelevant.
  lemma PutWhole(g: Geo, disk: Disk, d: nat, t: nat, p: seq<Sector>, b: Block, s: seq<Sector>)
    requires d < |disk| && t < |disk| && d != t && |p| == |s| == g.spc
    ensures PutSectors(g, SetBlock(disk, t, b), d, 0, s) == SetBlock(SetBlock(disk, d, Data(Patched(p, 0, s))), t, b)
  {
    assert Patched(Raw(g, disk[d]), 0, s) == s == Patched(p, 0, s);
  }

  lemma NoCopy(env: Env, st: Img, disk: Disk, d: nat, i: nat, j: nat, lo: nat, hi: nat)
    requires d < |disk| && hi - lo >= st.g.spc
    ensures Copied(env, st, disk, d, i, j, lo, hi) == disk
  {
  }

  // The two copies of the old data around [lo, hi), in this order.
  lemma TwoCopies(env: Env, st: Img, disk: Disk, d: nat, i: nat, j: nat, lo: nat, hi: nat, d1: Disk, d2: Disk)
    requires d < |disk| && lo <= hi <= st.g.spc && hi - lo < st.g.spc
    requires var view := OldData(env, st, i, j);
      && (lo == 0 ==> d1 == disk)
      && (0 < lo ==> d1 == PutSectors(st.g, disk, d, 0, Sealed(env, st.g, i, j, 0, view[0..lo])))
      && (hi == st.g.spc ==> d2 == d1)
      && (hi < st.g.spc ==> d2 == PutSectors(st.g, d1, d, hi, Sealed(env, st.g, i, j, hi, view[hi..st.g.spc])))
    ensures d2 == Copied(env, st, disk, d, i, j, lo, hi)
  {
    hide View, SectorNum, Sealed, Prepared;
    var view := OldData(env, st, i, j);
    var was := Raw(st.g, disk[d]);
    var s1 := if lo == 0 then was else Patched(was, 0, Sealed(env, st.g, i, j, 0, view[0..lo]));
    assert 0 < lo ==> d1 == disk[d := Data(s1)];
    assert Raw(st.g, d1[d]) == s1;
    var s2 := if hi == st.g.spc then s1 else Patched(s1, hi, Sealed(env, st.g, i, j, hi, view[hi..st.g.spc]));
    BothCopies(env, st, was, i, j, lo, hi, s1, s2);
  }

  lemma BothCopies(env: Env, st: Img, was: seq<Sector>, i: nat, j: nat, lo: nat, hi: nat, s1: seq<Sector>,
                   s2: seq<Sector>)
    requires |was| == st.g.spc && lo <= hi <= st.g.spc
    requires var view := OldData(env, st, i, j);
      && s1 == (if lo == 0 then was else Patched(was, 0, Sealed(env, st.g, i, j, 0, view[0..lo])))
      && s2 == (if hi == st.g.spc then s1 else Patched(s1, hi, Sealed(env, st.g, i, j, hi, view[hi..st.g.spc])))
    ensures s2 == Prepared(env, st, was, i, j, lo, hi)
  {
    hide View, SectorNum;
    var p := Prepared(env, st, was, i, j, lo, hi);
    forall k: nat | k < st.g.spc ensures s2[k] == p[k] {
      SealedAt(env, st, i, j, 0, lo, k);
      SealedAt(env, st, i, j, hi, st.g.spc, k);
    }
  }

  lemma SealedAt(env: Env, st: Img, i: nat, j: nat, a: nat, b: nat, k: nat)
    requires a <= b <= st.g.spc
    ensures a <= k < b ==> Sealed(env, st.g, i, j, a, OldData(env, st, i, j)[a..b])[k - a] == Old(env, st, i, j, k)
  {
    hide View, SectorNum;
    if a <= k < b { assert a + (k - a) == k; assert OldData(env, st, i, j)[a..b][k - a] == OldData(env, st, i, j)[k]; }
  }

  // After copying, the cluster cache is coherent with the image as it was before the write.
  lemma CopyKeeps(env: Env, st: Img, i: nat, j: nat, at: Option<Place>, cache: seq<Sector>, at': Option<Place>,
                  cache': seq<Sector>)
    requires PackedOnce(st) && InflatedOk(env, st, at, cache)
    requires var e := L2Word(st.disk, SlotAt(st.l1, i), j);
      (at' == at && cache' == cache) || (e.Packed? && at' == Some(PlaceOf(e)) && cache' == OldData(env, st, i, j))
    ensures InflatedOk(env, st, at', cache')
  {
    var e := L2Word(st.disk, SlotAt(st.l1, i), j);
    if e.Packed? && at' == Some(PlaceOf(e)) && cache' == OldData(env, st, i, j) {
      assert InTree(st.disk, st.l1, e);
      assert OldData(env, st, i, j) == Inflated(env, st.g, st.disk, e);
      InflatedLoad(env, st, e);
    }
  }

  // Freeing the storage of an L2 entry frees no L2 table.
  lemma FreeTables(st: Img, i: nat, j: nat, e: Entry, st1: Img)
    requires Inv(st) && i < |st.l1| && e == L2Word(st.disk, st.l1[i], j) && FreeEntry(st, e) == Some(st1)
    ensures TablesKept(st, st1)
  {
    FreeEntrySpec(st, i, j, e, st1);
    assert SlotTyped(st.g, st.disk, st.l1[i]);
    assert EntryTyped(st.g, st.disk, e);
  }

  lemma PrepareFresh(env: Env, st: Img, i: nat, j: nat, lo: nat, buf: seq<Sector>, st1: Img)
    requires Inv(st) && i < |st.l1| && st.l1[i].Plain? && st.l1[i].copied && lo + |buf| <= st.g.spc
    requires j < |Ents(st.disk, st.l1[i].at)| && FreeEntry(st, Ents(st.disk, st.l1[i].at)[j]) == Some(st1)
    requires !(Ents(st.disk, st.l1[i].at)[j].Plain? && Ents(st.disk, st.l1[i].at)[j].copied)
    requires Alloc(st1, 1).Some?
    ensures WriteSlot(env, st, i, j, lo, buf) == Finish(env, Prepare(env, st, i, j, lo, lo + |buf|), i, j, lo, buf)
  {
    hide Inv, FreeEntry, Alloc, EntryRefs, Content, Prepared, PutSectors, SetBlock;
    var t := st.l1[i].at;
    var e := Ents(st.disk, t)[j];
    FreeEntrySpec(st, i, j, e, st1);
    TableKept(st, i, j);
    var (st2, d) := Alloc(st1, 1).value;
    AllocSpec(st1, 1, st2, d);
    assert d != t;
    var was := Raw(st.g, st2.disk[d]);
    FinishContent(env, st, was, i, j, lo, buf);
    var b, s := L2(Ents(st.disk, t)[j := Plain(d, true)]), Sealed(env, st.g, i, j, lo, buf);
    var p := Prepared(env, st, was, i, j, lo, lo + |buf|);
    PutOver(st.g, st2.disk, d, t, p, b, lo, s);
    if |buf| == st.g.spc { PutWhole(st.g, st2.disk, d, t, p, b, s); }
  }

  // Between freeing and linking: what the copy of the old data may rely on.
  ghost predicate Mid(st: Img, st2: Img, i: nat, j: nat, d: nat)
  {
    && i < |st.l1| && st.l1[i].Plain? && j < |Ents(st.disk, st.l1[i].at)|
    && st2 == st.(disk := st2.disk, table := st2.table, rc := st2.rc, freeIdx := st2.freeIdx)
    && |st2.disk| == |st.disk|
    && (forall x: nat :: x < |st.disk| && st2.disk[x] != st.disk[x] ==> Quiet(st, x))
    && 0 < d < |st.disk| && d != st.l1[i].at && st2.Blk(d) == 0
    && (L2Word(st.disk, st.l1[i], j).Plain? ==> L2Word(st.disk, st.l1[i], j).at != d)
  }

  lemma MidState(st: Img, i: nat, j: nat, st1: Img, st2: Img, d: nat)
    requires Inv(st) && i < |st.l1| && st.l1[i].Plain? && st.l1[i].copied && j < |Ents(st.disk, st.l1[i].at)|
    requires FreeEntry(st, Ents(st.disk, st.l1[i].at)[j]) == Some(st1) && Alloc(st1, 1) == Some((st2, d))
    requires !(Ents(st.disk, st.l1[i].at)[j].Plain? && Ents(st.disk, st.l1[i].at)[j].copied)
    ensures Mid(st, st2, i, j, d) && RcOf(st1.rc, d) == 0 && Allocated(st1, st2, d, 1)
    ensures st.l1[i].at < |st.disk| && st2.disk[st.l1[i].at] == st.disk[st.l1[i].at] && RcOf(st2.rc, st.l1[i].at) > 0
  {
    var t := st.l1[i].at;
    var e := Ents(st.disk, t)[j];
    FreeEntrySpec(st, i, j, e, st1);
    TableKept(st, i, j);
    AllocSpec(st1, 1, st2, d);
    assert SlotTyped(st.g, st.disk, st.l1[i]);
    if e.Plain? {
      WordRefs(st, i, j, e.at);
      assert RcOf(st.rc, e.at) > 1;
    }
    ReplacedCounts(st, e, st1, st2, st2, d);
  }
}

// Compressed clusters: no operation modelled here creates one, and none changes the bytes of one
// that is still reachable from the active image or from a snapshot.

module Compressed {
  import opened Basics
  import opened Arith
  import opened Layout
  import opened Refcounts
  import opened SnapIds
  import opened Invariant
  import opened GuestWrite
  import opened DataWrite
  import opened Snapshots
  import opened SnapshotCreate
  import opened SnapshotGoto
  import opened SnapshotDelete
  import opened TableMoves
  import opened L1Grow
  import opened Runs

  ghost predicate InTree(d: Disk, l1: seq<Entry>, e: Entry)
  {
    e.Packed? && exists i: nat, j: nat :: i < |l1| && L2Word(d, l1[i], j) == e
  }

  ghost predicate InSnap(st: Img, q: nat, e: Entry)
  {
    q < |st.snaps| && InTree(st.disk, SnapL1(st.g, st.disk, st.snaps[q]), e)
  }

  ghost predicate Reaches(st: Img, e: Entry)
  {
    InTree(st.disk, st.l1, e) || exists q: nat :: InSnap(st, q, e)
  }

  // A compressed cluster is named by the byte offset it starts at.
  ghost predicate PackedOnce(st: Img)
  {
    forall a: Entry, b: Entry :: Reaches(st, a) && Reaches(st, b) && a.sec == b.sec && a.off == b.off ==> a == b
  }

  ghost predicate PackedKept(st: Img, st': Img)
  {
    st'.g == st.g && forall e: Entry :: Reaches(st', e) ==>
      Reaches(st, e) && Stream(st.g, st'.disk, e) == Stream(st.g, st.disk, e)
  }

  lemma PackedKeptTrans(a: Img, b: Img, c: Img)
    requires PackedKept(a, b) && PackedKept(b, c)
    ensures PackedKept(a, c)
  {
  }

  lemma PackedKeptOnce(st: Img, st': Img)
    requires PackedKept(st, st') && PackedOnce(st)
    ensures PackedOnce(st')
  {
  }

  // A tree that keeps its clusters keeps its compressed clusters.
  lemma TreePacked(g: Geo, d: Disk, d': Disk, l1: seq<Entry>, l1': seq<Entry>, e: Entry)
    requires |d| == |d'| && SameEnts(l1, l1') && Typed(g, d, l1)
    requires forall x: nat :: x < |d| && TreeRefs(g, d, l1, |l1|, x) > 0 ==> Same(d[x], d'[x])
    requires InTree(d', l1', e)
    ensures InTree(d, l1, e) && Stream(g, d', e) == Stream(g, d, e)
  {
    var i: nat, j: nat :| i < |l1'| && L2Word(d', l1'[i], j) == e;
    WordFrame(g, d, d', l1, l1', i, j);
    assert L2Word(d, l1[i], j) == e;
    forall x: nat | x < |d| && EntryRefs(g, e, x) > 0 ensures Same(d[x], d'[x]) {
      TreeRefsAt(g, d, l1, |l1|, i, x);
      L2RefsAt(g, Ents(d, l1[i].at), |Ents(d, l1[i].at)|, j, x);
    }
    StreamFrame(g, d, d', e);
  }

  lemma SnapPacked(st: Img, d': Disk, q: nat, e: Entry)
    requires SavedOk(st) && |d'| == |st.disk| && q < |st.snaps|
    requires forall x: nat :: x < |st.disk| && SavedRefs(st, x) > 0 ==> Same(st.disk[x], d'[x])
    requires InTree(d', SnapL1(st.g, d', st.snaps[q]), e)
    ensures InSnap(st, q, e) && Stream(st.g, d', e) == Stream(st.g, st.disk, e)
  {
    SnapOkFrame(st, d', q);
    assert SnapOk(st.g, st.disk, st.snaps[q]);
    var l1, l1' := SnapL1(st.g, st.disk, st.snaps[q]), SnapL1(st.g, d', st.snaps[q]);
    forall x: nat | x < |st.disk| && TreeRefs(st.g, st.disk, l1, |l1|, x) > 0 ensures Same(st.disk[x], d'[x]) {
      SnapsRefsAt(st.g, st.disk, st.snaps, |st.snaps|, q, x);
    }
    TreePacked(st.g, st.disk, d', l1, l1', e);
  }

  // Every compressed cluster of the active tree of st' was reachable in st and has the same bytes.
  ghost predicate ActiveKept(st: Img, st': Img)
  {
    forall e: Entry :: InTree(st'.disk, st'.l1, e) ==>
      Reaches(st, e) && Stream(st.g, st'.disk, e) == Stream(st.g, st.disk, e)
  }

  lemma KeptFrom(st: Img, st': Img)
    requires SavedOk(st) && st'.g == st.g && |st'.disk| == |st.disk| && st'.snaps == st.snaps
    requires forall x: nat :: x < |st.disk| && SavedRefs(st, x) > 0 ==> Same(st.disk[x], st'.disk[x])
    requires ActiveKept(st, st')
    ensures PackedKept(st, st')
  {
    forall e: Entry | Reaches(st', e) ensures Reaches(st, e) && Stream(st.g, st'.disk, e) == Stream(st.g, st.disk, e) {
      if !InTree(st'.disk, st'.l1, e) {
        var q: nat :| InSnap(st', q, e);
        SnapPacked(st, st'.disk, q, e);
      }
    }
  }

  // ----- guest writes -----

  // The word (k, l) is unchanged and so are the clusters it names.
  lemma WordPacked(st: Img, st': Img, k: nat, l: nat, e: Entry)
    requires |st'.disk| == |st.disk| && e.Packed? && k < |st.l1| && L2Word(st.disk, st.l1[k], l) == e
    requires forall x: nat :: x < |st.disk| && EntryRefs(st.g, e, x) > 0 ==> Same(st.disk[x], st'.disk[x])
    ensures Reaches(st, e) && Stream(st.g, st'.disk, e) == Stream(st.g, st.disk, e)
  {
    StreamFrame(st.g, st.disk, st'.disk, e);
    assert InTree(st.disk, st.l1, e);
  }

  lemma OwnedPacked(st: Img, st': Img, i: nat, n: nat)
    requires Inv(st) && Owned(st, st', i, n)
    ensures PackedKept(st, st')
  {
    forall e: Entry | InTree(st'.disk, st'.l1, e)
      ensures Reaches(st, e) && Stream(st.g, st'.disk, e) == Stream(st.g, st.disk, e)
    {
      var k: nat, l: nat :| k < |st'.l1| && L2Word(st'.disk, st'.l1[k], l) == e;
      OwnedWord(st, st', i, n, k, l);
      forall x: nat | x < |st.disk| && EntryRefs(st.g, e, x) > 0
        ensures Same(st.disk[x], st'.disk[x])
      {
        WordRefs(st, k, l, x);
      }
      WordPacked(st, st', k, l, e);
    }
    KeptFrom(st, st');
  }

  lemma ReplacedPacked(st: Img, st': Img, i: nat, j: nat, d: nat)
    requires Inv(st) && Replaced(st, st', i, j, d)
    ensures PackedKept(st, st')
  {
    ReplacedOnly(st, st', i, j, d);
    forall e: Entry | InTree(st'.disk, st'.l1, e)
      ensures Reaches(st, e) && Stream(st.g, st'.disk, e) == Stream(st.g, st.disk, e)
    {
      var k: nat, l: nat :| k < |st'.l1| && L2Word(st'.disk, st'.l1[k], l) == e;
      ReplacedWord(st, st', i, j, d, k, l);
      forall x: nat | x < |st.disk| && EntryRefs(st.g, e, x) > 0 ensures Same(st.disk[x], st'.disk[x]) {
        ReplacedTarget(st, st', i, j, d, k, l, x);
      }
      WordPacked(st, st', k, l, e);
    }
    KeptFrom(st, st');
  }

  lemma PatchPacked(st: Img, st': Img, i: nat, j: nat)
    requires Inv(st) && Patch(st, st', i, j)
    ensures PackedKept(st, st')
  {
    PatchOnly(st, st', i, j);
    forall e: Entry | InTree(st'.disk, st'.l1, e)
      ensures Reaches(st, e) && Stream(st.g, st'.disk, e) == Stream(st.g, st.disk, e)
    {
      var k: nat, l: nat :| k < |st'.l1| && L2Word(st'.disk, st'.l1[k], l) == e;
      PatchWord(st, st', i, j, k, l);
      forall x: nat | x < |st.disk| && EntryRefs(st.g, e, x) > 0 ensures Same(st.disk[x], st'.disk[x]) {
        WordRefs2(st, i, j, k, l, x);
      }
      WordPacked(st, st', k, l, e);
    }
    KeptFrom(st, st');
  }

  lemma OwnL2Packed(st: Img, i: nat, st': Img)
    requires Inv(st) && OwnL2(st, i) == Some(st')
    ensures PackedKept(st, st')
  {
    OwnL2Spec(st, i, st');
    if st' != st {
      var n: nat :| Owned(st, st', i, n);
      OwnedPacked(st, st', i, n);
    }
  }

  lemma WriteSlotPacked(env: Env, st: Img, i: nat, j: nat, lo: nat, buf: seq<Sector>, st': Img)
    requires Inv(st) && i < |st.l1| && st.l1[i].Plain? && st.l1[i].copied
    requires WriteSlot(env, st, i, j, lo, buf) == Some(st')
    ensures PackedKept(st, st')
  {
    var e := L2Word(st.disk, st.l1[i], j);
    if e.Plain? && e.copied {
      WriteSlotPatches(env, st, i, j, lo, buf, st');
      PatchPacked(st, st', i, j);
    } else {
      var d := WriteSlotReplaces(env, st, i, j, lo, buf, st');
      ReplacedPacked(st, st', i, j, d);
    }
  }

  // ----- tables that move -----

  lemma ExchangedSame(st: Img, st': Img, at: nat, n: nat, lo: nat, m: nat)
    requires Inv(st) && Exchanged(st, st', at, n, lo, m)
    ensures |st'.disk| == |st.disk| && st'.g == st.g
    ensures forall x: nat :: x < |st.disk| && (ActiveRefs(st, x) > 0 || SavedRefs(st, x) > 0) ==>
      st'.disk[x] == st.disk[x]
  {
  }

  lemma ExchangedPacked(st: Img, st': Img, at: nat, n: nat, lo: nat, m: nat)
    requires Inv(st) && Exchanged(st, st', at, n, lo, m) && st'.snaps == st.snaps
    requires forall i: nat :: i < |st'.l1| ==> st'.l1[i] == SlotAt(st.l1, i)
    ensures PackedKept(st, st')
  {
    hide Inv, Exchanged, Stream;
    InvTrees(st);
    ExchangedSame(st, st', at, n, lo, m);
    forall e: Entry | InTree(st'.disk, st'.l1, e)
      ensures Reaches(st, e) && Stream(st.g, st'.disk, e) == Stream(st.g, st.disk, e)
    {
      var k: nat, l: nat :| k < |st'.l1| && L2Word(st'.disk, st'.l1[k], l) == e;
      assert st'.l1[k] == SlotAt(st.l1, k);
      assert InTree(st'.disk, st.l1, e);
      TreePacked(st.g, st.disk, st'.disk, st.l1, st.l1, e);
    }
    KeptFrom(st, st');
  }

  lemma GrowPacked(st: Img, min: nat, st': Img)
    requires Inv(st) && GrowL1(st, min) == Some(st')
    ensures PackedKept(st, st')
  {
    if min > |st.l1| {
      var at := GrowSpec(st, min, st');
      forall i: nat | i < |st'.l1| ensures st'.l1[i] == SlotAt(st.l1, i) {
        if i < |st.l1| { assert st'.l1[i] == st'.l1[..|st.l1|][i]; }
      }
      ExchangedPacked(st, st', at, L1Clusters(st.g, |st'.l1|), st.l1At, L1Clusters(st.g, |st.l1|));
    }
  }

  lemma WriteSnapsPacked(st: Img, st': Img)
    requires Inv(st) && WriteSnaps(st) == Some(st')
    ensures PackedKept(st, st')
  {
    var at := WriteSnapsExchanged(st, st');
    ExchangedPacked(st, st', at, SnapClusters(st.g, st'.snapsSize), st.snapsAt, SnapClusters(st.g, st.snapsSize));
  }

  // ----- snapshots -----

  lemma SameTablesPacked(st: Img, st': Img)
    requires TreeOk(st.g, st.disk, st.l1) && SavedOk(st) && SameTables(st, st')
    ensures PackedKept(st, st')
  {
    forall e: Entry | InTree(st'.disk, st'.l1, e)
      ensures Reaches(st, e) && Stream(st.g, st'.disk, e) == Stream(st.g, st.disk, e)
    {
      TreePacked(st.g, st.disk, st'.disk, st.l1, st'.l1, e);
    }
    KeptFrom(st, st');
  }

  // Forgetting a snapshot, or keeping one more copy of a tree that is there anyway, makes nothing reachable.
  lemma SubsetPacked(st: Img, st': Img)
    requires st'.g == st.g && st'.disk == st.disk && st'.l1 == st.l1
    requires forall q: nat :: q < |st'.snaps| ==>
      SnapL1(st.g, st.disk, st'.snaps[q]) == st.l1 || exists r: nat :: r < |st.snaps| && st'.snaps[q] == st.snaps[r]
    ensures PackedKept(st, st')
  {
    forall e: Entry | Reaches(st', e) ensures Reaches(st, e) {
      if !InTree(st'.disk, st'.l1, e) {
        var q: nat :| InSnap(st', q, e);
        if SnapL1(st.g, st.disk, st'.snaps[q]) != st.l1 {
          var r: nat :| r < |st.snaps| && st'.snaps[q] == st.snaps[r];
          assert InSnap(st, r, e);
        }
      }
    }
  }

  lemma AddSnapPacked(st: Img, info: Info, st': Img)
    requires Inv(st) && AddSnap(st, info) == Some(st')
    ensures PackedKept(st, st')
  {
    hide Inv, AddSnap, Exact, MetaOnce;
    InvTrees(st);
    var st1, at := AddSnapSaved(st, info, st');
    SameTablesPacked(st, st1);
    SameTablesKeep(st, st1);
    var mid := st'.(snaps := st.snaps);
    forall e: Entry | InTree(mid.disk, mid.l1, e)
      ensures Reaches(st1, e) && Stream(st.g, mid.disk, e) == Stream(st.g, st1.disk, e)
    {
      TreePacked(st.g, st1.disk, mid.disk, st1.l1, st1.l1, e);
    }
    KeptFrom(st1, mid);
    forall q: nat | q < |st'.snaps|
      ensures SnapL1(mid.g, mid.disk, st'.snaps[q]) == mid.l1 ||
        exists r: nat :: r < |mid.snaps| && st'.snaps[q] == mid.snaps[r]
    {
      if q < |st.snaps| { assert st'.snaps[q] == mid.snaps[q]; }
    }
    SubsetPacked(mid, st');
    PackedKeptTrans(st, st1, mid);
    PackedKeptTrans(st, mid, st');
  }

  lemma InvTrees(st: Img)
    requires Inv(st)
    ensures TreeOk(st.g, st.disk, st.l1) && SavedOk(st)
  {
  }

  lemma DropSnapPacked(st: Img, q: nat, st': Img)
    requires Inv(st) && DropSnap(st, q) == Some(st')
    ensures PackedKept(st, st')
  {
    hide DropSnap, PackedKept, Inv, SameTables;
    DropDeleted(st, q, st');
    var mid := st'.(snaps := st.snaps);
    InvTrees(st);
    SameTablesPacked(st, mid);
    forall k: nat | k < |st'.snaps| ensures exists r: nat :: r < |mid.snaps| && st'.snaps[k] == mid.snaps[r] {
      assert st'.snaps[k] == mid.snaps[Shift(q, k)];
    }
    SubsetPacked(mid, st');
    PackedKeptTrans(st, mid, st');
  }

  lemma LoadPacked(st: Img, st1: Img, q: nat)
    requires Inv(st) && Unlinked(st, st1) && q < |st.snaps| && st.snaps[q].l1Size == |st.l1|
    ensures PackedKept(st1, LoadSnap(st1, q))
  {
    var st2 := LoadSnap(st1, q);
    forall x: nat | x < |st1.disk| && SavedRefs(st1, x) > 0
      ensures Same(st1.disk[x], st2.disk[x])
    {
      LoadDisk(st, st1, q, x);
    }
    assert SnapOk(st1.g, st1.disk, st1.snaps[q]);
    forall e: Entry | InTree(st2.disk, st2.l1, e)
      ensures Reaches(st1, e) && Stream(st.g, st2.disk, e) == Stream(st.g, st1.disk, e)
    {
      forall x: nat | x < |st1.disk| && TreeRefs(st1.g, st1.disk, st2.l1, |st2.l1|, x) > 0
        ensures Same(st1.disk[x], st2.disk[x])
      {
        SnapTreeRefs(st1, q, x);
      }
      TreePacked(st1.g, st1.disk, st2.disk, st2.l1, st2.l1, e);
      assert InSnap(st1, q, e);
    }
    KeptFrom(st1, st2);
  }

  lemma GotoPacked(st: Img, q: nat, st': Img)
    requires Inv(st) && GotoSnap(st, q) == Some(st')
    ensures PackedKept(st, st')
  {
    var st1 := WalkActive(st, -1).value;
    UnlinkSpec(st, st1);
    SameTablesPacked(st, st1);
    var st2 := LoadSnap(st1, q);
    LoadPacked(st, st1, q);
    LoadSpec(st, st1, q);
    LoadWalkable(st, st1, q);
    WalkActiveSpec(st2, 1, st');
    SameTablesPacked(st2, st');
    PackedKeptTrans(st, st1, st2);
    PackedKeptTrans(st, st2, st');
  }

  // No request creates a compressed cluster or changes one that stays reachable.
  lemma StepPacked(env: Env, st: Img, op: Op, st': Img)
    requires Inv(st) && env.Lawful() && Step(env, st, op) == Some(st')
    ensures PackedKept(st, st')
  {
    match op {
      case ChunkOp(sn, buf) =>
        var vc := Row(st.g.spc, sn);
        ClusterPacked(env, st, Row(st.g.width, vc), Col(st.g.width, vc), Col(st.g.spc, sn), buf, st');
      case CreateOp(info) =>
        if st' != st { CreatePacked(env, st, Named(Infos(st.snaps), info), st'); }
      case GotoOp(key) =>
        if st' != st { GotoPacked(st, Find(Infos(st.snaps), key).value, st'); }
      case DeleteOp(key) =>
        if st' != st { DeletePacked(env, st, Find(Infos(st.snaps), key).value, st'); }
    }
  }

  lemma ClusterPacked(env: Env, st: Img, i: nat, j: nat, lo: nat, buf: seq<Sector>, st': Img)
    requires Inv(st) && env.Lawful() && WriteCluster(env, st, i, j, lo, buf) == Some(st')
    ensures PackedKept(st, st')
  {
    var st1 := GrowL1(st, i + 1).value;
    GrowCorrect(env, st, i + 1, st1);
    GrowPacked(st, i + 1, st1);
    var st2 := OwnL2(st1, i).value;
    OwnL2Correct(env, st1, i, st2);
    OwnL2Packed(st1, i, st2);
    WriteSlotPacked(env, st2, i, j, lo, buf, st');
    PackedKeptTrans(st, st1, st2);
    PackedKeptTrans(st, st2, st');
  }

  lemma CreatePacked(env: Env, st: Img, info: Info, st': Img)
    requires Inv(st) && Create(st, info) == Some(st')
    ensures PackedKept(st, st')
  {
    var st1 := AddSnap(st, info).value;
    AddSnapPacked(st, info, st1);
    AddSnapCorrect(env, st, info, st1);
    WriteSnapsPacked(st1, st');
    PackedKeptTrans(st, st1, st');
  }

  lemma DeletePacked(env: Env, st: Img, q: nat, st': Img)
    requires Inv(st) && Delete(st, q) == Some(st')
    ensures PackedKept(st, st')
  {
    var st1 := DropSnap(st, q).value;
    DropSnapPacked(st, q, st1);
    DropCorrect(env, st, q, st1);
    WriteSnapsPacked(st1, st');
    PackedKeptTrans(st, st1, st');
  }
}

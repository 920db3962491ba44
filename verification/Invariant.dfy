// The global invariant of an image: what check_refcounts checks, and what it rests on.

module Invariant {
  import opened Arith
  import opened Layout
  import opened Refcounts

  function SnapClusters(g: Geo, size: nat): nat
  {
    CeilDiv(size, g.bytes)
  }

  function ActiveRefs(st: Img, c: nat): nat
  {
    TreeRefs(st.g, st.disk, st.l1, |st.l1|, c)
  }

  function SavedRefs(st: Img, c: nat): nat
  {
    SnapsRefs(st.g, st.disk, st.snaps, |st.snaps|, c)
  }

  // References from the header, the snapshot table and the refcount table.
  function Fixed(st: Img, c: nat): nat
  {
    B2N(c == 0) + InRun(c, st.snapsAt, SnapClusters(st.g, st.snapsSize)) + InRun(c, st.rtAt, st.rtLen)
  }

  // References to cluster c from everything but the refcount blocks, as check_refcounts counts them.
  function Refs(st: Img, c: nat): nat
  {
    Fixed(st, c) + InRun(c, st.l1At, L1Clusters(st.g, |st.l1|)) + ActiveRefs(st, c) + SavedRefs(st, c)
  }

  // Every stored count equals the number of references.
  ghost predicate Exact(st: Img)
  {
    forall c: nat :: RcOf(st.rc, c) == Refs(st, c) + st.Blk(c)
  }

  // Clusters holding the image's own tables are referenced exactly once.
  ghost predicate MetaOnce(st: Img)
  {
    && (forall c: nat :: InRun(c, st.l1At, L1Clusters(st.g, |st.l1|)) > 0 ==> RcOf(st.rc, c) == 1)
    && (forall q: nat, c: nat :: q < |st.snaps| && InRun(c, st.snaps[q].l1At, L1Clusters(st.g, st.snaps[q].l1Size)) > 0
          ==> RcOf(st.rc, c) == 1)
    && (forall c: nat :: st.Blk(c) > 0 ==> RcOf(st.rc, c) == 1)
    && (forall c: nat :: Fixed(st, c) > 0 ==> RcOf(st.rc, c) == 1)
  }

  // ----- trees -----

  ghost predicate EntryTyped(g: Geo, disk: Disk, e: Entry)
  {
    match e
    case Zero => true
    case Plain(at, _) => at < |disk| && disk[at].Data? && |disk[at].sectors| == g.spc
    case Packed(_, _, nb) => nb > 0 && forall c: nat :: EntryRefs(g, e, c) > 0 ==>
        c < |disk| && disk[c].Data? && |disk[c].sectors| == g.spc
  }

  // Every pointer in the tree leads to a cluster of the expected kind.
  ghost predicate Typed(g: Geo, disk: Disk, l1: seq<Entry>)
  {
    forall i: nat :: i < |l1| ==> SlotTyped(g, disk, l1[i])
  }

  ghost predicate SlotTyped(g: Geo, disk: Disk, e: Entry)
  {
    && !e.Packed?
    && (e.Plain? ==>
         && e.at < |disk| && disk[e.at].L2? && |disk[e.at].ents| == g.width
         && forall j: nat :: j < g.width ==> EntryTyped(g, disk, disk[e.at].ents[j]))
  }

  // L2 tables and uncompressed data clusters are referenced once within a tree.
  ghost predicate Simple(g: Geo, disk: Disk, l1: seq<Entry>)
  {
    && (forall i: nat :: i < |l1| && l1[i].Plain? ==> TreeRefs(g, disk, l1, |l1|, l1[i].at) == 1)
    && (forall i: nat, j: nat :: i < |l1| && L2Word(disk, l1[i], j).Plain? ==>
          TreeRefs(g, disk, l1, |l1|, L2Word(disk, l1[i], j).at) == 1)
  }

  // COPIED is set exactly on pointers to clusters with reference count 1.
  ghost predicate Flagged(st: Img)
  {
    && (forall i: nat :: i < |st.l1| && st.l1[i].Plain? ==> (st.l1[i].copied <==> RcOf(st.rc, st.l1[i].at) == 1))
    && (forall i: nat, j: nat :: i < |st.l1| && L2Word(st.disk, st.l1[i], j).Plain? ==>
          (L2Word(st.disk, st.l1[i], j).copied <==> RcOf(st.rc, L2Word(st.disk, st.l1[i], j).at) == 1))
  }

  ghost predicate TreeOk(g: Geo, disk: Disk, l1: seq<Entry>)
  {
    Typed(g, disk, l1) && Simple(g, disk, l1)
  }

  function Min(a: nat, b: nat): nat { if a < b then a else b }

  // An L1 table of `size` words occupies consecutive L1 clusters starting at `at`.
  ghost predicate L1Shape(g: Geo, disk: Disk, at: nat, size: nat)
    decreases size
  {
    size > 0 ==>
      && at < |disk| && disk[at].L1? && |disk[at].ents| == Min(g.width, size)
      && (size > g.width ==> L1Shape(g, disk, at + 1, size - g.width))
  }

  // The L1 table on disk.
  ghost predicate Stored(g: Geo, disk: Disk, at: nat, l1: seq<Entry>)
  {
    L1Shape(g, disk, at, |l1|) && ReadL1(g, disk, at, |l1|) == l1
  }

  ghost predicate SavedOk(st: Img)
  {
    forall q: nat :: q < |st.snaps| ==> SnapOk(st.g, st.disk, st.snaps[q])
  }

  ghost predicate SnapOk(g: Geo, disk: Disk, s: Snapshot)
  {
    TreeOk(g, disk, SnapL1(g, disk, s)) && L1Shape(g, disk, s.l1At, s.l1Size)
  }

  ghost predicate Inv(st: Img)
  {
    && st.Shaped() && st.Covered()
    && Exact(st) && MetaOnce(st)
    && TreeOk(st.g, st.disk, st.l1) && Flagged(st)
    && Stored(st.g, st.disk, st.l1At, st.l1)
    && SavedOk(st)
  }

  lemma InvSound(st: Img)
    requires Inv(st)
    ensures st.Sound()
  {
    assert RcOf(st.rc, 0) > 0;
    forall c: nat | st.Blk(c) > 0 ensures c < |st.rc| && st.rc[c] > 0 {
      assert RcOf(st.rc, c) > 0;
    }
  }

  // ----- framing -----

  lemma EntryTypedFrame(g: Geo, d: Disk, d': Disk, e: Entry, e': Entry)
    requires |d| == |d'| && Strip(e) == Strip(e') && EntryTyped(g, d, e)
    requires forall x: nat :: x < |d| && EntryRefs(g, e, x) > 0 ==> Alike(d[x], d'[x])
    ensures EntryTyped(g, d', e')
  {
    if e.Plain? { assert EntryRefs(g, e, e.at) > 0; }
  }

  lemma SlotTypedFrame(g: Geo, d: Disk, d': Disk, e: Entry, e': Entry)
    requires |d| == |d'| && Strip(e) == Strip(e') && SlotTyped(g, d, e)
    requires forall x: nat :: x < |d| && SlotRefs(g, d, e, x) > 0 ==> Alike(d[x], d'[x])
    ensures SlotTyped(g, d', e')
  {
    if e.Plain? {
      var t := e.at;
      assert SlotRefs(g, d, e, t) > 0;
      assert Alike(d[t], d'[t]);
      forall j: nat | j < g.width ensures EntryTyped(g, d', d'[t].ents[j]) {
        assert Strip(d[t].ents[j]) == Strip(d'[t].ents[j]);
        forall x: nat | x < |d| && EntryRefs(g, d[t].ents[j], x) > 0 ensures Alike(d[x], d'[x]) {
          L2RefsAt(g, d[t].ents, g.width, j, x);
        }
        EntryTypedFrame(g, d, d', d[t].ents[j], d'[t].ents[j]);
      }
    }
  }

  // A tree whose clusters keep their contents (up to COPIED flags) stays well formed.
  lemma TreeOkFrame(g: Geo, d: Disk, d': Disk, l1: seq<Entry>, l1': seq<Entry>)
    requires |d| == |d'| && SameEnts(l1, l1') && TreeOk(g, d, l1)
    requires forall x: nat :: x < |d| && TreeRefs(g, d, l1, |l1|, x) > 0 ==> Alike(d[x], d'[x])
    ensures TreeOk(g, d', l1')
    ensures forall c: nat :: TreeRefs(g, d', l1', |l1'|, c) == TreeRefs(g, d, l1, |l1|, c)
  {
    forall c: nat ensures TreeRefs(g, d', l1', |l1'|, c) == TreeRefs(g, d, l1, |l1|, c) {
      TreeFrame(g, d, d', l1, l1', |l1|, c);
    }
    forall i: nat | i < |l1'| ensures SlotTyped(g, d', l1'[i]) {
      assert Strip(l1[i]) == Strip(l1'[i]);
      forall x: nat | x < |d| && SlotRefs(g, d, l1[i], x) > 0 ensures Alike(d[x], d'[x]) {
        TreeRefsAt(g, d, l1, |l1|, i, x);
      }
      SlotTypedFrame(g, d, d', l1[i], l1'[i]);
    }
    forall i: nat | i < |l1'| && l1'[i].Plain? ensures TreeRefs(g, d', l1', |l1'|, l1'[i].at) == 1 {
      assert Strip(l1[i]) == Strip(l1'[i]);
    }
    forall i: nat, j: nat | i < |l1'| && L2Word(d', l1'[i], j).Plain?
      ensures TreeRefs(g, d', l1', |l1'|, L2Word(d', l1'[i], j).at) == 1
    {
      WordFrame(g, d, d', l1, l1', i, j);
    }
  }

  // The word at (i, j) keeps its value up to the COPIED flag.
  lemma WordFrame(g: Geo, d: Disk, d': Disk, l1: seq<Entry>, l1': seq<Entry>, i: nat, j: nat)
    requires |d| == |d'| && SameEnts(l1, l1') && Typed(g, d, l1) && i < |l1|
    requires forall x: nat :: x < |d| && TreeRefs(g, d, l1, |l1|, x) > 0 ==> Alike(d[x], d'[x])
    ensures Strip(L2Word(d, l1[i], j)) == Strip(L2Word(d', l1'[i], j))
  {
    assert Strip(l1[i]) == Strip(l1'[i]);
    assert SlotTyped(g, d, l1[i]);
    if l1[i].Plain? {
      var t := l1[i].at;
      TreeRefsAt(g, d, l1, |l1|, i, t);
      assert Alike(d[t], d'[t]);
    }
  }

  lemma {:induction false} ShapeFrame(g: Geo, d: Disk, d': Disk, at: nat, size: nat)
    requires |d| == |d'| && L1Shape(g, d, at, size)
    requires forall x: nat :: x < |d| && InRun(x, at, L1Clusters(g, size)) > 0 ==> Alike(d[x], d'[x])
    ensures L1Shape(g, d', at, size)
    decreases size
  {
    if size > 0 {
      L1WordInRun(g, size, 0);
      assert InRun(at, at, L1Clusters(g, size)) > 0;
      if size > g.width {
        forall x: nat | x < |d| && InRun(x, at + 1, L1Clusters(g, size - g.width)) > 0 ensures Alike(d[x], d'[x]) {
          assert InRun(x, at, L1Clusters(g, size)) > 0;
        }
        ShapeFrame(g, d, d', at + 1, size - g.width);
      }
    }
  }

  lemma StoredFrame(g: Geo, d: Disk, d': Disk, at: nat, l1: seq<Entry>)
    requires |d| == |d'| && Stored(g, d, at, l1)
    requires forall x: nat :: x < |d| && InRun(x, at, L1Clusters(g, |l1|)) > 0 ==> d[x] == d'[x]
    ensures Stored(g, d', at, l1)
  {
    ShapeFrame(g, d, d', at, |l1|);
    forall i: nat | i < |l1| ensures ReadL1(g, d', at, |l1|)[i] == l1[i] {
      L1WordInRun(g, |l1|, i);
      var c := at + Row(g.width, i);
      assert InRun(c, at, L1Clusters(g, |l1|)) > 0;
      assert ReadL1(g, d, at, |l1|)[i] == l1[i];
    }
  }

  // Snapshots whose clusters keep their contents stay well formed and keep their references.
  lemma SavedFrame(st: Img, d': Disk)
    requires SavedOk(st) && |d'| == |st.disk|
    requires forall x: nat :: x < |st.disk| && SavedRefs(st, x) > 0 ==> Alike(st.disk[x], d'[x])
    ensures SavedOk(st.(disk := d'))
    ensures forall c: nat :: SavedRefs(st.(disk := d'), c) == SavedRefs(st, c)
  {
    forall c: nat ensures SavedRefs(st.(disk := d'), c) == SavedRefs(st, c) {
      SnapsFrame(st.g, st.disk, d', st.snaps, |st.snaps|, c);
    }
    forall q: nat | q < |st.snaps| ensures SnapOk(st.g, d', st.snaps[q]) {
      SnapOkFrame(st, d', q);
    }
  }

  lemma SnapOkFrame(st: Img, d': Disk, q: nat)
    requires SavedOk(st) && |d'| == |st.disk| && q < |st.snaps|
    requires forall x: nat :: x < |st.disk| && SavedRefs(st, x) > 0 ==> Alike(st.disk[x], d'[x])
    ensures SameEnts(SnapL1(st.g, st.disk, st.snaps[q]), SnapL1(st.g, d', st.snaps[q]))
    ensures SnapOk(st.g, d', st.snaps[q])
  {
    var s := st.snaps[q];
    assert SnapOk(st.g, st.disk, s);
    forall x: nat | x < |st.disk| && SnapRefs(st.g, st.disk, s, x) > 0 ensures Alike(st.disk[x], d'[x]) {
      SnapsRefsAt(st.g, st.disk, st.snaps, |st.snaps|, q, x);
    }
    SnapFrame(st.g, st.disk, d', s, 0);
    TreeOkFrame(st.g, st.disk, d', SnapL1(st.g, st.disk, s), SnapL1(st.g, d', s));
    ShapeFrame(st.g, st.disk, d', s.l1At, s.l1Size);
  }
}

// Snapshot create, goto and delete, and growing the L1 table.

module Snapshots {
  import opened Basics
  import opened Layout
  import opened Refcounts
  import opened Invariant
  import opened GuestWrite
  import opened Walk
  import opened L1Table

  // update_snapshot_refcount on the active table
  function WalkActive(st: Img, a: int): Option<Img>
  {
    var (st1, l1) :- WalkL1(st, st.l1, 0, a);
    Some(st1.(l1 := l1, disk := if l1 == st.l1 then st1.disk else StoreL1(st.g, st1.disk, st.l1At, l1)))
  }

  // update_snapshot_refcount on the table of snapshot q
  function WalkSnap(st: Img, q: nat, a: int): Option<Img>
    requires q < |st.snaps|
  {
    var s := st.snaps[q];
    var old1 := SnapL1(st.g, st.disk, s);
    var (st1, l1) :- WalkL1(st, old1, 0, a);
    Some(st1.(disk := if l1 == old1 then st1.disk else StoreL1(st.g, st1.disk, s.l1At, l1)))
  }

  // ----- walking a tree and writing its L1 table back -----

  // A walk over the table l1 stored at `at`, which its own tree does not reach.
  ghost predicate Walkable(st: Img, at: nat, l1: seq<Entry>)
  {
    && TreeOk(st.g, st.disk, l1) && TreeCovered(st, l1) && Stored(st.g, st.disk, at, l1)
    && (forall x: nat :: InRun(x, at, L1Clusters(st.g, |l1|)) > 0 ==> TreeRefs(st.g, st.disk, l1, |l1|, x) == 0)
  }

  ghost predicate Rewalked(st: Img, at: nat, l1: seq<Entry>, a: int, st': Img, l1': seq<Entry>)
  {
    && st' == st.(disk := st'.disk, rc := st'.rc, freeIdx := st'.freeIdx) && |st'.rc| == |st.rc|
    && |st'.disk| == |st.disk|
    && SameEnts(l1, l1')
    && (forall x: nat :: x < |st.disk| ==> Same(st.disk[x], st'.disk[x]))
    && (forall x: nat :: x < |st.disk| && TreeRefs(st.g, st.disk, l1, |l1|, x) == 0 &&
          InRun(x, at, L1Clusters(st.g, |l1|)) == 0
          ==> st'.disk[x] == st.disk[x])
    && (forall c: nat :: c < |st.rc| ==> st'.rc[c] == st.rc[c] + Times(a, TreeRefs(st.g, st.disk, l1, |l1|, c)))
    && Stored(st'.g, st'.disk, at, l1')
    && (forall k: nat :: k < |l1'| ==> SlotFlag(st', l1'[k]))
  }

  function WriteBack(st: Img, at: nat, was: seq<Entry>, l1: seq<Entry>): Img
  {
    st.(disk := if l1 == was then st.disk else StoreL1(st.g, st.disk, at, l1))
  }

  lemma TailRefs(st: Img, l1: seq<Entry>, x: nat)
    ensures InTail(l1, 0, x) ==> TreeRefs(st.g, st.disk, l1, |l1|, x) > 0
  {
    if InTail(l1, 0, x) {
      var k: nat :| k < |l1| && l1[k].Plain? && l1[k].at == x;
      TreeRefsAt(st.g, st.disk, l1, |l1|, k, x);
    }
  }

  lemma WalkedKeeps(st: Img, at: nat, l1: seq<Entry>, st1: Img, l1': seq<Entry>)
    requires Walkable(st, at, l1) && WalkedTables(st, l1, 0, st1, l1')
    ensures Stored(st.g, st1.disk, at, l1)
    ensures forall x: nat :: x < |st.disk| && TreeRefs(st.g, st.disk, l1, |l1|, x) == 0 ==> st1.disk[x] == st.disk[x]
  {
    forall x: nat | x < |st.disk| && TreeRefs(st.g, st.disk, l1, |l1|, x) == 0 ensures st1.disk[x] == st.disk[x] {
      TailRefs(st, l1, x);
    }
    StoredFrame(st.g, st.disk, st1.disk, at, l1);
  }

  lemma WriteBackDisk(st: Img, at: nat, l1: seq<Entry>, st1: Img, l1': seq<Entry>, st': Img)
    requires Walkable(st, at, l1) && WalkedTables(st, l1, 0, st1, l1') && st' == WriteBack(st1, at, l1, l1')
    ensures Stored(st.g, st'.disk, at, l1')
    ensures forall x: nat :: x < |st.disk| ==> Same(st.disk[x], st'.disk[x])
    ensures forall x: nat :: x < |st.disk| && InRun(x, at, L1Clusters(st.g, |l1|)) == 0 ==> st'.disk[x] == st1.disk[x]
  {
    WalkedKeeps(st, at, l1, st1, l1');
    if l1' != l1 {
      ShapeBound(st.g, st1.disk, at, |l1|);
      StoreStored(st.g, st1.disk, at, l1');
      forall x: nat | x < |st.disk| ensures Same(st.disk[x], st'.disk[x]) {
        StoreSame(st.g, st1.disk, at, l1, l1', x);
        SameTrans(st.disk[x], st1.disk[x], st'.disk[x]);
      }
      forall x: nat | x < |st.disk| && InRun(x, at, L1Clusters(st.g, |l1|)) == 0 ensures st'.disk[x] == st1.disk[x] {
        StoreOutside(st.g, st1.disk, at, l1', x);
      }
    }
  }

  lemma SlotFlagSame(st: Img, st': Img, e: Entry)
    requires SlotFlag(st, e) && st'.rc == st.rc && (e.Plain? ==> Ents(st'.disk, e.at) == Ents(st.disk, e.at))
    ensures SlotFlag(st', e)
  {
    if e.Plain? {
      forall j: nat | j < |Ents(st'.disk, e.at)| ensures EntFlag(st', Ents(st'.disk, e.at)[j]) {
        assert EntFlag(st, Ents(st.disk, e.at)[j]);
      }
    }
  }

  lemma WriteBackEnts(st: Img, at: nat, l1: seq<Entry>, st1: Img, l1': seq<Entry>, st': Img, k: nat)
    requires Walkable(st, at, l1) && WalkedTables(st, l1, 0, st1, l1') && st' == WriteBack(st1, at, l1, l1')
    requires k < |l1| && l1[k].Plain?
    ensures Ents(st'.disk, l1[k].at) == Ents(st1.disk, l1[k].at)
  {
    WriteBackDisk(st, at, l1, st1, l1', st');
    assert SlotTyped(st.g, st.disk, l1[k]);
    TreeRefsAt(st.g, st.disk, l1, |l1|, k, l1[k].at);
  }

  lemma WriteBackFlag(st: Img, at: nat, l1: seq<Entry>, st1: Img, l1': seq<Entry>, st': Img, k: nat)
    requires Walkable(st, at, l1) && WalkedTables(st, l1, 0, st1, l1') && st' == WriteBack(st1, at, l1, l1')
    requires k < |l1'| && SlotFlag(st1, l1'[k])
    ensures SlotFlag(st', l1'[k])
  {
    assert Strip(l1[k]) == Strip(l1'[k]);
    if l1[k].Plain? { WriteBackEnts(st, at, l1, st1, l1', st', k); }
    SlotFlagSame(st1, st', l1'[k]);
  }

  lemma RewalkSpec(st: Img, at: nat, l1: seq<Entry>, a: int, st1: Img, l1': seq<Entry>)
    requires -1 <= a <= 1 && Walkable(st, at, l1) && WalkL1(st, l1, 0, a) == Some((st1, l1'))
    ensures Rewalked(st, at, l1, a, WriteBack(st1, at, l1, l1'), l1')
  {
    WalkL1Spec(st, l1, 0, a, st1, l1');
    var st' := WriteBack(st1, at, l1, l1');
    WriteBackDisk(st, at, l1, st1, l1', st');
    WalkedKeeps(st, at, l1, st1, l1');
    forall k: nat | k < |l1'| ensures SlotFlag(st', l1'[k]) {
      WriteBackFlag(st, at, l1, st1, l1', st', k);
    }
  }

  // ----- states that differ only in COPIED flags and counts -----

  ghost predicate SameTables(st: Img, st': Img)
  {
    && st'.g == st.g && st'.snaps == st.snaps && |st'.disk| == |st.disk|
    && SameEnts(st.l1, st'.l1)
    && (forall x: nat :: x < |st.disk| ==> Same(st.disk[x], st'.disk[x]))
  }

  lemma SameTablesKeep(st: Img, st': Img)
    requires TreeOk(st.g, st.disk, st.l1) && SavedOk(st) && SameTables(st, st')
    ensures TreeOk(st'.g, st'.disk, st'.l1) && SavedOk(st')
    ensures forall c: nat :: ActiveRefs(st', c) == ActiveRefs(st, c)
    ensures forall c: nat :: SavedRefs(st', c) == SavedRefs(st, c)
  {
    TreeOkFrame(st.g, st.disk, st'.disk, st.l1, st'.l1);
    SavedFrame(st, st'.disk);
    assert forall c: nat :: SavedRefs(st', c) == SavedRefs(st.(disk := st'.disk), c);
    forall q: nat | q < |st'.snaps| ensures SnapOk(st'.g, st'.disk, st'.snaps[q]) {
      assert SnapOk(st.(disk := st'.disk).g, st.(disk := st'.disk).disk, st.(disk := st'.disk).snaps[q]);
    }
  }

  lemma SameTablesView(env: Env, st: Img, st': Img, i: nat, j: nat, k: nat)
    requires SameTables(st, st')
    ensures View(env, st', i, j, k) == View(env, st, i, j, k)
  {
    TreeViewFrame(env, st.g, st.disk, st'.disk, st.l1, st'.l1, i, j, k);
  }

  lemma FlagsFlagged(st: Img)
    requires forall k: nat :: k < |st.l1| ==> SlotFlag(st, st.l1[k])
    ensures Flagged(st)
  {
    forall i: nat, j: nat | i < |st.l1| && L2Word(st.disk, st.l1[i], j).Plain?
      ensures L2Word(st.disk, st.l1[i], j).copied <==> RcOf(st.rc, L2Word(st.disk, st.l1[i], j).at) == 1
    {
      assert SlotFlag(st, st.l1[i]);
      assert EntFlag(st, Ents(st.disk, st.l1[i].at)[j]);
    }
    forall i: nat | i < |st.l1| && st.l1[i].Plain? ensures st.l1[i].copied <==> RcOf(st.rc, st.l1[i].at) == 1 {
      assert SlotFlag(st, st.l1[i]);
    }
  }

  // ----- walking the active table -----

  lemma WalkActiveSpec(st: Img, a: int, st': Img)
    requires -1 <= a <= 1 && Walkable(st, st.l1At, st.l1) && WalkActive(st, a) == Some(st')
    ensures st' == st.(disk := st'.disk, rc := st'.rc, freeIdx := st'.freeIdx, l1 := st'.l1) && |st'.rc| == |st.rc|
    ensures SameTables(st, st')
    ensures forall c: nat :: c < |st.rc| ==> st'.rc[c] == st.rc[c] + Times(a, ActiveRefs(st, c))
    ensures Stored(st'.g, st'.disk, st'.l1At, st'.l1)
    ensures Flagged(st')
    ensures forall x: nat ::
      x < |st.disk| && ActiveRefs(st, x) == 0 && InRun(x, st.l1At, L1Clusters(st.g, |st.l1|)) == 0 ==>
      st'.disk[x] == st.disk[x]
  {
    var (st1, l1) := WalkL1(st, st.l1, 0, a).value;
    RewalkSpec(st, st.l1At, st.l1, a, st1, l1);
    var w := WriteBack(st1, st.l1At, st.l1, l1);
    assert st' == w.(l1 := l1);
    forall k: nat | k < |st'.l1| ensures SlotFlag(st', st'.l1[k]) {
      assert SlotFlag(w, l1[k]);
    }
    FlagsFlagged(st');
  }

  lemma InvWalkable(st: Img)
    requires Inv(st)
    ensures Walkable(st, st.l1At, st.l1)
  {
    forall c: nat | TreeRefs(st.g, st.disk, st.l1, |st.l1|, c) > 0 ensures st.HasBlock(c) {
      assert RcOf(st.rc, c) >= ActiveRefs(st, c);
      assert st.rc[c] > 0;
    }
    forall x: nat | InRun(x, st.l1At, L1Clusters(st.g, |st.l1|)) > 0
      ensures TreeRefs(st.g, st.disk, st.l1, |st.l1|, x) == 0
    {
      assert RcOf(st.rc, x) == 1;
      assert ActiveRefs(st, x) == 0;
    }
  }
}

// Storing a compressed cluster: get_cluster_offset with allocate = 2 on an unallocated word.

module Packing {
  import opened Basics
  import opened Layout
  import opened Refcounts
  import opened Invariant
  import opened GuestWrite
  import opened DataWrite
  import opened ByteAlloc
  import opened HostBytes

  // The new L2 word, then the stream.
  function WithStream(st: Img, t: nat, ents: seq<Entry>, j: nat, at: nat, z: seq<bv8>): Img
    requires j < |ents| && |z| > 0
  {
    st.(disk := PutBytes(st.g, SetBlock(st.disk, t, L2(ents[j := PackedAt(at, |z|)])), at, z))
  }

  function PackSlot(st: Img, i: nat, j: nat, z: seq<bv8>): Option<Img>
  {
    if i >= |st.l1| || !st.l1[i].Plain? || j >= |Ents(st.disk, st.l1[i].at)| || !Ents(st.disk, st.l1[i].at)[j].Zero? ||
      |z| == 0
    then None
    else
      var (st1, at) :- AllocBytes(st, |z|);
      Some(WithStream(st1, st.l1[i].at, Ents(st.disk, st.l1[i].at), j, at, z))
  }

  // ----- clusters that hold compressed data only -----

  // Nothing but compressed entries of the active tree may refer to cluster x.
  ghost predicate Loose(st: Img, x: nat)
  {
    && Fixed(st, x) + InRun(x, st.l1At, L1Clusters(st.g, |st.l1|)) + SavedRefs(st, x) + st.Blk(x) == 0
    && (forall k: nat :: k < |st.l1| && st.l1[k].Plain? ==> st.l1[k].at != x)
    && (forall k: nat, l: nat :: k < |st.l1| && L2Word(st.disk, st.l1[k], l).Plain? ==>
          L2Word(st.disk, st.l1[k], l).at != x)
  }

  lemma FreeLoose(st: Img, x: nat)
    requires Inv(st) && RcOf(st.rc, x) == 0
    ensures Loose(st, x)
  {
    assert RcOf(st.rc, x) == Refs(st, x) + st.Blk(x);
    forall k: nat | k < |st.l1| && st.l1[k].Plain? ensures st.l1[k].at != x {
      TreeRefsAt(st.g, st.disk, st.l1, |st.l1|, k, x);
    }
    forall k: nat, l: nat | k < |st.l1| && L2Word(st.disk, st.l1[k], l).Plain?
      ensures L2Word(st.disk, st.l1[k], l).at != x
    {
      WordRefs(st, k, l, x);
    }
  }

  // A cluster that holds part of a compressed stream holds nothing else.
  lemma SharedLoose(st: Img, k: nat, l: nat, x: nat)
    requires Inv(st) && SavedRefs(st, x) == 0 && k < |st.l1| && L2Word(st.disk, st.l1[k], l).Packed?
    requires EntryRefs(st.g, L2Word(st.disk, st.l1[k], l), x) > 0
    ensures Loose(st, x)
  {
    WordRefs(st, k, l, x);
    assert RcOf(st.rc, x) == Refs(st, x) + st.Blk(x);
    forall k2: nat | k2 < |st.l1| && st.l1[k2].Plain? ensures st.l1[k2].at != x {
      WordSlotRefs(st, k, l, k2, x);
    }
    forall k2: nat, l2: nat | k2 < |st.l1| && L2Word(st.disk, st.l1[k2], l2).Plain?
      ensures L2Word(st.disk, st.l1[k2], l2).at != x
    {
      WordRefs2(st, k, l, k2, l2, x);
    }
  }

  // ----- a new compressed word -----

  ghost predicate Linked(st: Img, st': Img, i: nat, j: nat, e: Entry)
  {
    && i < |st.l1| && st.l1[i].Plain? && st.l1[i].copied && j < |Ents(st.disk, st.l1[i].at)|
    && Ents(st.disk, st.l1[i].at)[j].Zero? && e.Packed? && e.nb > 0
    && st' == st.(disk := st'.disk, table := st'.table, rc := st'.rc, freeIdx := st'.freeIdx, freeByte := st'.freeByte)
    && |st'.disk| == |st.disk| && |st'.rc| == |st.rc| && |st'.table| == |st.table|
    && LinkedDisk(st, st', st.l1[i].at, Ents(st.disk, st.l1[i].at)[j := e], e)
    && LinkedCounts(st, st', e) && st'.Covered()
  }

  // Only the L2 table, the clusters of the stream and free clusters change.
  ghost predicate LinkedDisk(st: Img, st': Img, t: nat, ents: seq<Entry>, e: Entry)
    requires |st'.disk| == |st.disk| && e.Packed?
  {
    && t < |st.disk| && st'.disk[t] == L2(ents)
    && (forall x: nat :: x < |st.disk| && x != t && EntryRefs(st.g, e, x) == 0 && st'.disk[x] != st.disk[x] ==>
          Quiet(st, x) && RcOf(st.rc, x) == 0)
    && (forall x: nat :: EntryRefs(st.g, e, x) > 0 ==>
          x < |st.disk| && x != t && st'.disk[x].Data? && |st'.disk[x].sectors| == st.g.spc && Loose(st, x) &&
            st'.Blk(x) == 0)
  }

  ghost predicate LinkedCounts(st: Img, st': Img, e: Entry)
  {
    && (forall c: nat :: st'.Blk(c) >= st.Blk(c))
    && (forall c: nat :: st'.Blk(c) > st.Blk(c) ==> RcOf(st.rc, c) == 0 && RcOf(st'.rc, c) == 1)
    && (forall c: nat :: RcOf(st'.rc, c) == RcOf(st.rc, c) + EntryRefs(st.g, e, c) + st'.Blk(c) - st.Blk(c))
  }

  lemma LinkedTable(st: Img, st': Img, i: nat, j: nat, e: Entry)
    requires Inv(st) && Linked(st, st', i, j, e)
    ensures RcOf(st.rc, st.l1[i].at) == 1 && ActiveRefs(st, st.l1[i].at) == 1 && SavedRefs(st, st.l1[i].at) == 0
  {
    WordRefs(st, i, j, st.l1[i].at);
    assert RcOf(st.rc, st.l1[i].at) == 1;
  }

  // Other slots keep their L2 table.
  lemma LinkedSlot(st: Img, st': Img, i: nat, j: nat, e: Entry, k: nat)
    requires Inv(st) && Linked(st, st', i, j, e) && k < |st.l1| && k != i
    ensures st.l1[k].Plain? ==>
      st.l1[k].at < |st.disk| && st.l1[k].at != st.l1[i].at && st'.disk[st.l1[k].at] == st.disk[st.l1[k].at]
  {
    var t := st.l1[i].at;
    assert SlotTyped(st.g, st.disk, st.l1[k]);
    LinkedTable(st, st', i, j, e);
    if st.l1[k].Plain? {
      TreeRefsAt(st.g, st.disk, st.l1, |st.l1|, k, st.l1[k].at);
      if i < k { TreeRefsAt2(st.g, st.disk, st.l1, |st.l1|, i, k, t); }
        else { TreeRefsAt2(st.g, st.disk, st.l1, |st.l1|, k, i, t); }
    }
  }

  lemma LinkedWord(st: Img, st': Img, i: nat, j: nat, e: Entry, k: nat, l: nat)
    requires Inv(st) && Linked(st, st', i, j, e) && k < |st.l1|
    ensures L2Word(st'.disk, st'.l1[k], l) == if k == i && l == j then e else L2Word(st.disk, st.l1[k], l)
  {
    assert SlotTyped(st.g, st.disk, st.l1[k]);
    if k != i { LinkedSlot(st, st', i, j, e, k); }
  }

  lemma LinkedRefs(st: Img, st': Img, i: nat, j: nat, e: Entry, c: nat)
    requires Inv(st) && Linked(st, st', i, j, e)
    ensures ActiveRefs(st', c) == ActiveRefs(st, c) + EntryRefs(st.g, e, c)
  {
    forall k: nat | k < |st.l1| && k != i
      ensures SlotRefs(st.g, st.disk, st.l1[k], c) == SlotRefs(st.g, st'.disk, st'.l1[k], c)
    {
      LinkedSlot(st, st', i, j, e, k);
    }
    TreeRefsUpdate(st.g, st.disk, st'.disk, st.l1, st'.l1, |st.l1|, i, c);
    var ents := Ents(st.disk, st.l1[i].at);
    L2RefsUpdate(st.g, ents, |ents|, j, e, c);
    TreeRefsAt(st.g, st.disk, st.l1, |st.l1|, i, c);
  }

  lemma LinkedSaved(st: Img, st': Img, i: nat, j: nat, e: Entry)
    requires Inv(st) && Linked(st, st', i, j, e)
    ensures SavedOk(st') && forall c: nat :: SavedRefs(st', c) == SavedRefs(st, c)
  {
    LinkedTable(st, st', i, j, e);
    forall x: nat | x < |st.disk| && SavedRefs(st, x) > 0 ensures Alike(st.disk[x], st'.disk[x]) {}
    SavedFrame(st, st'.disk);
    assert forall c: nat :: SavedRefs(st', c) == SavedRefs(st.(disk := st'.disk), c);
    forall q: nat | q < |st'.snaps| ensures SnapOk(st'.g, st'.disk, st'.snaps[q]) {
      assert SnapOk(st.(disk := st'.disk).g, st.(disk := st'.disk).disk, st.(disk := st'.disk).snaps[q]);
    }
  }

  lemma LinkedExact(st: Img, st': Img, i: nat, j: nat, e: Entry)
    requires Inv(st) && Linked(st, st', i, j, e)
    ensures Exact(st')
  {
    LinkedSaved(st, st', i, j, e);
    forall c: nat ensures RcOf(st'.rc, c) == Refs(st', c) + st'.Blk(c) {
      LinkedRefs(st, st', i, j, e, c);
      assert RcOf(st.rc, c) == Refs(st, c) + st.Blk(c);
    }
  }

  lemma LinkedOne(st: Img, st': Img, i: nat, j: nat, e: Entry, c: nat)
    requires Linked(st, st', i, j, e) && RcOf(st.rc, c) == 1 && !Loose(st, c)
    ensures RcOf(st'.rc, c) == 1
  {
    hide Loose, RcOf;
    assert st'.Blk(c) >= st.Blk(c);
  }

  lemma LinkedBlocks(st: Img, st': Img, e: Entry)
    requires LinkedCounts(st, st', e)
    ensures forall c: nat :: st'.Blk(c) > 0 ==> st.Blk(c) > 0 || RcOf(st'.rc, c) == 1
  {
  }

  lemma LinkedMeta(st: Img, st': Img, i: nat, j: nat, e: Entry)
    requires Inv(st) && Linked(st, st', i, j, e)
    ensures MetaOnce(st')
  {
    hide LinkedDisk, LinkedCounts;
    forall c: nat | RcOf(st.rc, c) == 1 && !Loose(st, c)
      ensures RcOf(st'.rc, c) == 1
    {
      LinkedOne(st, st', i, j, e, c);
    }
    LinkedBlocks(st, st', e);
    forall q: nat, c: nat | q < |st.snaps| && InRun(c, st.snaps[q].l1At, L1Clusters(st.g, st.snaps[q].l1Size)) > 0
      ensures RcOf(st'.rc, c) == 1
    {
      SnapsRefsAt(st.g, st.disk, st.snaps, |st.snaps|, q, c);
    }
  }

  // What another word points to stays of its kind, and unchanged unless it shares clusters with the new stream.
  lemma LinkedTarget(st: Img, st': Img, i: nat, j: nat, e: Entry, k: nat, l: nat, x: nat)
    requires Inv(st) && Linked(st, st', i, j, e) && k < |st.l1|
    requires x < |st.disk| && EntryRefs(st.g, L2Word(st.disk, st.l1[k], l), x) > 0
    ensures Alike(st.disk[x], st'.disk[x])
    ensures EntryRefs(st.g, e, x) == 0 ==> st'.disk[x] == st.disk[x]
  {
    LinkedTable(st, st', i, j, e);
    WordRefs(st, k, l, x);
    WordSlotRefs(st, k, l, i, st.l1[i].at);
    assert SlotTyped(st.g, st.disk, st.l1[k]);
  }

  lemma LinkedTyped(st: Img, st': Img, i: nat, j: nat, e: Entry, k: nat)
    requires Inv(st) && Linked(st, st', i, j, e) && k < |st.l1|
    ensures SlotTyped(st'.g, st'.disk, st'.l1[k])
  {
    assert SlotTyped(st.g, st.disk, st.l1[k]);
    if k != i { LinkedSlot(st, st', i, j, e, k); }
    if st.l1[k].Plain? {
      forall l: nat | l < st.g.width ensures EntryTyped(st.g, st'.disk, st'.disk[st.l1[k].at].ents[l]) {
        LinkedWord(st, st', i, j, e, k, l);
        if k != i || l != j {
          var w := L2Word(st.disk, st.l1[k], l);
          forall x: nat | x < |st.disk| && EntryRefs(st.g, w, x) > 0 ensures Alike(st.disk[x], st'.disk[x]) {
            LinkedTarget(st, st', i, j, e, k, l, x);
          }
          EntryTypedFrame(st.g, st.disk, st'.disk, w, w);
        }
      }
    }
  }

  // Counts of the tables and of uncompressed clusters are not affected.
  lemma LinkedCount(st: Img, st': Img, i: nat, j: nat, e: Entry, c: nat)
    requires Inv(st) && Linked(st, st', i, j, e) && !Loose(st, c) && ActiveRefs(st, c) == 1
    ensures ActiveRefs(st', c) == 1 && RcOf(st'.rc, c) == RcOf(st.rc, c)
  {
    LinkedRefs(st, st', i, j, e, c);
    assert RcOf(st.rc, c) == Refs(st, c) + st.Blk(c);
    assert st'.Blk(c) >= st.Blk(c);
  }

  lemma LinkedTree(st: Img, st': Img, i: nat, j: nat, e: Entry)
    requires Inv(st) && Linked(st, st', i, j, e)
    ensures TreeOk(st'.g, st'.disk, st'.l1) && Flagged(st')
  {
    forall k: nat | k < |st'.l1| ensures SlotTyped(st'.g, st'.disk, st'.l1[k]) { LinkedTyped(st, st', i, j, e, k); }
    forall k: nat | k < |st'.l1| && st'.l1[k].Plain?
      ensures TreeRefs(st'.g, st'.disk, st'.l1, |st'.l1|, st'.l1[k].at) == 1
      ensures st'.l1[k].copied <==> RcOf(st'.rc, st'.l1[k].at) == 1
    {
      assert ActiveRefs(st, st.l1[k].at) == 1;
      LinkedCount(st, st', i, j, e, st.l1[k].at);
    }
    forall k: nat, l: nat | k < |st'.l1| && L2Word(st'.disk, st'.l1[k], l).Plain?
      ensures TreeRefs(st'.g, st'.disk, st'.l1, |st'.l1|, L2Word(st'.disk, st'.l1[k], l).at) == 1
      ensures L2Word(st'.disk, st'.l1[k], l).copied <==> RcOf(st'.rc, L2Word(st'.disk, st'.l1[k], l).at) == 1
    {
      LinkedWord(st, st', i, j, e, k, l);
      assert ActiveRefs(st, L2Word(st.disk, st.l1[k], l).at) == 1;
      LinkedCount(st, st', i, j, e, L2Word(st.disk, st.l1[k], l).at);
    }
  }

  lemma LinkedStored(st: Img, st': Img, i: nat, j: nat, e: Entry)
    requires Inv(st) && Linked(st, st', i, j, e)
    ensures Stored(st'.g, st'.disk, st'.l1At, st'.l1)
  {
    LinkedTable(st, st', i, j, e);
    forall x: nat | x < |st.disk| && InRun(x, st.l1At, L1Clusters(st.g, |st.l1|)) > 0
      ensures st'.disk[x] == st.disk[x]
    {
      assert RcOf(st.rc, x) == Refs(st, x) + st.Blk(x);
      assert RcOf(st.rc, x) == 1;
    }
    StoredFrame(st.g, st.disk, st'.disk, st.l1At, st.l1);
  }

  // A new compressed word keeps the invariant.
  lemma LinkedInv(st: Img, st': Img, i: nat, j: nat, e: Entry)
    requires Inv(st) && Linked(st, st', i, j, e)
    ensures Inv(st')
  {
    hide Exact, MetaOnce, TreeOk, Flagged, Stored, SavedOk;
    LinkedExact(st, st', i, j, e);
    LinkedMeta(st, st', i, j, e);
    LinkedTree(st, st', i, j, e);
    LinkedStored(st, st', i, j, e);
    LinkedSaved(st, st', i, j, e);
  }
}

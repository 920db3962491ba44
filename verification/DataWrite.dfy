// Writing guest data below an unshared L2 table: in place when the cluster is unshared,
// otherwise into a fresh cluster that takes over the sectors not written.

module DataWrite {
  import opened Basics
  import opened Arith
  import opened Layout
  import opened Refcounts
  import opened Invariant
  import opened GuestWrite

  function Patched(was: seq<Sector>, lo: nat, buf: seq<Sector>): (r: seq<Sector>)
    ensures |r| == |was|
  {
    seq<Sector>(|was|, k requires 0 <= k < |was| => if lo <= k < lo + |buf| then buf[k - lo] else was[k])
  }

  // buf as stored at sectors lo.. of the cluster at (i, j).
  function Sealed(env: Env, g: Geo, i: nat, j: nat, lo: nat, buf: seq<Sector>): (r: seq<Sector>)
    ensures |r| == |buf|
  {
    seq<Sector>(|buf|, k requires 0 <= k < |buf| => env.enc(SectorNum(g, i, j, lo + k), buf[k]))
  }

  // The new cluster at (i, j): buf where it was written, the old guest data elsewhere.
  function Content(env: Env, st: Img, i: nat, j: nat, lo: nat, buf: seq<Sector>): (r: seq<Sector>)
    ensures |r| == st.g.spc
  {
    seq<Sector>(st.g.spc, k requires 0 <= k < st.g.spc =>
      env.enc(SectorNum(st.g, i, j, k),
              if lo <= k < lo + |buf| then buf[k - lo] else TreeView(env, st.g, st.disk, st.l1, i, j, k)))
  }

  function Sectors(disk: Disk, c: nat): seq<Sector>
  {
    if c < |disk| && disk[c].Data? then disk[c].sectors else []
  }

  // Drop an L2 entry's references to its storage.
  function FreeEntry(st: Img, e: Entry): Option<Img>
  {
    match e
    case Zero => Some(st)
    case Plain(at, _) => UpdRun(st, at, 1, -1)
    case Packed(_, _, _) => if First(st.g, e) <= Past(st.g, e) then
      UpdRun(st, First(st.g, e), Past(st.g, e) - First(st.g, e), -1) else None
  }

  function WriteSlot(env: Env, st: Img, i: nat, j: nat, lo: nat, buf: seq<Sector>): Option<Img>
  {
    if i >= |st.l1| || !st.l1[i].Plain? || j >= |Ents(st.disk, st.l1[i].at)| then None
    else
      var t := st.l1[i].at;
      var e := Ents(st.disk, t)[j];
      if e.Plain? && e.copied then
        Some(st.(disk := SetBlock(st.disk, e.at,
                                  Data(Patched(Sectors(st.disk, e.at), lo, Sealed(env, st.g, i, j, lo, buf))))))
      else
        var st1 :- FreeEntry(st, e);
        var (st2, d) :- Alloc(st1, 1);
        Some(st2.(disk := SetBlock(SetBlock(st2.disk, d, Data(Content(env, st, i, j, lo, buf))),
                                   t, L2(Ents(st.disk, t)[j := Plain(d, true)]))))
  }

  // ----- replacing the cluster at (i, j) -----

  ghost predicate Replaced(st: Img, st': Img, i: nat, j: nat, d: nat)
  {
    && i < |st.l1| && st.l1[i].Plain? && st.l1[i].copied && j < |Ents(st.disk, st.l1[i].at)|
    && var t := st.l1[i].at;
    && var e := Ents(st.disk, t)[j];
    && !(e.Plain? && e.copied)
    && st' == st.(disk := st'.disk, table := st'.table, rc := st'.rc, freeIdx := st'.freeIdx)
    && |st'.disk| == |st.disk| && |st'.rc| == |st.rc| && |st'.table| == |st.table|
    && d < |st.disk| && d != t && RcOf(st.rc, d) == EntryRefs(st.g, e, d) && RcOf(st'.rc, d) == 1
    && (forall x: nat :: x < |st.disk| && x != t && x != d && st'.disk[x] != st.disk[x] ==>
          Quiet(st, x) && RcOf(st.rc, x) == 0)
    && st'.disk[t] == L2(Ents(st.disk, t)[j := Plain(d, true)])
    && st'.disk[d].Data? && |st'.disk[d].sectors| == st.g.spc
    && (forall c: nat :: st'.Blk(c) >= st.Blk(c))
    && (forall c: nat :: st'.Blk(c) > st.Blk(c) ==> RcOf(st.rc, c) == 0 && RcOf(st'.rc, c) == 1)
    && (forall c: nat :: c < |st.rc| ==>
          st'.rc[c] == st.rc[c] - EntryRefs(st.g, e, c) + B2N(c == d) + st'.Blk(c) - st.Blk(c))
    && st'.Covered()
  }

  lemma {:induction false} L2RefsAt2(g: Geo, ents: seq<Entry>, n: nat, j: nat, j2: nat, c: nat)
    requires j < j2 < n <= |ents|
    ensures L2Refs(g, ents, n, c) >= EntryRefs(g, ents[j], c) + EntryRefs(g, ents[j2], c)
  {
    if j2 < n - 1 { L2RefsAt2(g, ents, n - 1, j, j2, c); } else { L2RefsAt(g, ents, n - 1, j, c); }
  }

  // Two different words of the active tree are both counted.
  lemma WordRefs2(st: Img, i: nat, j: nat, k: nat, l: nat, x: nat)
    requires i < |st.l1| && k < |st.l1| && (i != k || j != l)
    ensures ActiveRefs(st, x) >= EntryRefs(st.g, L2Word(st.disk, st.l1[i], j), x) + EntryRefs(st.g,
        L2Word(st.disk, st.l1[k], l), x)
  {
    var g, d := st.g, st.disk;
    SlotWord(g, d, st.l1[i], j, x);
    SlotWord(g, d, st.l1[k], l, x);
    if i < k { TreeRefsAt2(g, d, st.l1, |st.l1|, i, k, x); }
    else if k < i { TreeRefsAt2(g, d, st.l1, |st.l1|, k, i, x); }
    else {
      TreeRefsAt(g, d, st.l1, |st.l1|, i, x);
      if st.l1[i].Plain? {
        var ents := Ents(d, st.l1[i].at);
        if j < |ents| && l < |ents| {
          if j < l { L2RefsAt2(g, ents, |ents|, j, l, x); } else { L2RefsAt2(g, ents, |ents|, l, j, x); }
        }
      }
    }
  }

  lemma SlotWord(g: Geo, d: Disk, e: Entry, j: nat, x: nat)
    ensures SlotRefs(g, d, e, x) >= EntryRefs(g, L2Word(d, e, j), x) + B2N(e.Plain? && e.at == x)
  {
    if e.Plain? && j < |Ents(d, e.at)| { L2RefsAt(g, Ents(d, e.at), |Ents(d, e.at)|, j, x); }
  }

  // A word and another slot's L2 table are both counted.
  lemma WordSlotRefs(st: Img, i: nat, j: nat, k: nat, x: nat)
    requires i < |st.l1| && k < |st.l1|
    ensures ActiveRefs(st, x) >= EntryRefs(st.g, L2Word(st.disk, st.l1[i], j), x) +
      B2N(st.l1[k].Plain? && st.l1[k].at == x)
  {
    SlotWord(st.g, st.disk, st.l1[i], j, x);
    if i < k { TreeRefsAt2(st.g, st.disk, st.l1, |st.l1|, i, k, x); }
    else if k < i { TreeRefsAt2(st.g, st.disk, st.l1, |st.l1|, k, i, x); }
    else { TreeRefsAt(st.g, st.disk, st.l1, |st.l1|, i, x); }
  }

  // The fresh cluster was referenced, if at all, only by the entry being replaced;
  // the L2 table is referenced only by the active tree.
  lemma ReplacedOnly(st: Img, st': Img, i: nat, j: nat, d: nat)
    requires Inv(st) && Replaced(st, st', i, j, d)
    ensures ActiveRefs(st, d) == EntryRefs(st.g, Ents(st.disk, st.l1[i].at)[j], d) && SavedRefs(st, d) == 0
    ensures ActiveRefs(st, st.l1[i].at) == 1 && SavedRefs(st, st.l1[i].at) == 0
    ensures st.Blk(d) == 0
  {
    WordRefs(st, i, j, d);
    assert RcOf(st.rc, st.l1[i].at) == 1;
  }

  lemma ReplacedApart(st: Img, st': Img, i: nat, j: nat, d: nat, k: nat, l: nat, x: nat)
    requires Inv(st) && Replaced(st, st', i, j, d) && k < |st.l1|
    ensures k != i && st.l1[k].Plain? ==> st.l1[k].at != d && st.l1[k].at != st.l1[i].at
    ensures (k != i || l != j) && EntryRefs(st.g, L2Word(st.disk, st.l1[k], l), x) > 0 ==> x != d && x != st.l1[i].at
  {
    var t := st.l1[i].at;
    ReplacedOnly(st, st', i, j, d);
    WordSlotRefs(st, i, j, k, d);
    if i < k { TreeRefsAt2(st.g, st.disk, st.l1, |st.l1|, i, k, t); }
    if k < i { TreeRefsAt2(st.g, st.disk, st.l1, |st.l1|, k, i, t); }
    if k != i || l != j { WordRefs2(st, i, j, k, l, d); }
    WordSlotRefs(st, k, l, i, t);
  }

  lemma ReplacedRefs(st: Img, st': Img, i: nat, j: nat, d: nat, c: nat)
    requires Inv(st) && Replaced(st, st', i, j, d)
    ensures ActiveRefs(st', c) == ActiveRefs(st, c) - EntryRefs(st.g, Ents(st.disk, st.l1[i].at)[j], c) + B2N(c == d)
  {
    forall k: nat | k < |st.l1| && k != i
      ensures SlotRefs(st.g, st.disk, st.l1[k], c) == SlotRefs(st.g, st'.disk, st'.l1[k], c)
    {
      ReplacedSlot(st, st', i, j, d, k);
    }
    TreeRefsUpdate(st.g, st.disk, st'.disk, st.l1, st'.l1, |st.l1|, i, c);
    var ents := Ents(st.disk, st.l1[i].at);
    L2RefsUpdate(st.g, ents, |ents|, j, Plain(d, true), c);
    TreeRefsAt(st.g, st.disk, st.l1, |st.l1|, i, c);
    L2RefsAt(st.g, ents, |ents|, j, c);
  }

  // Other slots keep their L2 table.
  lemma ReplacedSlot(st: Img, st': Img, i: nat, j: nat, d: nat, k: nat)
    requires Inv(st) && Replaced(st, st', i, j, d) && k < |st.l1| && k != i
    ensures st.l1[k].Plain? ==> st.l1[k].at < |st.disk| && st'.disk[st.l1[k].at] == st.disk[st.l1[k].at]
  {
    assert SlotTyped(st.g, st.disk, st.l1[k]);
    ReplacedApart(st, st', i, j, d, k, 0, 0);
    if st.l1[k].Plain? { TreeRefsAt(st.g, st.disk, st.l1, |st.l1|, k, st.l1[k].at); }
  }

  lemma ReplacedWord(st: Img, st': Img, i: nat, j: nat, d: nat, k: nat, l: nat)
    requires Inv(st) && Replaced(st, st', i, j, d) && k < |st.l1|
    ensures L2Word(st'.disk, st'.l1[k], l) == if k == i && l == j then Plain(d, true) else L2Word(st.disk, st.l1[k], l)
  {
    assert SlotTyped(st.g, st.disk, st.l1[k]);
    if k != i { ReplacedSlot(st, st', i, j, d, k); }
  }

  lemma ReplacedExact(st: Img, st': Img, i: nat, j: nat, d: nat)
    requires Inv(st) && Replaced(st, st', i, j, d)
    ensures Exact(st') && MetaOnce(st') && SavedOk(st')
  {
    ReplacedOnly(st, st', i, j, d);
    SavedFrame(st, st'.disk);
    forall c: nat ensures RcOf(st'.rc, c) == Refs(st', c) + st'.Blk(c) {
      ReplacedRefs(st, st', i, j, d, c);
      WordRefs(st, i, j, c);
      assert SavedRefs(st', c) == SavedRefs(st.(disk := st'.disk), c);
    }
    ReplacedMeta(st, st', i, j, d);
  }

  lemma ReplacedMeta(st: Img, st': Img, i: nat, j: nat, d: nat)
    requires Inv(st) && Replaced(st, st', i, j, d)
    ensures MetaOnce(st')
  {
    ReplacedOnly(st, st', i, j, d);
    forall c: nat | ActiveRefs(st, c) == 0 && RcOf(st.rc, c) == 1 ensures RcOf(st'.rc, c) == 1 {
      WordRefs(st, i, j, c);
    }
    forall q: nat, c: nat | q < |st.snaps| && InRun(c, st.snaps[q].l1At, L1Clusters(st.g, st.snaps[q].l1Size)) > 0
      ensures RcOf(st'.rc, c) == 1
    {
      SnapsRefsAt(st.g, st.disk, st.snaps, |st.snaps|, q, c);
    }
  }

  // Words other than (i, j) keep what they point to.
  lemma ReplacedTarget(st: Img, st': Img, i: nat, j: nat, d: nat, k: nat, l: nat, x: nat)
    requires Inv(st) && Replaced(st, st', i, j, d) && k < |st.l1| && (k != i || l != j)
    requires x < |st.disk| && EntryRefs(st.g, L2Word(st.disk, st.l1[k], l), x) > 0
    ensures st'.disk[x] == st.disk[x]
  {
    ReplacedApart(st, st', i, j, d, k, l, x);
    WordRefs(st, k, l, x);
  }

  lemma ReplacedTyped(st: Img, st': Img, i: nat, j: nat, d: nat, k: nat)
    requires Inv(st) && Replaced(st, st', i, j, d) && k < |st.l1|
    ensures SlotTyped(st'.g, st'.disk, st'.l1[k])
  {
    assert SlotTyped(st.g, st.disk, st.l1[k]);
    if k != i { ReplacedSlot(st, st', i, j, d, k); }
    var t := st.l1[k];
    if t.Plain? {
      forall l: nat | l < st.g.width ensures EntryTyped(st.g, st'.disk, st'.disk[t.at].ents[l]) {
        ReplacedWord(st, st', i, j, d, k, l);
        if k != i || l != j {
          var e := L2Word(st.disk, st.l1[k], l);
          forall x: nat | x < |st.disk| && EntryRefs(st.g, e, x) > 0 ensures Alike(st.disk[x], st'.disk[x]) {
            ReplacedTarget(st, st', i, j, d, k, l, x);
          }
          EntryTypedFrame(st.g, st.disk, st'.disk, e, e);
        }
      }
    }
  }

  // A plain word other than (i, j) shares no cluster with the entry being replaced.
  lemma ReplacedCount(st: Img, st': Img, i: nat, j: nat, d: nat, k: nat, l: nat)
    requires Inv(st) && Replaced(st, st', i, j, d) && k < |st.l1| && (k != i || l != j)
    requires L2Word(st.disk, st.l1[k], l).Plain?
    ensures var c := L2Word(st.disk, st.l1[k], l).at;
      ActiveRefs(st', c) == 1 && RcOf(st'.rc, c) == RcOf(st.rc, c)
  {
    var c := L2Word(st.disk, st.l1[k], l).at;
    assert ActiveRefs(st, c) == 1;
    WordRefs2(st, i, j, k, l, c);
    ReplacedApart(st, st', i, j, d, k, l, c);
    ReplacedRefs(st, st', i, j, d, c);
  }

  lemma ReplacedSlotCount(st: Img, st': Img, i: nat, j: nat, d: nat, k: nat)
    requires Inv(st) && Replaced(st, st', i, j, d) && k < |st.l1| && st.l1[k].Plain?
    ensures ActiveRefs(st', st.l1[k].at) == 1 && RcOf(st'.rc, st.l1[k].at) == RcOf(st.rc, st.l1[k].at)
  {
    var c := st.l1[k].at;
    assert ActiveRefs(st, c) == 1;
    WordSlotRefs(st, i, j, k, c);
    ReplacedApart(st, st', i, j, d, k, l := 0, x := 0);
    ReplacedRefs(st, st', i, j, d, c);
  }

  lemma ReplacedTree(st: Img, st': Img, i: nat, j: nat, d: nat)
    requires Inv(st) && Replaced(st, st', i, j, d)
    ensures TreeOk(st'.g, st'.disk, st'.l1) && Flagged(st')
  {
    forall k: nat | k < |st'.l1| ensures SlotTyped(st'.g, st'.disk, st'.l1[k]) {
      ReplacedTyped(st, st', i, j, d, k);
    }
    forall k: nat | k < |st'.l1| && st'.l1[k].Plain?
      ensures TreeRefs(st'.g, st'.disk, st'.l1, |st'.l1|, st'.l1[k].at) == 1
      ensures st'.l1[k].copied <==> RcOf(st'.rc, st'.l1[k].at) == 1
    {
      ReplacedSlotCount(st, st', i, j, d, k);
    }
    forall k: nat, l: nat | k < |st'.l1| && L2Word(st'.disk, st'.l1[k], l).Plain?
      ensures TreeRefs(st'.g, st'.disk, st'.l1, |st'.l1|, L2Word(st'.disk, st'.l1[k], l).at) == 1
      ensures L2Word(st'.disk, st'.l1[k], l).copied <==> RcOf(st'.rc, L2Word(st'.disk, st'.l1[k], l).at) == 1
    {
      ReplacedWord(st, st', i, j, d, k, l);
      if k == i && l == j {
        ReplacedOnly(st, st', i, j, d);
        ReplacedRefs(st, st', i, j, d, d);
      } else {
        ReplacedCount(st, st', i, j, d, k, l);
      }
    }
  }

  lemma ReplacedStored(st: Img, st': Img, i: nat, j: nat, d: nat)
    requires Inv(st) && Replaced(st, st', i, j, d)
    ensures Stored(st'.g, st'.disk, st'.l1At, st'.l1)
  {
    ReplacedOnly(st, st', i, j, d);
    forall x: nat | x < |st.disk| && InRun(x, st.l1At, L1Clusters(st.g, |st.l1|)) > 0
      ensures st'.disk[x] == st.disk[x]
    {
      assert RcOf(st.rc, x) == 1;
      WordRefs(st, i, j, x);
    }
    StoredFrame(st.g, st.disk, st'.disk, st.l1At, st.l1);
  }

  lemma ReplacedInv(st: Img, st': Img, i: nat, j: nat, d: nat)
    requires Inv(st) && Replaced(st, st', i, j, d)
    ensures Inv(st')
  {
    ReplacedExact(st, st', i, j, d);
    ReplacedTree(st, st', i, j, d);
    ReplacedStored(st, st', i, j, d);
  }

  lemma ReplacedView(env: Env, st: Img, st': Img, i: nat, j: nat, d: nat, k: nat, l: nat, s: nat)
    requires Inv(st) && Replaced(st, st', i, j, d)
    ensures TreeView(env, st.g, st'.disk, st'.l1, k, l, s) ==
      if k == i && l == j then env.dec(SectorNum(st.g, i, j, s), SectorAt(st'.disk, d, s))
      else TreeView(env, st.g, st.disk, st.l1, k, l, s)
  {
    if k < |st.l1| {
      ReplacedWord(st, st', i, j, d, k, l);
      if k != i || l != j {
        var e := L2Word(st.disk, st.l1[k], l);
        forall x: nat | x < |st.disk| && EntryRefs(st.g, e, x) > 0 ensures Same(st.disk[x], st'.disk[x]) {
          ReplacedTarget(st, st', i, j, d, k, l, x);
        }
        EntryViewFrame(env, st.g, st.disk, st'.disk, e, e, SectorNum(st.g, k, l, s), s);
      }
    }
  }

  // ----- writing in place -----

  // Only the data cluster of the unshared word (i, j) changes.
  ghost predicate Patch(st: Img, st': Img, i: nat, j: nat)
  {
    && i < |st.l1|
    && var e := L2Word(st.disk, st.l1[i], j);
    && e.Plain? && e.copied && e.at < |st.disk|
    && st' == st.(disk := st'.disk) && |st'.disk| == |st.disk|
    && Alike(st.disk[e.at], st'.disk[e.at])
    && (forall x: nat :: x < |st.disk| && x != e.at ==> st'.disk[x] == st.disk[x])
  }

  lemma PatchOnly(st: Img, st': Img, i: nat, j: nat)
    requires Inv(st) && Patch(st, st', i, j)
    ensures var c := L2Word(st.disk, st.l1[i], j).at;
      ActiveRefs(st, c) == 1 && SavedRefs(st, c) == 0 && InRun(c, st.l1At, L1Clusters(st.g, |st.l1|)) == 0
  {
    var c := L2Word(st.disk, st.l1[i], j).at;
    WordRefs(st, i, j, c);
    assert RcOf(st.rc, c) == 1;
  }

  lemma PatchWord(st: Img, st': Img, i: nat, j: nat, k: nat, l: nat)
    requires Inv(st) && Patch(st, st', i, j) && k < |st.l1|
    ensures L2Word(st'.disk, st'.l1[k], l) == L2Word(st.disk, st.l1[k], l)
  {
    PatchOnly(st, st', i, j);
    WordSlotRefs(st, i, j, k, L2Word(st.disk, st.l1[i], j).at);
    assert SlotTyped(st.g, st.disk, st.l1[k]);
  }

  lemma PatchInv(st: Img, st': Img, i: nat, j: nat)
    requires Inv(st) && Patch(st, st', i, j)
    ensures Inv(st')
  {
    PatchOnly(st, st', i, j);
    SavedFrame(st, st'.disk);
    TreeOkFrame(st.g, st.disk, st'.disk, st.l1, st.l1);
    StoredFrame(st.g, st.disk, st'.disk, st.l1At, st.l1);
    forall c: nat ensures RcOf(st'.rc, c) == Refs(st', c) + st'.Blk(c) {
      assert SavedRefs(st', c) == SavedRefs(st, c) && ActiveRefs(st', c) == ActiveRefs(st, c);
    }
    PatchFlags(st, st', i, j);
  }

  lemma PatchFlags(st: Img, st': Img, i: nat, j: nat)
    requires Inv(st) && Patch(st, st', i, j)
    ensures Flagged(st') && st'.Covered() && MetaOnce(st')
  {
    forall c: nat | c < |st'.rc| && st'.rc[c] > 0 ensures st'.HasBlock(c) { assert st.HasBlock(c); }
    assert forall c: nat :: st'.Blk(c) == st.Blk(c);
    forall k: nat, l: nat | k < |st'.l1| && L2Word(st'.disk, st'.l1[k], l).Plain?
      ensures L2Word(st'.disk, st'.l1[k], l).copied <==> RcOf(st'.rc, L2Word(st'.disk, st'.l1[k], l).at) == 1
    {
      PatchWord(st, st', i, j, k, l);
    }
  }

  lemma PatchView(env: Env, st: Img, st': Img, i: nat, j: nat, k: nat, l: nat, s: nat)
    requires Inv(st) && Patch(st, st', i, j)
    ensures TreeView(env, st.g, st'.disk, st'.l1, k, l, s) ==
      if k == i && l == j then env.dec(SectorNum(st.g, i, j, s), SectorAt(st'.disk, L2Word(st.disk, st.l1[i], j).at, s))
      else TreeView(env, st.g, st.disk, st.l1, k, l, s)
  {
    if k < |st.l1| {
      PatchWord(st, st', i, j, k, l);
      if k != i || l != j {
        PatchOnly(st, st', i, j);
        var e := L2Word(st.disk, st.l1[k], l);
        forall x: nat | x < |st.disk| && EntryRefs(st.g, e, x) > 0 ensures Same(st.disk[x], st'.disk[x]) {
          WordRefs2(st, i, j, k, l, x);
        }
        EntryViewFrame(env, st.g, st.disk, st'.disk, e, e, SectorNum(st.g, k, l, s), s);
      }
    }
  }

  // ----- from WriteSlot to Replaced and Patch -----

  lemma PastFirst(g: Geo, e: Entry)
    requires e.Packed? && e.nb > 0
    ensures First(g, e) < Past(g, e)
  {
    RowMono(g.spc, e.sec, e.sec + e.nb - 1);
  }

  lemma FreeEntrySpec(st: Img, i: nat, j: nat, e: Entry, st1: Img)
    requires Inv(st) && i < |st.l1| && e == L2Word(st.disk, st.l1[i], j) && FreeEntry(st, e) == Some(st1)
    ensures st1.Sound()
    ensures st1 == st.(rc := st1.rc, freeIdx := st1.freeIdx) && |st1.rc| == |st.rc|
    ensures forall c: nat :: c < |st.rc| ==> st1.rc[c] == st.rc[c] - EntryRefs(st.g, e, c)
  {
    assert SlotTyped(st.g, st.disk, st.l1[i]);
    if e.Zero? {
      InvSound(st);
    } else {
      var lo, n := if e.Plain? then e.at else First(st.g, e), if e.Plain? then 1 else Past(st.g, e) - First(st.g, e);
      FreeSpec(st, lo, n, st1);
      forall c: nat ensures InRun(c, lo, n) == EntryRefs(st.g, e, c) {}
      forall c: nat | lo <= c < lo + n ensures ActiveRefs(st, c) > 0 { WordRefs(st, i, j, c); }
      DropSound(st, st1, lo, n);
    }
  }

  lemma WriteSlotReplaces(env: Env, st: Img, i: nat, j: nat, lo: nat, buf: seq<Sector>, st': Img) returns (d: nat)
    requires Inv(st) && i < |st.l1| && st.l1[i].Plain? && st.l1[i].copied
    requires WriteSlot(env, st, i, j, lo, buf) == Some(st')
    requires !(L2Word(st.disk, st.l1[i], j).Plain? && L2Word(st.disk, st.l1[i], j).copied)
    ensures Replaced(st, st', i, j, d) && st'.disk[d] == Data(Content(env, st, i, j, lo, buf))
  {
    var t := st.l1[i].at;
    var e := Ents(st.disk, t)[j];
    var st1 := FreeEntry(st, e).value;
    FreeEntrySpec(st, i, j, e, st1);
    var st2 := Alloc(st1, 1).value.0;
    d := Alloc(st1, 1).value.1;
    AllocSpec(st1, 1, st2, d);
    TableKept(st, i, j);
    SwapCluster(st, i, j, e, st1, st2, d, Content(env, st, i, j, lo, buf), st');
  }

  // An unshared L2 table is referenced once, and not by its own entries.
  lemma TableKept(st: Img, i: nat, j: nat)
    requires Inv(st) && i < |st.l1| && st.l1[i].Plain? && st.l1[i].copied
    ensures RcOf(st.rc, st.l1[i].at) == 1 && EntryRefs(st.g, L2Word(st.disk, st.l1[i], j), st.l1[i].at) == 0
  {
    WordRefs(st, i, j, st.l1[i].at);
  }

  lemma SwapCluster(st: Img, i: nat, j: nat, e: Entry, st1: Img, st2: Img, d: nat, content: seq<Sector>, st': Img)
    requires Inv(st) && i < |st.l1| && st.l1[i].Plain? && st.l1[i].copied
    requires j < |Ents(st.disk, st.l1[i].at)| && e == Ents(st.disk, st.l1[i].at)[j] && !(e.Plain? && e.copied)
    requires RcOf(st.rc, st.l1[i].at) == 1 && EntryRefs(st.g, e, st.l1[i].at) == 0
    requires st1.Sound() && st1 == st.(rc := st1.rc, freeIdx := st1.freeIdx) && |st1.rc| == |st.rc|
    requires forall c: nat :: c < |st.rc| ==> st1.rc[c] == st.rc[c] - EntryRefs(st.g, e, c)
    requires Allocated(st1, st2, d, 1) && st2.Covered() && |content| == st.g.spc
    requires st' ==
      st2.(disk := SetBlock(SetBlock(st2.disk, d, Data(content)), st.l1[i].at,
                            L2(Ents(st.disk, st.l1[i].at)[j := Plain(d, true)])))
    ensures Replaced(st, st', i, j, d) && st'.disk[d] == Data(content)
  {
    ReplacedCounts(st, e, st1, st2, st', d);
  }

  lemma ReplacedCounts(st: Img, e: Entry, st1: Img, st2: Img, st': Img, d: nat)
    requires Inv(st) && st1.Sound()
    requires st1 == st.(rc := st1.rc, freeIdx := st1.freeIdx) && |st1.rc| == |st.rc|
    requires forall c: nat :: c < |st.rc| ==> st1.rc[c] == st.rc[c] - EntryRefs(st.g, e, c)
    requires Allocated(st1, st2, d, 1) && st2.Covered()
    requires st' == st2.(disk := st'.disk)
    ensures forall c: nat :: st'.Blk(c) >= st.Blk(c)
    ensures forall c: nat :: st'.Blk(c) > st.Blk(c) ==> RcOf(st.rc, c) == 0 && RcOf(st'.rc, c) == 1 && Quiet(st, c)
    ensures forall c: nat :: c < |st.rc| ==>
          st'.rc[c] == st.rc[c] - EntryRefs(st.g, e, c) + B2N(c == d) + st'.Blk(c) - st.Blk(c)
    ensures forall x: nat :: x < |st.disk| && st2.disk[x] != st.disk[x] ==> Quiet(st, x) && RcOf(st.rc, x) == 0
    ensures st'.Covered()
  {
    assert forall c: nat :: st1.Blk(c) == st.Blk(c) && st'.Blk(c) == st2.Blk(c);
    forall c: nat | st'.Blk(c) > st.Blk(c) ensures RcOf(st.rc, c) == 0 && RcOf(st'.rc, c) == 1 && Quiet(st, c) {
      assert !st1.HasBlock(c);
      assert !st.HasBlock(c);
      assert RcOf(st.rc, c) == 0;
    }
    forall c: nat | c < |st'.rc| && st'.rc[c] > 0 ensures st'.HasBlock(c) { assert st2.HasBlock(c); }
  }

  lemma WriteSlotPatches(env: Env, st: Img, i: nat, j: nat, lo: nat, buf: seq<Sector>, st': Img)
    requires Inv(st) && i < |st.l1|
    requires WriteSlot(env, st, i, j, lo, buf) == Some(st')
    requires L2Word(st.disk, st.l1[i], j).Plain? && L2Word(st.disk, st.l1[i], j).copied
    ensures Patch(st, st', i, j)
    ensures var c := L2Word(st.disk, st.l1[i], j).at;
      st'.disk[c] == Data(Patched(Sectors(st.disk, c), lo, Sealed(env, st.g, i, j, lo, buf)))
    ensures var c := L2Word(st.disk, st.l1[i], j).at;
      st.disk[c].Data? && |st.disk[c].sectors| == st.g.spc
  {
    assert SlotTyped(st.g, st.disk, st.l1[i]);
    assert EntryTyped(st.g, st.disk, L2Word(st.disk, st.l1[i], j));
  }

  // ----- one guest write within a cluster -----

  function Write(env: Env, st: Img, i: nat, j: nat, lo: nat, buf: seq<Sector>): Option<Img>
  {
    var st1 :- OwnL2(st, i);
    WriteSlot(env, st1, i, j, lo, buf)
  }

  // The guest view after writing buf at sectors lo.. of cluster (i, j).
  ghost predicate Written(env: Env, st: Img, st': Img, i: nat, j: nat, lo: nat, buf: seq<Sector>)
  {
    forall k: nat, l: nat, s: nat :: s < st.g.spc ==>
      View(env, st', k, l, s) == if k == i && l == j && lo <= s < lo + |buf| then buf[s - lo]
        else View(env, st, k, l, s)
  }

  lemma OwnL2Correct(env: Env, st: Img, i: nat, st': Img)
    requires Inv(st) && OwnL2(st, i) == Some(st')
    ensures Inv(st') && SavedKept(env, st, st') && st'.g == st.g
    ensures SameView(env, st, st')
    ensures i < |st.l1| && |st'.l1| == |st.l1| && st'.l1[i].Plain? && st'.l1[i].copied
  {
    hide Inv, OwnL2, Owned, View;
    OwnL2Spec(st, i, st');
    if st' != st {
      var n: nat :| Owned(st, st', i, n);
      OwnedKeeps(env, st, st', i, n);
    }
  }

  lemma OwnedKeeps(env: Env, st: Img, st': Img, i: nat, n: nat)
    requires Inv(st) && Owned(st, st', i, n)
    ensures Inv(st') && SavedKept(env, st, st') && st'.g == st.g && SameView(env, st, st')
  {
    OwnedInv(st, st', i, n);
    SavedViews(env, st, st');
    forall k: nat, l: nat, s: nat ensures View(env, st', k, l, s) == View(env, st, k, l, s) {
      OwnedView(env, st, st', i, n, k, l, s);
    }
  }

  lemma ContentRead(env: Env, st: Img, i: nat, j: nat, lo: nat, buf: seq<Sector>, s: nat)
    requires env.Lawful() && s < st.g.spc
    ensures env.dec(SectorNum(st.g, i, j, s), Content(env, st, i, j, lo, buf)[s]) ==
      if lo <= s < lo + |buf| then buf[s - lo] else View(env, st, i, j, s)
  {
  }

  lemma ReplaceWritten(env: Env, st: Img, i: nat, j: nat, lo: nat, buf: seq<Sector>, st': Img, d: nat)
    requires Inv(st) && env.Lawful() && Replaced(st, st', i, j, d)
    requires st'.disk[d] == Data(Content(env, st, i, j, lo, buf))
    ensures Written(env, st, st', i, j, lo, buf)
  {
    forall k: nat, l: nat, s: nat | s < st.g.spc
      ensures View(env, st', k, l, s) == if k == i && l == j && lo <= s < lo + |buf| then buf[s - lo]
        else View(env, st, k, l, s)
    {
      ReplacedView(env, st, st', i, j, d, k, l, s);
      ContentRead(env, st, i, j, lo, buf, s);
    }
  }

  lemma ReplaceCorrect(env: Env, st: Img, i: nat, j: nat, lo: nat, buf: seq<Sector>, st': Img)
    requires Inv(st) && env.Lawful() && i < |st.l1| && st.l1[i].Plain? && st.l1[i].copied
    requires WriteSlot(env, st, i, j, lo, buf) == Some(st')
    requires !(L2Word(st.disk, st.l1[i], j).Plain? && L2Word(st.disk, st.l1[i], j).copied)
    ensures Inv(st') && SavedKept(env, st, st') && st'.g == st.g && |st'.l1| == |st.l1|
    ensures Written(env, st, st', i, j, lo, buf)
  {
    var d := WriteSlotReplaces(env, st, i, j, lo, buf, st');
    ReplacedInv(st, st', i, j, d);
    ReplacedOnly(st, st', i, j, d);
    SavedViews(env, st, st');
    ReplaceWritten(env, st, i, j, lo, buf, st', d);
  }

  lemma PatchedRead(env: Env, g: Geo, was: seq<Sector>, i: nat, j: nat, lo: nat, buf: seq<Sector>, s: nat)
    requires env.Lawful() && s < |was|
    ensures env.dec(SectorNum(g, i, j, s), Patched(was, lo, Sealed(env, g, i, j, lo, buf))[s]) ==
      if lo <= s < lo + |buf| then buf[s - lo] else env.dec(SectorNum(g, i, j, s), was[s])
  {
    if lo <= s < lo + |buf| { assert lo + (s - lo) == s; }
  }

  lemma PatchWritten(env: Env, st: Img, i: nat, j: nat, lo: nat, buf: seq<Sector>, st': Img)
    requires Inv(st) && env.Lawful() && Patch(st, st', i, j)
    requires var c := L2Word(st.disk, st.l1[i], j).at;
      st.disk[c].Data? && |st.disk[c].sectors| == st.g.spc &&
      st'.disk[c] == Data(Patched(st.disk[c].sectors, lo, Sealed(env, st.g, i, j, lo, buf)))
    ensures Written(env, st, st', i, j, lo, buf)
  {
    var c := L2Word(st.disk, st.l1[i], j).at;
    forall k: nat, l: nat, s: nat | s < st.g.spc
      ensures View(env, st', k, l, s) == if k == i && l == j && lo <= s < lo + |buf| then buf[s - lo]
        else View(env, st, k, l, s)
    {
      PatchView(env, st, st', i, j, k, l, s);
      PatchedRead(env, st.g, st.disk[c].sectors, i, j, lo, buf, s);
    }
  }

  lemma PatchCorrect(env: Env, st: Img, i: nat, j: nat, lo: nat, buf: seq<Sector>, st': Img)
    requires Inv(st) && env.Lawful() && i < |st.l1|
    requires WriteSlot(env, st, i, j, lo, buf) == Some(st')
    requires L2Word(st.disk, st.l1[i], j).Plain? && L2Word(st.disk, st.l1[i], j).copied
    ensures Inv(st') && SavedKept(env, st, st') && st'.g == st.g && |st'.l1| == |st.l1|
    ensures Written(env, st, st', i, j, lo, buf)
  {
    WriteSlotPatches(env, st, i, j, lo, buf, st');
    PatchInv(st, st', i, j);
    PatchOnly(st, st', i, j);
    SavedViews(env, st, st');
    PatchWritten(env, st, i, j, lo, buf, st');
  }

  lemma WrittenAfter(env: Env, st: Img, st1: Img, st': Img, i: nat, j: nat, lo: nat, buf: seq<Sector>)
    requires SameView(env, st, st1) && st1.g == st.g && Written(env, st1, st', i, j, lo, buf)
    ensures Written(env, st, st', i, j, lo, buf)
  {
  }

  // A guest write changes exactly the written sectors of the active view, no snapshot, and keeps the invariant.
  lemma WriteCorrect(env: Env, st: Img, i: nat, j: nat, lo: nat, buf: seq<Sector>, st': Img)
    requires Inv(st) && env.Lawful() && Write(env, st, i, j, lo, buf) == Some(st')
    ensures Inv(st') && SavedKept(env, st, st') && st'.g == st.g && |st'.l1| == |st.l1|
    ensures Written(env, st, st', i, j, lo, buf)
  {
    var st1 := OwnL2(st, i).value;
    OwnL2Correct(env, st, i, st1);
    var e := L2Word(st1.disk, st1.l1[i], j);
    if e.Plain? && e.copied { PatchCorrect(env, st1, i, j, lo, buf, st'); }
    else { ReplaceCorrect(env, st1, i, j, lo, buf, st'); }
    SavedKeptTrans(env, st, st1, st');
    WrittenAfter(env, st, st1, st', i, j, lo, buf);
  }
}

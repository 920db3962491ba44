// update_snapshot_refcount: walk a whole tree, add `a` to every count it references and
// recompute the COPIED flags.

module Walk {
  import opened Basics
  import opened Layout
  import opened Refcounts
  import opened Invariant
  import opened GuestWrite

  function Times(a: int, n: int): int
  {
    if a == 0 then 0 else if a > 0 then n else -n
  }

  // Count `a` more references to cluster c; with a = 0 nothing is written.
  function Adjust(st: Img, c: nat, a: int): Option<Img>
  {
    if a == 0 then Some(st) else Upd(st, c, a)
  }

  function AdjustRun(st: Img, lo: nat, n: nat, a: int): Option<Img>
  {
    if a == 0 then Some(st) else UpdRun(st, lo, n, a)
  }

  function WalkEntry(st: Img, e: Entry, a: int): Option<(Img, Entry)>
  {
    match e
    case Zero => Some((st, Zero))
    case Plain(at, _) =>
      var st1 :- Adjust(st, at, a);
      Some((st1, Plain(at, RcOf(st1.rc, at) == 1)))
    case Packed(_, _, _) =>
      if Past(st.g, e) < First(st.g, e) then None else
      var st1 :- AdjustRun(st, First(st.g, e), Past(st.g, e) - First(st.g, e), a);
      Some((st1, e))
  }

  function WalkL2(st: Img, ents: seq<Entry>, j: nat, a: int): Option<(Img, seq<Entry>)>
    decreases |ents| - j
  {
    if j >= |ents| then Some((st, ents))
    else
      var (st1, e) :- WalkEntry(st, ents[j], a);
      WalkL2(st1, ents[j := e], j + 1, a)
  }

  function WalkSlot(st: Img, e: Entry, a: int): Option<(Img, Entry)>
  {
    match e
    case Zero => Some((st, Zero))
    case Packed(_, _, _) => None
    case Plain(at, _) =>
      var (st1, ents) :- WalkL2(st, Ents(st.disk, at), 0, a);
      var st2 := st1.(disk := SetBlock(st1.disk, at, L2(ents)));
      var st3 :- Adjust(st2, at, a);
      Some((st3, Plain(at, RcOf(st3.rc, at) == 1)))
  }

  function WalkL1(st: Img, l1: seq<Entry>, i: nat, a: int): Option<(Img, seq<Entry>)>
    decreases |l1| - i
  {
    if i >= |l1| then Some((st, l1))
    else
      var (st1, e) :- WalkSlot(st, l1[i], a);
      WalkL1(st1, l1[i := e], i + 1, a)
  }

  // ----- counting -----

  // st' is st with every count c changed by Times(a, n(c)), where n is described by the caller.
  ghost predicate Counted(st: Img, st': Img)
  {
    st' == st.(rc := st'.rc, freeIdx := st'.freeIdx) && |st'.rc| == |st.rc|
  }

  lemma AdjustSpec(st: Img, c: nat, a: int, st': Img)
    requires -1 <= a <= 1 && st.HasBlock(c) && Adjust(st, c, a) == Some(st')
    ensures Counted(st, st')
    ensures forall x: nat :: x < |st.rc| ==> st'.rc[x] == st.rc[x] + Times(a, B2N(x == c))
  {
  }

  lemma {:induction false} AdjustRunSpec(st: Img, lo: nat, n: nat, a: int, st': Img)
    requires -1 <= a <= 1 && AdjustRun(st, lo, n, a) == Some(st')
    requires forall c: nat :: lo <= c < lo + n ==> st.HasBlock(c)
    ensures Counted(st, st')
    ensures forall x: nat :: x < |st.rc| ==> st'.rc[x] == st.rc[x] + Times(a, InRun(x, lo, n))
    decreases n
  {
    if n > 0 && a != 0 {
      assert st.HasBlock(lo);
      var st1 := Upd(st, lo, a).value;
      forall c: nat | lo + 1 <= c < lo + n ensures st1.HasBlock(c) { assert st.HasBlock(c); }
      AdjustRunSpec(st1, lo + 1, n - 1, a, st');
    }
  }

  lemma WalkEntrySpec(st: Img, e: Entry, a: int, st': Img, e': Entry)
    requires -1 <= a <= 1 && WalkEntry(st, e, a) == Some((st', e'))
    requires forall c: nat :: EntryRefs(st.g, e, c) > 0 ==> st.HasBlock(c)
    ensures Counted(st, st') && Strip(e) == Strip(e')
    ensures forall c: nat :: c < |st.rc| ==> st'.rc[c] == st.rc[c] + Times(a, EntryRefs(st.g, e, c))
    ensures e'.Plain? ==> (e'.copied <==> RcOf(st'.rc, e'.at) == 1)
  {
    match e
    case Zero =>
    case Plain(at, _) =>
      assert EntryRefs(st.g, e, at) > 0;
      AdjustSpec(st, at, a, st');
    case Packed(_, _, _) =>
      var lo, n := First(st.g, e), Past(st.g, e) - First(st.g, e);
      forall c: nat | lo <= c < lo + n ensures st.HasBlock(c) { assert EntryRefs(st.g, e, c) > 0; }
      AdjustRunSpec(st, lo, n, a, st');
  }

  // ----- one L2 table -----

  ghost predicate EntsCovered(st: Img, ents: seq<Entry>)
  {
    forall j: nat, c: nat :: j < |ents| && EntryRefs(st.g, ents[j], c) > 0 ==> st.HasBlock(c)
  }

  // The uncompressed entries name distinct clusters.
  ghost predicate EntsSimple(g: Geo, ents: seq<Entry>)
  {
    forall j: nat :: j < |ents| && ents[j].Plain? ==> L2Refs(g, ents, |ents|, ents[j].at) == 1
  }

  ghost predicate EntFlag(st: Img, e: Entry)
  {
    e.Plain? ==> (e.copied <==> RcOf(st.rc, e.at) == 1)
  }

  lemma {:induction false} L2RefsSplit(g: Geo, ents: seq<Entry>, j: nat, n: nat, c: nat)
    requires j < n <= |ents|
    ensures L2Refs(g, ents, n, c) >= L2Refs(g, ents, j, c) + EntryRefs(g, ents[j], c)
  {
    if j < n - 1 { L2RefsSplit(g, ents, j, n - 1, c); }
  }

  lemma StepEnts(st: Img, ents: seq<Entry>, j: nat, e: Entry, st1: Img)
    requires j < |ents| && Strip(e) == Strip(ents[j]) && Counted(st, st1)
    requires EntsCovered(st, ents) && EntsSimple(st.g, ents)
    ensures EntsCovered(st1, ents[j := e]) && EntsSimple(st.g, ents[j := e])
    ensures forall n: nat, c: nat :: n <= |ents| ==> L2Refs(st.g, ents[j := e], n, c) == L2Refs(st.g, ents, n, c)
  {
    var ents1 := ents[j := e];
    forall n: nat, c: nat | n <= |ents| ensures L2Refs(st.g, ents1, n, c) == L2Refs(st.g, ents, n, c) {
      L2RefsSame(st.g, ents, ents1, n, c);
    }
    forall k: nat, c: nat | k < |ents1| && EntryRefs(st1.g, ents1[k], c) > 0 ensures st1.HasBlock(c) {
      assert EntryRefs(st.g, ents[k], c) > 0;
      assert st.HasBlock(c);
    }
    forall k: nat | k < |ents1| && ents1[k].Plain? ensures L2Refs(st.g, ents1, |ents1|, ents1[k].at) == 1 {
      assert Strip(ents1[k]) == Strip(ents[k]);
    }
  }

  lemma EntsCoveredAt(st: Img, ents: seq<Entry>, j: nat)
    requires j < |ents| && EntsCovered(st, ents)
    ensures forall c: nat :: EntryRefs(st.g, ents[j], c) > 0 ==> st.HasBlock(c)
  {
  }

  lemma TimesSum(a: int, m: int, n: int)
    ensures Times(a, m) + Times(a, n) == Times(a, m + n)
  {
  }

  lemma L2RefsNext(g: Geo, ents: seq<Entry>, j: nat, c: nat)
    requires j < |ents|
    ensures L2Refs(g, ents, j + 1, c) == L2Refs(g, ents, j, c) + EntryRefs(g, ents[j], c)
  {
  }

  // The rest of the table does not refer to the cluster of a plain entry again.
  lemma EntSettled(st: Img, ents: seq<Entry>, j: nat, a: int, st1: Img, ents1: seq<Entry>, st': Img, e: Entry)
    requires j < |ents| == |ents1| && EntsSimple(st.g, ents) && |st'.rc| == |st1.rc| && e.Plain?
    requires Strip(e) == Strip(ents[j])
    requires forall n: nat, c: nat :: n <= |ents| ==> L2Refs(st.g, ents1, n, c) == L2Refs(st.g, ents, n, c)
    requires forall c: nat :: c < |st1.rc| ==>
      st'.rc[c] == st1.rc[c] + Times(a, L2Refs(st.g, ents1, |ents1|, c) - L2Refs(st.g, ents1, j + 1, c))
    ensures RcOf(st'.rc, e.at) == RcOf(st1.rc, e.at)
  {
    L2RefsSplit(st.g, ents, j, |ents|, e.at);
    assert L2Refs(st.g, ents, |ents|, e.at) == 1;
    assert L2Refs(st.g, ents1, j + 1, e.at) == L2Refs(st.g, ents, j, e.at) + EntryRefs(st.g, ents[j], e.at);
  }

  lemma {:induction false} WalkL2Spec(st: Img, ents: seq<Entry>, j: nat, a: int, st': Img, ents': seq<Entry>)
    requires -1 <= a <= 1 && j <= |ents| && WalkL2(st, ents, j, a) == Some((st', ents'))
    requires EntsCovered(st, ents) && EntsSimple(st.g, ents)
    ensures Counted(st, st') && SameEnts(ents, ents')
    ensures forall c: nat :: c < |st.rc| ==>
      st'.rc[c] == st.rc[c] + Times(a, L2Refs(st.g, ents, |ents|, c) - L2Refs(st.g, ents, j, c))
    ensures forall k: nat :: k < j ==> ents'[k] == ents[k]
    ensures forall k: nat :: j <= k < |ents| ==> EntFlag(st', ents'[k])
    decreases |ents| - j
  {
    hide WalkEntry, EntsCovered, EntsSimple, L2Refs, EntryRefs;
    if j < |ents| {
      var (st1, e) := WalkEntry(st, ents[j], a).value;
      EntsCoveredAt(st, ents, j);
      WalkEntrySpec(st, ents[j], a, st1, e);
      StepEnts(st, ents, j, e, st1);
      WalkL2Spec(st1, ents[j := e], j + 1, a, st', ents');
      forall c: nat | c < |st.rc|
        ensures st'.rc[c] == st.rc[c] + Times(a, L2Refs(st.g, ents, |ents|, c) - L2Refs(st.g, ents, j, c))
      {
        L2RefsNext(st.g, ents, j, c);
        TimesSum(a, EntryRefs(st.g, ents[j], c), L2Refs(st.g, ents, |ents|, c) - L2Refs(st.g, ents, j + 1, c));
      }
      assert ents'[j] == e;
      if e.Plain? { EntSettled(st, ents, j, a, st1, ents[j := e], st', e); }
    }
  }

  // ----- one L1 slot -----

  // Flags of slot e and of the table it points to agree with the counts.
  ghost predicate SlotFlag(st: Img, e: Entry)
  {
    EntFlag(st, e) && (e.Plain? ==> forall j: nat :: j < |Ents(st.disk, e.at)| ==> EntFlag(st, Ents(st.disk, e.at)[j]))
  }

  // Everything slot e refers to uncompressed, it refers to once.
  ghost predicate SlotSimple(g: Geo, disk: Disk, e: Entry)
  {
    e.Plain? ==>
      && SlotRefs(g, disk, e, e.at) == 1
      && forall j: nat :: j < |Ents(disk, e.at)| && Ents(disk, e.at)[j].Plain? ==>
         SlotRefs(g, disk, e, Ents(disk, e.at)[j].at) == 1
  }

  lemma SlotSimpleEnts(g: Geo, disk: Disk, e: Entry)
    requires e.Plain? && SlotSimple(g, disk, e)
    ensures EntsSimple(g, Ents(disk, e.at))
    ensures L2Refs(g, Ents(disk, e.at), |Ents(disk, e.at)|, e.at) == 0
    ensures forall j: nat :: j < |Ents(disk, e.at)| && Ents(disk, e.at)[j].Plain? ==> Ents(disk, e.at)[j].at != e.at
  {
    var ents := Ents(disk, e.at);
    forall j: nat | j < |ents| && ents[j].Plain?
      ensures L2Refs(g, ents, |ents|, ents[j].at) == 1 && ents[j].at != e.at
    {
      L2RefsAt(g, ents, |ents|, j, ents[j].at);
      assert SlotRefs(g, disk, e, ents[j].at) == 1;
    }
  }

  lemma WalkSlotSpec(st: Img, e: Entry, a: int, st': Img, e': Entry)
    requires -1 <= a <= 1 && WalkSlot(st, e, a) == Some((st', e'))
    requires SlotTyped(st.g, st.disk, e) && SlotSimple(st.g, st.disk, e)
    requires forall c: nat :: SlotRefs(st.g, st.disk, e, c) > 0 ==> st.HasBlock(c)
    ensures st' == st.(disk := st'.disk, rc := st'.rc, freeIdx := st'.freeIdx) && |st'.rc| == |st.rc|
    ensures |st'.disk| == |st.disk|
    ensures Strip(e) == Strip(e')
    ensures forall c: nat :: c < |st.rc| ==> st'.rc[c] == st.rc[c] + Times(a, SlotRefs(st.g, st.disk, e, c))
    ensures forall x: nat :: x < |st.disk| && !(e.Plain? && x == e.at) ==> st'.disk[x] == st.disk[x]
    ensures e.Plain? ==> Same(st.disk[e.at], st'.disk[e.at])
    ensures SlotFlag(st', e')
  {
    if e.Plain? {
      var at := e.at;
      var ents := Ents(st.disk, at);
      var (st1, ents1) := WalkL2(st, ents, 0, a).value;
      SlotSimpleEnts(st.g, st.disk, e);
      forall j: nat, c: nat | j < |ents| && EntryRefs(st.g, ents[j], c) > 0 ensures st.HasBlock(c) {
        L2RefsAt(st.g, ents, |ents|, j, c);
        assert SlotRefs(st.g, st.disk, e, c) > 0;
      }
      WalkL2Spec(st, ents, 0, a, st1, ents1);
      var st2 := st1.(disk := SetBlock(st1.disk, at, L2(ents1)));
      assert SlotRefs(st.g, st.disk, e, at) > 0;
      assert st2.HasBlock(at);
      AdjustSpec(st2, at, a, st');
      forall j: nat | j < |ents1| ensures EntFlag(st', ents1[j]) {
        assert EntFlag(st1, ents1[j]);
        assert Strip(ents1[j]) == Strip(ents[j]);
      }
    }
  }

  // ----- the whole tree -----

  ghost predicate TreeCovered(st: Img, l1: seq<Entry>)
  {
    forall c: nat :: TreeRefs(st.g, st.disk, l1, |l1|, c) > 0 ==> st.HasBlock(c)
  }

  lemma {:induction false} TreeRefsSplit(g: Geo, d: Disk, l1: seq<Entry>, i: nat, n: nat, c: nat)
    requires i < n <= |l1|
    ensures TreeRefs(g, d, l1, n, c) >= TreeRefs(g, d, l1, i, c) + SlotRefs(g, d, l1[i], c)
  {
    if i < n - 1 { TreeRefsSplit(g, d, l1, i, n - 1, c); }
  }

  lemma TreeSlotSimple(g: Geo, d: Disk, l1: seq<Entry>, i: nat)
    requires TreeOk(g, d, l1) && i < |l1|
    ensures SlotSimple(g, d, l1[i])
    ensures l1[i].Plain? ==> forall k: nat :: k < |l1| && k != i && l1[k].Plain? ==> l1[k].at != l1[i].at
  {
    var e := l1[i];
    if e.Plain? {
      TreeRefsAt(g, d, l1, |l1|, i, e.at);
      forall j: nat | j < |Ents(d, e.at)| && Ents(d, e.at)[j].Plain?
        ensures SlotRefs(g, d, e, Ents(d, e.at)[j].at) == 1
      {
        var c := L2Word(d, e, j).at;
        assert TreeRefs(g, d, l1, |l1|, c) == 1;
        TreeRefsAt(g, d, l1, |l1|, i, c);
        L2RefsAt(g, Ents(d, e.at), |Ents(d, e.at)|, j, c);
      }
      forall k: nat | k < |l1| && k != i && l1[k].Plain? ensures l1[k].at != e.at {
        if k < i { TreeRefsAt2(g, d, l1, |l1|, k, i, e.at); } else { TreeRefsAt2(g, d, l1, |l1|, i, k, e.at); }
      }
    }
  }

  // Processing slot i leaves the tree well formed and its references unchanged.
  lemma StepTree(st: Img, l1: seq<Entry>, i: nat, a: int, st1: Img, e: Entry)
    requires -1 <= a <= 1 && i < |l1| && WalkSlot(st, l1[i], a) == Some((st1, e))
    requires TreeOk(st.g, st.disk, l1) && TreeCovered(st, l1)
    ensures TreeOk(st.g, st1.disk, l1[i := e]) && TreeCovered(st1, l1[i := e])
    ensures forall n: nat, c: nat :: n <= |l1| ==>
      TreeRefs(st.g, st1.disk, l1[i := e], n, c) == TreeRefs(st.g, st.disk, l1, n, c)
    ensures st1 == st.(disk := st1.disk, rc := st1.rc, freeIdx := st1.freeIdx) && |st1.rc| == |st.rc|
    ensures |st1.disk| == |st.disk|
    ensures forall c: nat :: c < |st.rc| ==> st1.rc[c] == st.rc[c] + Times(a, SlotRefs(st.g, st.disk, l1[i], c))
    ensures forall x: nat :: x < |st.disk| && !(l1[i].Plain? && x == l1[i].at) ==> st1.disk[x] == st.disk[x]
    ensures forall x: nat :: x < |st.disk| ==> Same(st.disk[x], st1.disk[x])
    ensures Strip(e) == Strip(l1[i]) && SlotFlag(st1, e)
  {
    TreeSlotSimple(st.g, st.disk, l1, i);
    forall c: nat | SlotRefs(st.g, st.disk, l1[i], c) > 0 ensures st.HasBlock(c) {
      TreeRefsAt(st.g, st.disk, l1, |l1|, i, c);
    }
    WalkSlotSpec(st, l1[i], a, st1, e);
    TreeOkFrame(st.g, st.disk, st1.disk, l1, l1[i := e]);
    forall n: nat, c: nat | n <= |l1|
      ensures TreeRefs(st.g, st1.disk, l1[i := e], n, c) == TreeRefs(st.g, st.disk, l1, n, c)
    {
      TreeFrame(st.g, st.disk, st1.disk, l1, l1[i := e], n, c);
    }
    forall c: nat | TreeRefs(st.g, st1.disk, l1[i := e], |l1|, c) > 0 ensures st1.HasBlock(c) { assert st.HasBlock(c); }
  }

  // The rest of the walk does not disturb slot i.
  lemma SlotSettled(st1: Img, l1: seq<Entry>, i: nat, st': Img)
    requires i < |l1| && TreeOk(st1.g, st1.disk, l1) && SlotFlag(st1, l1[i]) && |st'.disk| == |st1.disk|
    requires l1[i].Plain? && l1[i].at < |st1.disk| ==> st'.disk[l1[i].at] == st1.disk[l1[i].at]
    requires forall c: nat ::
               TreeRefs(st1.g, st1.disk, l1, |l1|, c) == 1 && SlotRefs(st1.g, st1.disk, l1[i], c) >= 1
               ==> RcOf(st'.rc, c) == RcOf(st1.rc, c)
    ensures SlotFlag(st', l1[i])
  {
    var e := l1[i];
    if e.Plain? {
      assert SlotRefs(st1.g, st1.disk, e, e.at) >= 1;
      var ents := Ents(st1.disk, e.at);
      assert Ents(st'.disk, e.at) == ents;
      forall j: nat | j < |ents| ensures EntFlag(st', ents[j]) {
        assert EntFlag(st1, ents[j]);
        if ents[j].Plain? {
          assert L2Word(st1.disk, e, j) == ents[j];
          L2RefsAt(st1.g, ents, |ents|, j, ents[j].at);
          assert SlotRefs(st1.g, st1.disk, e, ents[j].at) >= 1;
        }
      }
    }
  }

  ghost predicate InTail(l1: seq<Entry>, i: nat, x: nat)
  {
    exists k: nat :: i <= k < |l1| && l1[k].Plain? && l1[k].at == x
  }

  ghost predicate WalkedTables(st: Img, l1: seq<Entry>, i: nat, st': Img, l1': seq<Entry>)
  {
    && st' == st.(disk := st'.disk, rc := st'.rc, freeIdx := st'.freeIdx) && |st'.rc| == |st.rc|
    && |st'.disk| == |st.disk|
    && SameEnts(l1, l1') && (forall k: nat :: k < i <= |l1| ==> l1'[k] == l1[k])
    && (forall x: nat :: x < |st.disk| ==> Same(st.disk[x], st'.disk[x]))
    && (forall x: nat :: x < |st.disk| && !InTail(l1, i, x) ==> st'.disk[x] == st.disk[x])
  }

  ghost predicate WalkedCounts(st: Img, l1: seq<Entry>, i: nat, a: int, st': Img, l1': seq<Entry>)
    requires i <= |l1| == |l1'| && |st'.rc| == |st.rc|
  {
    && (forall c: nat :: c < |st.rc| ==>
          st'.rc[c] == st.rc[c] + Times(a, TreeRefs(st.g, st.disk, l1, |l1|, c) - TreeRefs(st.g, st.disk, l1, i, c)))
    && (forall k: nat :: i <= k < |l1| ==> SlotFlag(st', l1'[k]))
  }

  // The walk from slot i on: contents (only COPIED flags change), counts and flags.
  ghost predicate Walked(st: Img, l1: seq<Entry>, i: nat, a: int, st': Img, l1': seq<Entry>)
    requires i <= |l1|
  {
    WalkedTables(st, l1, i, st', l1') && WalkedCounts(st, l1, i, a, st', l1')
  }

  lemma SameTrans(a: Block, b: Block, c: Block)
    requires Same(a, b) && Same(b, c)
    ensures Same(a, c)
  {
  }

  lemma WalkStepFlag(st1: Img, l11: seq<Entry>, i: nat, a: int, st': Img, l1': seq<Entry>)
    requires i < |l11| && TreeOk(st1.g, st1.disk, l11) && SlotFlag(st1, l11[i])
    requires Walked(st1, l11, i + 1, a, st', l1')
    ensures SlotFlag(st', l1'[i])
  {
    forall c: nat | TreeRefs(st1.g, st1.disk, l11, |l11|, c) == 1 && SlotRefs(st1.g, st1.disk, l11[i], c) >= 1
      ensures RcOf(st'.rc, c) == RcOf(st1.rc, c)
    {
      TreeRefsSplit(st1.g, st1.disk, l11, i, |l11|, c);
    }
    TreeSlotSimple(st1.g, st1.disk, l11, i);
    SlotSettled(st1, l11, i, st');
  }

  lemma WalkStepTables(st: Img, l1: seq<Entry>, i: nat, a: int, st1: Img, e: Entry, st': Img, l1': seq<Entry>)
    requires -1 <= a <= 1 && i < |l1| && WalkSlot(st, l1[i], a) == Some((st1, e))
    requires TreeOk(st.g, st.disk, l1) && TreeCovered(st, l1)
    requires WalkedTables(st1, l1[i := e], i + 1, st', l1')
    ensures WalkedTables(st, l1, i, st', l1')
  {
    StepTree(st, l1, i, a, st1, e);
    WalkStepDisk(st, l1, i, st1, l1[i := e], st');
  }

  // What one slot adds to the count of cluster c, in terms of the tree's references.
  ghost predicate StepRefs(st: Img, l1: seq<Entry>, i: nat, a: int, st1: Img, l11: seq<Entry>, c: nat)
    requires i < |l1| == |l11| && |st1.rc| == |st.rc|
  {
    c < |st.rc| ==>
      && st1.rc[c] == st.rc[c] + Times(a, SlotRefs(st.g, st.disk, l1[i], c))
      && TreeRefs(st1.g, st1.disk, l11, |l11|, c) == TreeRefs(st.g, st.disk, l1, |l1|, c)
      && TreeRefs(st1.g, st1.disk, l11, i + 1, c) == TreeRefs(st.g, st.disk, l1, i, c) +
         SlotRefs(st.g, st.disk, l1[i], c)
  }

  lemma StepRefsAll(st: Img, l1: seq<Entry>, i: nat, a: int, st1: Img, e: Entry, l11: seq<Entry>)
    requires -1 <= a <= 1 && i < |l1| && WalkSlot(st, l1[i], a) == Some((st1, e)) && l11 == l1[i := e]
    requires TreeOk(st.g, st.disk, l1) && TreeCovered(st, l1)
    ensures |st1.rc| == |st.rc| && forall c: nat :: StepRefs(st, l1, i, a, st1, l11, c)
  {
    StepTree(st, l1, i, a, st1, e);
    forall c: nat ensures StepRefs(st, l1, i, a, st1, l11, c) {
      assert TreeRefs(st.g, st1.disk, l11, i + 1, c) == TreeRefs(st.g, st.disk, l1, i + 1, c);
    }
  }

  lemma WalkStepRc(st: Img, l1: seq<Entry>, i: nat, a: int, st1: Img, l11: seq<Entry>, st': Img, l1': seq<Entry>)
    requires i < |l1| == |l11| == |l1'| && |st'.rc| == |st1.rc| == |st.rc|
    requires forall c: nat :: StepRefs(st, l1, i, a, st1, l11, c)
    requires WalkedCounts(st1, l11, i + 1, a, st', l1')
    ensures forall c: nat :: c < |st.rc| ==>
      st'.rc[c] == st.rc[c] + Times(a, TreeRefs(st.g, st.disk, l1, |l1|, c) - TreeRefs(st.g, st.disk, l1, i, c))
  {
    forall c: nat | c < |st.rc|
      ensures st'.rc[c] == st.rc[c] + Times(a, TreeRefs(st.g, st.disk, l1, |l1|, c) - TreeRefs(st.g, st.disk, l1, i, c))
    {
      assert StepRefs(st, l1, i, a, st1, l11, c);
    }
  }

  lemma WalkStepFlags(st: Img, l1: seq<Entry>, i: nat, a: int, st1: Img, e: Entry, st': Img, l1': seq<Entry>)
    requires -1 <= a <= 1 && i < |l1| && WalkSlot(st, l1[i], a) == Some((st1, e))
    requires TreeOk(st.g, st.disk, l1) && TreeCovered(st, l1)
    requires Walked(st1, l1[i := e], i + 1, a, st', l1')
    ensures forall k: nat :: i <= k < |l1| ==> SlotFlag(st', l1'[k])
  {
    StepTree(st, l1, i, a, st1, e);
    WalkStepFlag(st1, l1[i := e], i, a, st', l1');
  }

  lemma WalkStepDisk(st: Img, l1: seq<Entry>, i: nat, st1: Img, l11: seq<Entry>, st': Img)
    requires i < |l1| && |l11| == |l1| && |st1.disk| == |st.disk| == |st'.disk|
    requires SameEnts(l1, l11)
    requires forall x: nat :: x < |st.disk| && !(l1[i].Plain? && x == l1[i].at) ==> st1.disk[x] == st.disk[x]
    requires forall x: nat :: x < |st.disk| ==> Same(st.disk[x], st1.disk[x]) && Same(st1.disk[x], st'.disk[x])
    requires forall x: nat :: x < |st.disk| && !InTail(l11, i + 1, x) ==> st'.disk[x] == st1.disk[x]
    ensures forall x: nat :: x < |st.disk| ==> Same(st.disk[x], st'.disk[x])
    ensures forall x: nat :: x < |st.disk| && !InTail(l1, i, x) ==> st'.disk[x] == st.disk[x]
  {
    forall x: nat | x < |st.disk|
      ensures Same(st.disk[x], st'.disk[x])
    {
      SameTrans(st.disk[x], st1.disk[x], st'.disk[x]);
    }
    forall x: nat | InTail(l11, i + 1, x) ensures InTail(l1, i, x) {
      var k: nat :| i + 1 <= k < |l11| && l11[k].Plain? && l11[k].at == x;
      assert Strip(l1[k]) == Strip(l11[k]);
    }
    assert l1[i].Plain? ==> InTail(l1, i, l1[i].at);
  }

  lemma {:induction false} WalkL1Spec(st: Img, l1: seq<Entry>, i: nat, a: int, st': Img, l1': seq<Entry>)
    requires -1 <= a <= 1 && i <= |l1| && WalkL1(st, l1, i, a) == Some((st', l1'))
    requires TreeOk(st.g, st.disk, l1) && TreeCovered(st, l1)
    ensures Walked(st, l1, i, a, st', l1')
    decreases |l1| - i
  {
    hide WalkSlot, TreeOk, TreeCovered, TreeRefs, SlotRefs, SlotFlag, StepRefs;
    if i < |l1| {
      var (st1, e) := WalkSlot(st, l1[i], a).value;
      StepTree(st, l1, i, a, st1, e);
      WalkL1Spec(st1, l1[i := e], i + 1, a, st', l1');
      WalkStepTables(st, l1, i, a, st1, e, st', l1');
      StepRefsAll(st, l1, i, a, st1, e, l1[i := e]);
      WalkStepRc(st, l1, i, a, st1, l1[i := e], st', l1');
      WalkStepFlags(st, l1, i, a, st1, e, st', l1');
    }
  }
}

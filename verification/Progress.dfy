// When the operations go through: the exact conditions under which allocation, the tree walks and
// the snapshot operations succeed.

module Progress {
  import opened Basics
  import opened Arith
  import opened Layout
  import opened Refcounts
  import opened Invariant
  import opened GuestWrite
  import opened Walk

  // ----- allocation -----

  // Every cluster of the run has a refcount block, or the block that will be created for it lands in its range.
  ghost predicate RunFits(st: Img, lo: nat, n: nat)
  {
    && lo + n <= |st.rc|
    && forall c: nat :: lo <= c < lo + n ==>
       st.HasBlock(c) || Row(st.g.reach, c) == Row(st.g.reach, FirstFit(st.rc, st.freeIdx, 1))
  }

  lemma {:induction false} FirstFitKept(rc: seq<nat>, f: nat, c: nat, v: nat)
    requires c < f && c < |rc|
    ensures FirstFit(rc[c := v], f, 1) == FirstFit(rc, f, 1)
    decreases |rc| - f
  {
    if f < |rc| {
      assert RunFree(rc[c := v], f, 1) == RunFree(rc, f, 1) by {
        assert RcOf(rc[c := v], f) == RcOf(rc, f);
      }
      if !RunFree(rc, f, 1) { FirstFitKept(rc, f + 1, c, v); }
    }
  }

  lemma InsideRow(st: Img, b: nat, c: nat)
    requires st.Shaped() && c < |st.rc| && Row(st.g.reach, b) == Row(st.g.reach, c)
    ensures Row(st.g.reach, b) < |st.table| && b < |st.rc|
  {
    RowLess(st.g.reach, c, |st.table|);
    RowBound(st.g.reach, b, |st.table|);
  }

  // The first cluster of the run already has its block.
  lemma HeadKnown(st: Img, lo: nat, n: nat)
    requires st.Sound() && n > 0 && lo < |st.rc| && st.HasBlock(lo) && st.rc[lo] == 0 && st.freeIdx >= lo + n
    ensures Upd(st, lo, 1) == Some(st.(rc := st.rc[lo := 1]))
    ensures RunFits(st.(rc := st.rc[lo := 1]), lo + 1, n - 1) == RunFits(st, lo, n)
  {
    var st1 := st.(rc := st.rc[lo := 1]);
    RowLess(st.g.reach, lo, |st.table|);
    FirstFitKept(st.rc, st.freeIdx, lo, 1);
    forall c: nat ensures st1.HasBlock(c) == st.HasBlock(c) {}
    assert RunFits(st, lo, n) ==> RunFits(st1, lo + 1, n - 1);
    if RunFits(st1, lo + 1, n - 1) {
      forall c: nat | lo <= c < lo + n
        ensures st.HasBlock(c) || Row(st.g.reach, c) == Row(st.g.reach, FirstFit(st.rc, st.freeIdx, 1))
      {
        assert c > lo ==> st1.HasBlock(c) == st.HasBlock(c);
      }
    }
  }

  // It does not, and the block created for it describes the rest of the run too.
  lemma HeadCreated(st: Img, lo: nat, n: nat, st2: Img)
    requires st.Sound() && n > 0 && lo < |st.rc| && !st.HasBlock(lo) && st.freeIdx >= lo + n
    requires Upd(st, lo, 1) == Some(st2)
    ensures RunFits(st, lo, n) && RunFits(st2, lo + 1, n - 1)
  {
    var b := FirstFit(st.rc, st.freeIdx, 1);
    FirstFitSpec(st.rc, st.freeIdx, 1);
    forall c: nat | lo <= c < lo + n
      ensures Row(st.g.reach, c) == Row(st.g.reach, b) && c < |st.rc| && st2.HasBlock(c)
    {
      RowMono(st.g.reach, lo, c);
      RowMono(st.g.reach, c, b);
      InsideRow(st, c, lo);
    }
    assert lo + n - 1 < |st.rc|;
  }

  lemma HeadFails(st: Img, lo: nat, n: nat)
    requires st.Sound() && n > 0 && lo < |st.rc| && !st.HasBlock(lo) && st.rc[lo] == 0 && st.freeIdx >= lo + n
    requires Upd(st, lo, 1).None?
    ensures !RunFits(st, lo, n)
  {
    var b := FirstFit(st.rc, st.freeIdx, 1);
    FirstFitSpec(st.rc, st.freeIdx, 1);
    RowLess(st.g.reach, lo, |st.table|);
    if Row(st.g.reach, b) == Row(st.g.reach, lo) { InsideRow(st, b, lo); }
  }

  lemma EmptyFits(st: Img, lo: nat)
    requires lo <= |st.rc|
    ensures RunFits(st, lo, 0)
  {
  }

  lemma RunOutside(st: Img, lo: nat, n: nat)
    requires n > 0 && lo >= |st.rc|
    ensures !RunFits(st, lo, n)
  {
  }

  // New refcount blocks lie at or after the allocator's position, so the rest of the run stays free.
  lemma RestFree(st: Img, lo: nat, n: nat, st1: Img)
    requires n > 0 && RunFree(st.rc, lo, n) && st.freeIdx >= lo + n && Grown(st, st1, lo, 1)
    ensures RunFree(st1.rc, lo + 1, n - 1) && st1.freeIdx >= lo + n && |st1.rc| == |st.rc|
  {
    forall c: nat | lo + 1 <= c < lo + n ensures RcOf(st1.rc, c) == 0 { assert RcOf(st.rc, c) == 0; }
  }

  lemma {:induction false} RunExact(st: Img, lo: nat, n: nat)
    requires st.Sound() && RunFree(st.rc, lo, n) && st.freeIdx >= lo + n
    ensures UpdRun(st, lo, n, 1).Some? <==> n == 0 || RunFits(st, lo, n)
    decreases n
  {
    hide RunFits, FirstFit, Img.Sound;
    if n > 0 && lo < |st.rc| {
      assert RcOf(st.rc, lo) == 0;
      var r := Upd(st, lo, 1);
      if r.None? {
        if st.HasBlock(lo) { HeadKnown(st, lo, n); } else { HeadFails(st, lo, n); }
      } else {
        UpdGrown(st, lo, r.value);
        RestFree(st, lo, n, r.value);
        RunExact(r.value, lo + 1, n - 1);
        if st.HasBlock(lo) { HeadKnown(st, lo, n); } else { HeadCreated(st, lo, n, r.value); }
        EmptyFits(r.value, lo + 1);
      }
    } else if n > 0 {
      RunOutside(st, lo, n);
    }
  }

  // alloc_clusters goes through exactly when the run it finds lies inside the refcount table and each of
  // its clusters has a refcount block or shares its range with the cluster after the run.
  ghost predicate AllocFits(st: Img, n: nat)
  {
    var x := FirstFit(st.rc, st.freeIdx, n);
    n > 0 ==>
      && x + n <= |st.rc|
      && forall c: nat :: x <= c < x + n ==> st.HasBlock(c) || Row(st.g.reach, c) == Row(st.g.reach, x + n)
  }

  lemma NextInRange(st: Img, x: nat, n: nat, c: nat)
    requires st.Sound() && x <= c < x + n <= |st.rc| && !st.HasBlock(c)
    ensures Row(st.g.reach, c) == Row(st.g.reach, FirstFit(st.rc, x + n, 1)) <==>
      Row(st.g.reach, c) == Row(st.g.reach, x + n)
  {
    var b := FirstFit(st.rc, x + n, 1);
    FirstFitSpec(st.rc, x + n, 1);
    RowMono(st.g.reach, c, x + n);
    RowMono(st.g.reach, x + n, b);
    if Row(st.g.reach, c) == Row(st.g.reach, x + n) {
      InsideRow(st, x + n, c);
      assert !st.HasBlock(x + n);
      assert RunFree(st.rc, x + n, 1);
    }
  }

  lemma FitsAgree(st: Img, n: nat)
    requires st.Sound() && n > 0
    ensures var x := FirstFit(st.rc, st.freeIdx, n); RunFits(st.(freeIdx := x + n), x, n) == AllocFits(st, n)
  {
    var x := FirstFit(st.rc, st.freeIdx, n);
    var st1 := st.(freeIdx := x + n);
    if x + n <= |st.rc| {
      forall c: nat | x <= c < x + n && !st.HasBlock(c)
        ensures Row(st.g.reach, c) == Row(st.g.reach, FirstFit(st.rc, x + n, 1)) <==>
          Row(st.g.reach, c) == Row(st.g.reach, x + n)
      {
        NextInRange(st, x, n, c);
      }
      forall c: nat ensures st1.HasBlock(c) == st.HasBlock(c) {}
    }
  }

  lemma AllocExact(st: Img, n: nat)
    requires st.Sound()
    ensures Alloc(st, n).Some? <==> AllocFits(st, n)
  {
    var x := FirstFit(st.rc, st.freeIdx, Max1(n));
    FirstFitSpec(st.rc, st.freeIdx, Max1(n));
    if n > 0 {
      MoveSound(st, x + n);
      RunExact(st.(freeIdx := x + n), x, n);
      FitsAgree(st, n);
    }
  }

  // ----- walking a tree -----

  predicate InRange(r: int) { 0 <= r <= MAX_REFCOUNT }

  // Counts are stored in 16 bits.
  ghost predicate Stored16(st: Img)
  {
    forall c: nat :: c < |st.rc| ==> st.rc[c] <= MAX_REFCOUNT
  }

  // A count that stays in range after n changes does so after each of them.
  lemma Monotone(a: int, r: nat, m: nat, n: nat)
    requires -1 <= a <= 1 && r <= MAX_REFCOUNT && m <= n && InRange(r + Times(a, n))
    ensures InRange(r + Times(a, m))
  {
  }

  lemma AdjustExact(st: Img, c: nat, a: int)
    requires -1 <= a <= 1 && st.Shaped() && st.HasBlock(c) && Stored16(st)
    ensures c < |st.rc| && (Adjust(st, c, a).Some? <==> InRange(st.rc[c] + a))
    ensures Adjust(st, c, a).Some? ==> Stored16(Adjust(st, c, a).value)
  {
    RowBound(st.g.reach, c, |st.table|);
  }

  lemma {:induction false} AdjustRunExact(st: Img, lo: nat, n: nat, a: int)
    requires -1 <= a <= 1 && st.Shaped() && Stored16(st) && lo + n <= |st.rc|
    requires forall c: nat :: lo <= c < lo + n ==> st.HasBlock(c)
    ensures AdjustRun(st, lo, n, a).Some? <==> forall c: nat :: lo <= c < lo + n ==> InRange(st.rc[c] + a)
    ensures AdjustRun(st, lo, n, a).Some? ==> Stored16(AdjustRun(st, lo, n, a).value)
    decreases n
  {
    if n > 0 && a != 0 {
      AdjustExact(st, lo, a);
      if Adjust(st, lo, a).Some? {
        var st1 := Adjust(st, lo, a).value;
        AdjustSpec(st, lo, a, st1);
        forall c: nat ensures st1.HasBlock(c) == st.HasBlock(c) {}
        AdjustRunExact(st1, lo + 1, n - 1, a);
        forall c: nat | lo <= c < lo + n ensures c > lo ==> st1.rc[c] == st.rc[c] {}
      }
    }
  }

  ghost predicate EntryFits(st: Img, e: Entry, a: int)
  {
    forall c: nat :: c < |st.rc| ==> InRange(st.rc[c] + Times(a, EntryRefs(st.g, e, c)))
  }

  lemma WalkEntryExact(st: Img, e: Entry, a: int)
    requires -1 <= a <= 1 && st.Shaped() && Stored16(st) && (e.Packed? ==> e.nb > 0)
    requires forall c: nat :: EntryRefs(st.g, e, c) > 0 ==> st.HasBlock(c) && c < |st.rc|
    ensures WalkEntry(st, e, a).Some? <==> EntryFits(st, e, a)
    ensures WalkEntry(st, e, a).Some? ==> Stored16(WalkEntry(st, e, a).value.0)
  {
    match e
    case Zero =>
    case Plain(at, _) =>
      assert EntryRefs(st.g, e, at) > 0;
      AdjustExact(st, at, a);
      assert EntryFits(st, e, a) ==> InRange(st.rc[at] + Times(a, EntryRefs(st.g, e, at)));
    case Packed(sec, _, nb) =>
      RowMono(st.g.spc, sec, sec + nb - 1);
      PackedExact(st, e, a);
  }

  lemma PackedExact(st: Img, e: Entry, a: int)
    requires -1 <= a <= 1 && st.Shaped() && Stored16(st) && e.Packed? && First(st.g, e) < Past(st.g, e)
    requires forall c: nat :: EntryRefs(st.g, e, c) > 0 ==> st.HasBlock(c) && c < |st.rc|
    ensures WalkEntry(st, e, a).Some? <==> EntryFits(st, e, a)
    ensures WalkEntry(st, e, a).Some? ==> Stored16(WalkEntry(st, e, a).value.0)
  {
    var lo, n := First(st.g, e), Past(st.g, e) - First(st.g, e);
    forall c: nat ensures EntryRefs(st.g, e, c) == InRun(c, lo, n) {}
    forall c: nat | lo <= c < lo + n ensures st.HasBlock(c) && c < |st.rc| { assert EntryRefs(st.g, e, c) > 0; }
    assert EntryRefs(st.g, e, lo + n - 1) > 0;
    AdjustRunExact(st, lo, n, a);
    if EntryFits(st, e, a) {
      forall c: nat | lo <= c < lo + n
        ensures InRange(st.rc[c] + a)
      {
        assert InRange(st.rc[c] + Times(a, EntryRefs(st.g, e, c)));
      }
    }
  }

  ghost predicate EntsFit(st: Img, ents: seq<Entry>, j: nat, a: int)
    requires j <= |ents|
  {
    forall c: nat :: c < |st.rc| ==>
      InRange(st.rc[c] + Times(a, L2Refs(st.g, ents, |ents|, c) - L2Refs(st.g, ents, j, c)))
  }

  ghost predicate Spans(ents: seq<Entry>)
  {
    forall j: nat :: j < |ents| && ents[j].Packed? ==> ents[j].nb > 0
  }

  lemma EntsFitHead(st: Img, ents: seq<Entry>, j: nat, a: int)
    requires -1 <= a <= 1 && Stored16(st) && j < |ents| && EntsFit(st, ents, j, a)
    ensures EntryFits(st, ents[j], a)
  {
    forall c: nat | c < |st.rc| ensures InRange(st.rc[c] + Times(a, EntryRefs(st.g, ents[j], c))) {
      L2RefsSplit(st.g, ents, j, |ents|, c);
      Monotone(a, st.rc[c], EntryRefs(st.g, ents[j], c), L2Refs(st.g, ents, |ents|, c) - L2Refs(st.g, ents, j, c));
    }
  }

  lemma EntsFitStep(st: Img, ents: seq<Entry>, j: nat, a: int, st1: Img, ents1: seq<Entry>)
    requires -1 <= a <= 1 && j < |ents| == |ents1| && st1.g == st.g && |st1.rc| == |st.rc|
    requires forall c: nat :: c < |st.rc| ==> st1.rc[c] == st.rc[c] + Times(a, EntryRefs(st.g, ents[j], c))
    requires forall n: nat, c: nat :: n <= |ents| ==> L2Refs(st.g, ents1, n, c) == L2Refs(st.g, ents, n, c)
    ensures EntsFit(st1, ents1, j + 1, a) == EntsFit(st, ents, j, a)
  {
    forall c: nat | c < |st.rc|
      ensures st1.rc[c] + Times(a, L2Refs(st1.g, ents1, |ents1|, c) - L2Refs(st1.g, ents1, j + 1, c))
           == st.rc[c] + Times(a, L2Refs(st.g, ents, |ents|, c) - L2Refs(st.g, ents, j, c))
    {
      assert L2Refs(st.g, ents1, j + 1, c) == L2Refs(st.g, ents, j + 1, c);
    }
  }

  lemma {:induction false} WalkL2Exact(st: Img, ents: seq<Entry>, j: nat, a: int)
    requires -1 <= a <= 1 && j <= |ents| && st.Shaped() && Stored16(st)
    requires EntsCovered(st, ents) && EntsSimple(st.g, ents) && Spans(ents)
    ensures WalkL2(st, ents, j, a).Some? <==> EntsFit(st, ents, j, a)
    ensures WalkL2(st, ents, j, a).Some? ==> Stored16(WalkL2(st, ents, j, a).value.0)
    decreases |ents| - j
  {
    hide EntsFit, EntryFits, EntsCovered, EntsSimple, L2Refs, WalkEntry;
    if j == |ents| {
      EntsFitEnd(st, ents, a);
    } else {
      EntryCovered(st, ents, j);
      WalkEntryExact(st, ents[j], a);
      if WalkEntry(st, ents[j], a).None? {
        if EntsFit(st, ents, j, a) { EntsFitHead(st, ents, j, a); }
      } else {
        var (st1, e) := WalkEntry(st, ents[j], a).value;
        WalkEntrySpec(st, ents[j], a, st1, e);
        StepEnts(st, ents, j, e, st1);
        EntsFitStep(st, ents, j, a, st1, ents[j := e]);
        SpansStep(ents, j, e);
        WalkL2Exact(st1, ents[j := e], j + 1, a);
      }
    }
  }

  lemma SpansStep(ents: seq<Entry>, j: nat, e: Entry)
    requires j < |ents| && Spans(ents) && Strip(e) == Strip(ents[j])
    ensures Spans(ents[j := e])
  {
  }

  lemma EntsFitEnd(st: Img, ents: seq<Entry>, a: int)
    requires Stored16(st)
    ensures EntsFit(st, ents, |ents|, a)
  {
  }

  lemma EntryCovered(st: Img, ents: seq<Entry>, j: nat)
    requires st.Shaped() && j < |ents| && EntsCovered(st, ents)
    ensures forall c: nat :: EntryRefs(st.g, ents[j], c) > 0 ==> st.HasBlock(c) && c < |st.rc|
  {
    forall c: nat | EntryRefs(st.g, ents[j], c) > 0 ensures st.HasBlock(c) && c < |st.rc| {
      assert st.HasBlock(c);
      RowBound(st.g.reach, c, |st.table|);
    }
  }

  // ----- a slot and its table -----

  ghost predicate SlotFits(st: Img, e: Entry, a: int)
  {
    forall c: nat :: c < |st.rc| ==> InRange(st.rc[c] + Times(a, SlotRefs(st.g, st.disk, e, c)))
  }

  // The table's own references leave the table's count alone, so the two conditions meet in SlotFits.
  lemma SlotFitsSplit(st: Img, e: Entry, a: int)
    requires -1 <= a <= 1 && Stored16(st) && e.Plain? && e.at < |st.rc|
    requires L2Refs(st.g, Ents(st.disk, e.at), |Ents(st.disk, e.at)|, e.at) == 0
    ensures SlotFits(st, e, a) <==> EntsFit(st, Ents(st.disk, e.at), 0, a) && InRange(st.rc[e.at] + a)
  {
    var ents := Ents(st.disk, e.at);
    forall c: nat | c < |st.rc|
      ensures InRange(st.rc[c] + Times(a, SlotRefs(st.g, st.disk, e, c))) <==>
              InRange(st.rc[c] + Times(a, L2Refs(st.g, ents, |ents|, c) - L2Refs(st.g, ents, 0, c))) && (c == e.at ==>
                InRange(st.rc[c] + a))
    {
    }
  }

  lemma SlotCovered(st: Img, e: Entry)
    requires st.Shaped() && e.Plain? && SlotTyped(st.g, st.disk, e)
    requires forall c: nat :: SlotRefs(st.g, st.disk, e, c) > 0 ==> st.HasBlock(c)
    ensures EntsCovered(st, Ents(st.disk, e.at)) && Spans(Ents(st.disk, e.at)) && st.HasBlock(e.at) && e.at < |st.rc|
  {
    var ents := Ents(st.disk, e.at);
    assert SlotRefs(st.g, st.disk, e, e.at) > 0;
    forall j: nat, c: nat | j < |ents| && EntryRefs(st.g, ents[j], c) > 0 ensures st.HasBlock(c) {
      L2RefsAt(st.g, ents, |ents|, j, c);
      assert SlotRefs(st.g, st.disk, e, c) > 0;
    }
    forall j: nat | j < |ents| && ents[j].Packed? ensures ents[j].nb > 0 { assert EntryTyped(st.g, st.disk, ents[j]); }
  }

  lemma WalkSlotExact(st: Img, e: Entry, a: int)
    requires -1 <= a <= 1 && st.Shaped() && Stored16(st) && SlotTyped(st.g, st.disk, e) && SlotSimple(st.g, st.disk, e)
    requires forall c: nat :: SlotRefs(st.g, st.disk, e, c) > 0 ==> st.HasBlock(c)
    ensures WalkSlot(st, e, a).Some? <==> SlotFits(st, e, a)
    ensures WalkSlot(st, e, a).Some? ==> Stored16(WalkSlot(st, e, a).value.0)
  {
    if e.Plain? {
      hide EntsFit, SlotFits, EntsCovered, EntsSimple, L2Refs, WalkL2, Adjust, SlotTyped, SlotSimple;
      var ents := Ents(st.disk, e.at);
      SlotSimpleEnts(st.g, st.disk, e);
      SlotCovered(st, e);
      SlotFitsSplit(st, e, a);
      WalkL2Exact(st, ents, 0, a);
      if WalkL2(st, ents, 0, a).Some? {
        var (st1, ents1) := WalkL2(st, ents, 0, a).value;
        WalkL2Spec(st, ents, 0, a, st1, ents1);
        var st2 := st1.(disk := SetBlock(st1.disk, e.at, L2(ents1)));
        NoRefsBefore(st.g, ents, e.at);
        assert st2.HasBlock(e.at);
        AdjustExact(st2, e.at, a);
      }
    } else {
      ZeroFits(st, e, a);
    }
  }

  lemma NoRefsBefore(g: Geo, ents: seq<Entry>, c: nat)
    ensures L2Refs(g, ents, 0, c) == 0
  {
  }

  lemma ZeroFits(st: Img, e: Entry, a: int)
    requires Stored16(st) && !e.Plain?
    ensures SlotFits(st, e, a)
  {
  }

  // ----- the whole tree -----

  ghost predicate TreeFits(st: Img, l1: seq<Entry>, i: nat, a: int)
    requires i <= |l1|
  {
    forall c: nat :: c < |st.rc| ==>
      InRange(st.rc[c] + Times(a, TreeRefs(st.g, st.disk, l1, |l1|, c) - TreeRefs(st.g, st.disk, l1, i, c)))
  }

  lemma TreeFitsHead(st: Img, l1: seq<Entry>, i: nat, a: int)
    requires -1 <= a <= 1 && Stored16(st) && i < |l1| && TreeFits(st, l1, i, a)
    ensures SlotFits(st, l1[i], a)
  {
    forall c: nat | c < |st.rc| ensures InRange(st.rc[c] + Times(a, SlotRefs(st.g, st.disk, l1[i], c))) {
      TreeRefsSplit(st.g, st.disk, l1, i, |l1|, c);
      Monotone(a, st.rc[c], SlotRefs(st.g, st.disk, l1[i], c),
               TreeRefs(st.g, st.disk, l1, |l1|, c) - TreeRefs(st.g, st.disk, l1, i, c));
    }
  }

  lemma TreeFitsStep(st: Img, l1: seq<Entry>, i: nat, a: int, st1: Img, l11: seq<Entry>)
    requires -1 <= a <= 1 && i < |l1| == |l11| && st1.g == st.g && |st1.rc| == |st.rc|
    requires forall c: nat :: StepRefs(st, l1, i, a, st1, l11, c)
    ensures TreeFits(st1, l11, i + 1, a) == TreeFits(st, l1, i, a)
  {
    forall c: nat | c < |st.rc|
      ensures st1.rc[c] + Times(a, TreeRefs(st1.g, st1.disk, l11, |l11|, c) - TreeRefs(st1.g, st1.disk, l11, i + 1, c))
           == st.rc[c] + Times(a, TreeRefs(st.g, st.disk, l1, |l1|, c) - TreeRefs(st.g, st.disk, l1, i, c))
    {
      assert StepRefs(st, l1, i, a, st1, l11, c);
    }
  }

  lemma TreeFitsEnd(st: Img, l1: seq<Entry>, a: int)
    requires Stored16(st)
    ensures TreeFits(st, l1, |l1|, a)
  {
  }

  lemma TreeSlotCovered(st: Img, l1: seq<Entry>, i: nat)
    requires i < |l1| && TreeOk(st.g, st.disk, l1) && TreeCovered(st, l1)
    ensures SlotTyped(st.g, st.disk, l1[i]) && SlotSimple(st.g, st.disk, l1[i])
    ensures forall c: nat :: SlotRefs(st.g, st.disk, l1[i], c) > 0 ==> st.HasBlock(c)
  {
    TreeSlotSimple(st.g, st.disk, l1, i);
    forall c: nat | SlotRefs(st.g, st.disk, l1[i], c) > 0
      ensures st.HasBlock(c)
    {
      TreeRefsAt(st.g, st.disk, l1, |l1|, i, c);
    }
  }

  // A walk over a well-formed tree goes through exactly when every count stays within 16 bits.
  lemma {:induction false} WalkL1Exact(st: Img, l1: seq<Entry>, i: nat, a: int)
    requires -1 <= a <= 1 && i <= |l1| && st.Shaped() && Stored16(st) && TreeOk(st.g, st.disk, l1)
    requires TreeCovered(st, l1)
    ensures WalkL1(st, l1, i, a).Some? <==> TreeFits(st, l1, i, a)
    ensures WalkL1(st, l1, i, a).Some? ==> Stored16(WalkL1(st, l1, i, a).value.0)
    decreases |l1| - i
  {
    hide TreeFits, SlotFits, TreeOk, TreeCovered, WalkSlot, StepRefs, TreeRefs, SlotRefs, SlotFlag;
    if i == |l1| {
      TreeFitsEnd(st, l1, a);
    } else {
      TreeSlotCovered(st, l1, i);
      WalkSlotExact(st, l1[i], a);
      if WalkSlot(st, l1[i], a).None? {
        if TreeFits(st, l1, i, a) { TreeFitsHead(st, l1, i, a); }
      } else {
        var (st1, e) := WalkSlot(st, l1[i], a).value;
        StepTree(st, l1, i, a, st1, e);
        StepRefsAll(st, l1, i, a, st1, e, l1[i := e]);
        TreeFitsStep(st, l1, i, a, st1, l1[i := e]);
        WalkL1Exact(st1, l1[i := e], i + 1, a);
      }
    }
  }
}

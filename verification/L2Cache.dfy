// The 16-slot cache of L2 tables: what makes it coherent and what keeps it so.

module L2Cache {
  import opened Layout
  import opened Refcounts

  const SLOTS: nat := 16
  const COUNT_LIMIT: nat := 0xffffffff

  // A filled slot holds the L2 table stored in a live cluster; 0 marks an empty slot.
  ghost predicate SlotOk(st: Img, at: nat, tab: seq<Entry>)
  {
    at != 0 ==> at < |st.disk| && st.disk[at] == L2(tab) && RcOf(st.rc, at) > 0
  }

  ghost predicate Distinct(at: seq<nat>)
  {
    forall s: nat, r: nat :: s < r < |at| && at[s] != 0 ==> at[s] != at[r]
  }

  ghost predicate Small(counts: seq<nat>)
  {
    forall s: nat :: s < |counts| ==> counts[s] < COUNT_LIMIT
  }

  ghost predicate Filled(st: Img, at: seq<nat>, tabs: seq<seq<Entry>>)
    requires |at| == |tabs|
  {
    forall s: nat :: s < |at| ==> SlotOk(st, at[s], tabs[s])
  }

  ghost predicate CacheOk(st: Img, at: seq<nat>, counts: seq<nat>, tabs: seq<seq<Entry>>)
  {
    && |at| == |counts| == |tabs| == SLOTS
    && Filled(st, at, tabs) && Distinct(at) && Small(counts)
  }

  // Every live L2 table is still there.
  ghost predicate TablesKept(st: Img, st': Img)
  {
    && |st'.disk| == |st.disk|
    && forall x: nat :: x < |st.disk| && st.disk[x].L2? && RcOf(st.rc, x) > 0 ==>
       st'.disk[x] == st.disk[x] && RcOf(st'.rc, x) > 0
  }

  lemma KeptOk(st: Img, st': Img, at: seq<nat>, counts: seq<nat>, tabs: seq<seq<Entry>>)
    requires CacheOk(st, at, counts, tabs) && TablesKept(st, st')
    ensures CacheOk(st', at, counts, tabs)
  {
    forall s: nat | s < |at| ensures SlotOk(st', at[s], tabs[s]) { assert SlotOk(st, at[s], tabs[s]); }
  }

  // Allocation overwrites nothing live.
  lemma AllocTables(st: Img, st': Img, x: nat, n: nat)
    requires st.Shaped() && Allocated(st, st', x, n)
    ensures TablesKept(st, st')
  {
  }

  // An allocated cluster is in no slot.
  lemma FreeNotCached(st: Img, at: seq<nat>, counts: seq<nat>, tabs: seq<seq<Entry>>, d: nat)
    requires CacheOk(st, at, counts, tabs) && d != 0 && RcOf(st.rc, d) == 0
    ensures d !in at
  {
    forall s: nat | s < |at| ensures at[s] != d { assert SlotOk(st, at[s], tabs[s]); }
  }

  // Neither is a cluster that holds no L2 table.
  lemma OtherNotCached(st: Img, at: seq<nat>, counts: seq<nat>, tabs: seq<seq<Entry>>, d: nat)
    requires CacheOk(st, at, counts, tabs) && 0 < d < |st.disk| && !st.disk[d].L2?
    ensures d !in at
  {
    forall s: nat | s < |at| ensures at[s] != d { assert SlotOk(st, at[s], tabs[s]); }
  }

  // Writing a cluster that is in no slot leaves the cache coherent.
  lemma PutOk(st: Img, at: seq<nat>, counts: seq<nat>, tabs: seq<seq<Entry>>, x: nat, b: Block)
    requires CacheOk(st, at, counts, tabs) && x < |st.disk| && x !in at
    ensures CacheOk(st.(disk := st.disk[x := b]), at, counts, tabs)
  {
    var st' := st.(disk := st.disk[x := b]);
    forall s: nat | s < |at| ensures SlotOk(st', at[s], tabs[s]) {
      assert SlotOk(st, at[s], tabs[s]);
      assert at[s] in at;
    }
  }

  // Filling slot r with a table that is in no slot.
  lemma LoadOk(st: Img, at: seq<nat>, counts: seq<nat>, tabs: seq<seq<Entry>>, r: nat, x: nat)
    requires CacheOk(st, at, counts, tabs) && r < SLOTS && x != 0 && x !in at
    requires x < |st.disk| && st.disk[x].L2? && RcOf(st.rc, x) > 0
    ensures CacheOk(st, at[r := x], counts[r := 1], tabs[r := st.disk[x].ents])
  {
    var at' := at[r := x];
    forall s: nat | s < |at'|
      ensures SlotOk(st, at'[s], tabs[r := st.disk[x].ents][s])
    {
      assert SlotOk(st, at[s], tabs[s]);
    }
    forall s: nat, q: nat | s < q < |at'| && at'[s] != 0 ensures at'[s] != at'[q] {
      assert at[s] in at && at[q] in at;
    }
  }

  // Writing one word through the cache: the slot and the disk change together.
  lemma StoreWordOk(st: Img, at: seq<nat>, counts: seq<nat>, tabs: seq<seq<Entry>>, r: nat, j: nat, e: Entry)
    requires CacheOk(st, at, counts, tabs) && r < SLOTS && at[r] != 0 && j < |tabs[r]|
    ensures at[r] < |st.disk|
    ensures CacheOk(st.(disk := st.disk[at[r] := L2(tabs[r][j := e])]), at, counts, tabs[r := tabs[r][j := e]])
  {
    assert SlotOk(st, at[r], tabs[r]);
    var st', tabs' := st.(disk := st.disk[at[r] := L2(tabs[r][j := e])]), tabs[r := tabs[r][j := e]];
    forall s: nat | s < |at| ensures SlotOk(st', at[s], tabs'[s]) {
      assert SlotOk(st, at[s], tabs[s]);
    }
  }

  function Halved(counts: seq<nat>): (r: seq<nat>)
    ensures |r| == |counts| && forall s: nat :: s < |r| ==> r[s] == counts[s] / 2
  {
    seq(|counts|, s requires 0 <= s < |counts| => counts[s] / 2)
  }

  // The hit count of slot r goes up; when it reaches the limit all counts are halved.
  function Hit(counts: seq<nat>, r: nat): seq<nat>
    requires r < |counts|
  {
    var up := counts[r := counts[r] + 1];
    if up[r] == COUNT_LIMIT then Halved(up) else up
  }

  lemma HitSmall(counts: seq<nat>, r: nat)
    requires Small(counts) && r < |counts|
    ensures Small(Hit(counts, r)) && |Hit(counts, r)| == |counts|
    // The order of the other slots by use never turns around.
    ensures forall s: nat, q: nat :: s < |counts| && q < |counts| && s != r && counts[s] <= counts[q] ==>
      Hit(counts, r)[s] <= Hit(counts, r)[q]
  {
    var up := counts[r := counts[r] + 1];
    forall s: nat | s < |counts| ensures up[s] <= COUNT_LIMIT {}
  }
}

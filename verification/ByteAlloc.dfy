// alloc_bytes: space for compressed clusters, shared at byte granularity.

module ByteAlloc {
  import opened Basics
  import opened Arith
  import opened Layout
  import opened Refcounts

  // The byte offset of cluster x.
  function Start(g: Geo, x: nat): nat { x * g.bytes }

  // The branch taken when the current cluster has enough room: the range starts at freeByte.
  function Take(st: Img, size: nat): Option<(Img, nat)>
  {
    var off := st.freeByte;
    var st1 := st.(freeByte := if Col(st.g.bytes, off) + size == st.g.bytes then 0 else off + size);
    if Col(st.g.bytes, off) == 0 then Some((st1, off))
    else
      var st2 :- Upd(st1, Row(st.g.bytes, off), 1);
      Some((st2, off))
  }

  function Room(st: Img): nat { st.g.bytes - Col(st.g.bytes, st.freeByte) }

  // alloc_bytes once freeByte is set
  function TakeOrMove(st: Img, size: nat): Option<(Img, nat)>
  {
    if size <= Room(st) then Take(st, size)
    else
      var (st1, x) :- Alloc(st, 1);
      if Row(st.g.bytes, st.freeByte) + 1 == x then
        var st2 :- Upd(st1, Row(st.g.bytes, st.freeByte), 1);
        Some((st2.(freeByte := st.freeByte + size), st.freeByte))
      else
        Take(st1.(freeByte := Start(st.g, x)), size)
  }

  // alloc_bytes
  function AllocBytes(st: Img, size: nat): Option<(Img, nat)>
  {
    if st.freeByte == 0 then
      var (st1, x) :- Alloc(st, 1);
      TakeOrMove(st1.(freeByte := Start(st.g, x)), size)
    else TakeOrMove(st, size)
  }

  lemma StartStep(st: Img, size: nat)
    ensures st.freeByte != 0 ==> AllocBytes(st, size) == TakeOrMove(st, size)
    ensures st.freeByte == 0 && Alloc(st, 1).None? ==> AllocBytes(st, size).None?
    ensures st.freeByte == 0 && Alloc(st, 1).Some? ==>
      AllocBytes(st, size) == TakeOrMove(Alloc(st, 1).value.0.(freeByte := Start(st.g, Alloc(st, 1).value.1)), size)
  {
  }

  // After a move the whole request fits, so going back to the label takes the first branch.
  lemma MoveStep(st: Img, size: nat)
    requires st.Sound() && size <= st.g.bytes
    ensures Col(st.g.bytes, st.freeByte) + size <= st.g.bytes ==> TakeOrMove(st, size) == Take(st, size)
    ensures Col(st.g.bytes, st.freeByte) + size > st.g.bytes && Alloc(st, 1).None? ==> TakeOrMove(st, size).None?
    ensures Col(st.g.bytes, st.freeByte) + size > st.g.bytes && Alloc(st, 1).Some? ==>
      var (st1, x) := Alloc(st, 1).value; var row := Row(st.g.bytes, st.freeByte);
      if row + 1 == x then
        && TakeOrMove(st, size).Some? == Upd(st1, row, 1).Some?
        && (Upd(st1, row, 1).Some? ==>
              TakeOrMove(st, size) == Some((Upd(st1, row, 1).value.(freeByte := st.freeByte + size), st.freeByte)))
      else TakeOrMove(st, size) == TakeOrMove(st1.(freeByte := Start(st.g, x)), size)
  {
    hide Upd, Alloc, Take, Img.Sound, Row, Col;
    if Alloc(st, 1).Some? {
      var (st1, x) := Alloc(st, 1).value;
      AllocSpec(st, 1, st1, x);
      RowColOf(st.g.bytes, x, 0);
    }
  }

  lemma NextSound(st: Img, st1: Img, x: nat)
    requires st.Sound() && Alloc(st, 1) == Some((st1, x))
    ensures st1.g == st.g && st1.Sound() && st1.freeByte == st.freeByte && st1.(freeByte := Start(st.g, x)).Sound()
  {
    hide Alloc;
    AllocSpec(st, 1, st1, x);
    LaterSound(st1, Start(st.g, x));
  }

  // ----- ranges handed out -----

  datatype Range = Range(off: nat, len: nat)

  function FirstOf(g: Geo, r: Range): nat { Row(g.bytes, r.off) }

  function LastOf(g: Geo, r: Range): nat
    requires r.len > 0
  {
    Row(g.bytes, r.off + r.len - 1)
  }

  predicate Touches(g: Geo, r: Range, c: nat)
  {
    r.len > 0 && FirstOf(g, r) <= c <= LastOf(g, r)
  }

  // How many of the ranges touch cluster c.
  function Count(g: Geo, rs: seq<Range>, c: nat): nat
  {
    if |rs| == 0 then 0 else Count(g, rs[..|rs| - 1], c) + B2N(Touches(g, rs[|rs| - 1], c))
  }

  ghost predicate Disjoint(rs: seq<Range>)
  {
    forall i: nat, j: nat :: i < j < |rs| ==> rs[i].off + rs[i].len <= rs[j].off || rs[j].off + rs[j].len <= rs[i].off
  }

  // Every cluster a range touches is allocated and its count is the number of ranges that touch it.
  ghost predicate Counted(st: Img, rs: seq<Range>)
  {
    forall c: nat :: Count(st.g, rs, c) > 0 ==> RcOf(st.rc, c) == Count(st.g, rs, c) && st.Blk(c) == 0
  }

  // The rest of the cluster at freeByte is unused.
  ghost predicate Spare(st: Img, rs: seq<Range>)
  {
    st.freeByte != 0 ==>
      && Col(st.g.bytes, st.freeByte) != 0
      && Count(st.g, rs, Row(st.g.bytes, st.freeByte)) > 0
      && forall i: nat :: i < |rs| && Touches(st.g, rs[i], Row(st.g.bytes, st.freeByte)) ==>
         rs[i].off + rs[i].len <= st.freeByte
  }

  ghost predicate Handed(st: Img, rs: seq<Range>)
  {
    && (forall i: nat :: i < |rs| ==> 0 < rs[i].len <= st.g.bytes)
    && Disjoint(rs) && Counted(st, rs) && Spare(st, rs)
  }

  // ----- one more range -----

  lemma CountAdd(g: Geo, rs: seq<Range>, r: Range, c: nat)
    ensures Count(g, rs + [r], c) == Count(g, rs, c) + B2N(Touches(g, r, c))
  {
    assert (rs + [r])[..|rs|] == rs;
  }

  lemma {:induction false} CountAt(g: Geo, rs: seq<Range>, i: nat, c: nat)
    requires i < |rs| && Touches(g, rs[i], c)
    ensures Count(g, rs, c) > 0
  {
    if i < |rs| - 1 { CountAt(g, rs[..|rs| - 1], i, c); }
  }

  // Ranges that share a byte share a cluster.
  lemma Overlap(g: Geo, r: Range, s: Range)
    requires r.len > 0 && s.len > 0 && r.off < s.off + s.len && s.off < r.off + r.len
    ensures Touches(g, s, FirstOf(g, r)) || Touches(g, r, FirstOf(g, s))
  {
    if s.off <= r.off {
      RowMono(g.bytes, s.off, r.off);
      RowMono(g.bytes, r.off, s.off + s.len - 1);
    } else {
      RowMono(g.bytes, r.off, s.off);
      RowMono(g.bytes, s.off, r.off + r.len - 1);
    }
  }

  // A range is apart from all others when each of them ends before it or touches none of its clusters.
  ghost predicate Apart(g: Geo, rs: seq<Range>, r: Range)
  {
    forall i: nat, c: nat :: i < |rs| && Touches(g, r, c) && Touches(g, rs[i], c) ==> rs[i].off + rs[i].len <= r.off
  }

  lemma ApartDisjoint(g: Geo, rs: seq<Range>, r: Range)
    requires Disjoint(rs) && Apart(g, rs, r) && r.len > 0 && forall i: nat :: i < |rs| ==> 0 < rs[i].len
    ensures Disjoint(rs + [r])
  {
    var all := rs + [r];
    forall i: nat, j: nat | i < j < |all|
      ensures all[i].off + all[i].len <= all[j].off || all[j].off + all[j].len <= all[i].off
    {
      if j == |rs| && r.off < rs[i].off + rs[i].len && rs[i].off < r.off + r.len {
        Overlap(g, r, rs[i]);
        SelfTouch(g, r);
        SelfTouch(g, rs[i]);
      }
    }
  }

  lemma SelfTouch(g: Geo, r: Range)
    requires r.len > 0
    ensures Touches(g, r, FirstOf(g, r))
  {
    RowMono(g.bytes, r.off, r.off + r.len - 1);
  }

  lemma Untouched(g: Geo, rs: seq<Range>, c: nat)
    requires Count(g, rs, c) == 0
    ensures forall i: nat :: i < |rs| ==> !Touches(g, rs[i], c)
  {
    forall i: nat | i < |rs| ensures !Touches(g, rs[i], c) {
      if Touches(g, rs[i], c) { CountAt(g, rs, i, c); }
    }
  }

  // ----- what one call changes -----

  // Each cluster r touches gains one reference; the only other counts that change are those of
  // refcount blocks created on the way, which go from 0 to 1.
  ghost predicate Added(st: Img, st': Img, r: Range)
  {
    && st' == st.(disk := st'.disk, table := st'.table, rc := st'.rc, freeIdx := st'.freeIdx, freeByte := st'.freeByte)
    && |st'.disk| == |st.disk| && |st'.table| == |st.table| && |st'.rc| == |st.rc|
    && (forall c: nat :: c < |st.disk| && st'.disk[c] != st.disk[c] ==> st'.Blk(c) > st.Blk(c))
    && (forall c: nat :: Touches(st.g, r, c) ==> c < |st.rc|)
    && (forall c: nat :: RcOf(st'.rc, c) == RcOf(st.rc, c) + B2N(Touches(st.g, r, c)) + st'.Blk(c) - st.Blk(c))
    && (forall c: nat :: st'.Blk(c) >= st.Blk(c))
    && (forall c: nat :: st'.Blk(c) > st.Blk(c) ==> RcOf(st.rc, c) == 0 && RcOf(st'.rc, c) == 1 && !Touches(st.g, r, c))
    && (forall c: nat :: Touches(st.g, r, c) ==> st'.Blk(c) == 0)
  }

  // The counts of the clusters r touches were exact before.
  ghost predicate Exactly(st: Img, rs: seq<Range>, r: Range)
  {
    forall c: nat :: Touches(st.g, r, c) ==> RcOf(st.rc, c) == Count(st.g, rs, c)
  }

  lemma AddedCounted(st: Img, st': Img, rs: seq<Range>, r: Range)
    requires Counted(st, rs) && Added(st, st', r) && Exactly(st, rs, r)
    ensures Counted(st', rs + [r])
  {
    hide Count, Touches, RcOf, Img.Blk;
    forall c: nat | Count(st'.g, rs + [r], c) > 0
      ensures RcOf(st'.rc, c) == Count(st'.g, rs + [r], c) && st'.Blk(c) == 0
    {
      CountAdd(st.g, rs, r, c);
    }
  }

  lemma StepHanded(st: Img, st': Img, rs: seq<Range>, r: Range)
    requires Handed(st, rs) && 0 < r.len <= st.g.bytes && Added(st, st', r) && Exactly(st, rs, r) && Apart(st.g, rs, r)
    requires Spare(st', rs + [r])
    ensures Handed(st', rs + [r])
  {
    hide Count, Disjoint, Counted, Spare, Apart;
    AddedCounted(st, st', rs, r);
    ApartDisjoint(st.g, rs, r);
  }

  // ----- room left in the current cluster -----

  lemma Within(g: Geo, off: nat, size: nat)
    requires 0 < size && Col(g.bytes, off) + size <= g.bytes
    ensures Row(g.bytes, off + size - 1) == Row(g.bytes, off)
    ensures Col(g.bytes, off) + size < g.bytes ==>
      Row(g.bytes, off + size) == Row(g.bytes, off) && Col(g.bytes, off + size) == Col(g.bytes, off) + size
  {
    RowColShift(g.bytes, off, size - 1);
    if Col(g.bytes, off) + size < g.bytes { RowColShift(g.bytes, off, size); }
  }

  // freeByte moves to the end of r, or to 0 when r ends its cluster.
  ghost predicate Moved(st': Img, r: Range, c: nat)
  {
    st'.freeByte == 0 || (st'.freeByte == r.off + r.len && Row(st'.g.bytes, st'.freeByte) == c &&
      Col(st'.g.bytes, st'.freeByte) != 0)
  }

  lemma MovedSpare(st': Img, rs: seq<Range>, r: Range, c: nat)
    requires Touches(st'.g, r, c) && Moved(st', r, c)
    requires forall i: nat :: i < |rs| && Touches(st'.g, rs[i], c) ==> rs[i].off + rs[i].len <= r.off
    ensures Spare(st', rs + [r])
  {
    CountAdd(st'.g, rs, r, c);
  }

  lemma BumpAdded(st: Img, c: nat, st': Img)
    requires st.Sound() && RcOf(st.rc, c) > 0 && Upd(st, c, 1) == Some(st')
    ensures st'.Sound() && st' == st.(rc := st.rc[c := st.rc[c] + 1])
  {
    UpdGrown(st, c, st');
  }

  lemma CaseHere(st: Img, rs: seq<Range>, size: nat, st': Img, off: nat)
    requires st.Sound() && Handed(st, rs) && st.freeByte != 0 && 0 < size <= Room(st)
    requires Take(st, size) == Some((st', off))
    ensures off == st.freeByte && st'.Sound() && Handed(st', rs + [Range(off, size)])
    ensures Added(st, st', Range(off, size))
  {
    hide Count, Disjoint, Counted, Apart, Upd, Row, Col, Img.Sound;
    var r, c := Range(off, size), Row(st.g.bytes, st.freeByte);
    CountedAt(st, rs, c);
    var mid := st.(freeByte := if Col(st.g.bytes, off) + size == st.g.bytes then 0 else off + size);
    LaterSound(st, mid.freeByte);
    BumpAdded(mid, c, st');
    Within(st.g, off, size);
    assert Apart(st.g, rs, r) by { HereApart(st.g, rs, r, c); }
    MovedSpare(st', rs, r, c);
    StepHanded(st, st', rs, r);
  }

  lemma CountedAt(st: Img, rs: seq<Range>, c: nat)
    requires Counted(st, rs) && Count(st.g, rs, c) > 0
    ensures RcOf(st.rc, c) == Count(st.g, rs, c) && st.Blk(c) == 0
  {
  }

  lemma HereApart(g: Geo, rs: seq<Range>, r: Range, c: nat)
    requires r.len > 0 && FirstOf(g, r) == LastOf(g, r) == c
    requires forall i: nat :: i < |rs| && Touches(g, rs[i], c) ==> rs[i].off + rs[i].len <= r.off
    ensures Apart(g, rs, r)
  {
  }

  // ----- a fresh cluster -----

  lemma LaterSound(st: Img, freeByte: nat)
    requires st.Sound()
    ensures st.(freeByte := freeByte).Sound()
  {
    var st' := st.(freeByte := freeByte);
    forall c: nat ensures st'.Blk(c) == st.Blk(c) && st'.HasBlock(c) == st.HasBlock(c) {}
    assert st'.Covered() && st'.BlocksLive();
  }

  lemma FreshCount(st: Img, st1: Img, x: nat, rs: seq<Range>)
    requires st.Shaped() && Allocated(st, st1, x, 1) && Counted(st, rs)
    ensures Count(st.g, rs, x) == 0 && RcOf(st.rc, x) == 0 && RcOf(st1.rc, x) == 1 && st1.Blk(x) == 0
  {
  }

  lemma FreshAdded(st: Img, rs: seq<Range>, x: nat, st1: Img, r: Range, freeByte: nat)
    requires st.Sound() && Counted(st, rs) && Allocated(st, st1, x, 1) && r.len > 0
    requires FirstOf(st.g, r) == LastOf(st.g, r) == x
    ensures Added(st, st1.(freeByte := freeByte), r) && Exactly(st, rs, r) && Count(st.g, rs, x) == 0
  {
    hide Count, Counted;
    FreshCount(st, st1, x, rs);
  }

  lemma CaseFresh(st: Img, rs: seq<Range>, x: nat, st1: Img, size: nat, st': Img, off: nat)
    requires st.Sound() && Handed(st, rs) && Alloc(st, 1) == Some((st1, x)) && 0 < size <= st.g.bytes
    requires Take(st1.(freeByte := Start(st.g, x)), size) == Some((st', off))
    ensures off == Start(st.g, x) && st'.Sound() && Handed(st', rs + [Range(off, size)])
    ensures Added(st, st', Range(off, size))
  {
    hide Count, Disjoint, Counted, Apart, Added, Exactly, Allocated, Img.Sound, RcOf, Img.Blk, Row, Col, Alloc;
    AllocSpec(st, 1, st1, x);
    RowColOf(st.g.bytes, x, 0);
    var r := Range(Start(st.g, x), size);
    Within(st.g, r.off, size);
    FreshAdded(st, rs, x, st1, r, st'.freeByte);
    LaterSound(st1, st'.freeByte);
    Untouched(st.g, rs, x);
    assert Apart(st.g, rs, r) by { HereApart(st.g, rs, r, x); }
    MovedSpare(st', rs, r, x);
    StepHanded(st, st', rs, r);
  }

  // ----- the next cluster follows the current one -----

  lemma CaseLucky(st: Img, rs: seq<Range>, x: nat, st1: Img, size: nat, st2: Img)
    requires st.Sound() && Handed(st, rs) && st.freeByte != 0 && Room(st) < size <= st.g.bytes
    requires Alloc(st, 1) == Some((st1, x)) && x == Row(st.g.bytes, st.freeByte) + 1 && Upd(st1, x - 1, 1) == Some(st2)
    ensures var st' := st2.(freeByte := st.freeByte + size); var r := Range(st.freeByte, size);
      st'.Sound() && Handed(st', rs + [r]) && Added(st, st', r)
  {
    hide Count, Disjoint, Counted, Apart, Added, Exactly, Allocated, Img.Sound, RcOf, Img.Blk, Row, Col, Upd, Alloc;
    var st', r := st2.(freeByte := st.freeByte + size), Range(st.freeByte, size);
    AllocSpec(st, 1, st1, x);
    CountedAt(st, rs, x - 1);
    Across(st.g, st.freeByte, size);
    LuckyAdded(st, rs, x, st1, r, st2);
    AddedGeo(st, st', r);
    LaterSound(st2, st'.freeByte);
    Untouched(st.g, rs, x);
    assert Apart(st.g, rs, r) by { LuckyApart(st.g, rs, r, x); }
    MovedSpare(st', rs, r, x);
    StepHanded(st, st', rs, r);
  }

  lemma TouchesTwo(g: Geo, r: Range, x: nat, c: nat)
    requires r.len > 0 && x > 0 && FirstOf(g, r) == x - 1 && LastOf(g, r) == x
    ensures Touches(g, r, c) <==> c == x - 1 || c == x
  {
  }

  lemma LuckyAdded(st: Img, rs: seq<Range>, x: nat, st1: Img, r: Range, st2: Img)
    requires st.Sound() && st1.Sound() && Counted(st, rs) && Allocated(st, st1, x, 1) && x > 0
    requires Upd(st1, x - 1, 1) == Some(st2)
    requires Count(st.g, rs, x - 1) > 0 && r.len > 0 && FirstOf(st.g, r) == x - 1 && LastOf(st.g, r) == x
    ensures Added(st, st2.(freeByte := r.off + r.len), r) && Exactly(st, rs, r) && Count(st.g, rs, x) == 0
    ensures st2.Sound()
  {
    hide Count, Counted, Upd, Touches, Img.HasBlock, Img.Covered;
    forall c: nat ensures Touches(st.g, r, c) <==> c == x - 1 || c == x { TouchesTwo(st.g, r, x, c); }
    FreshCount(st, st1, x, rs);
    CountedAt(st, rs, x - 1);
    BumpAdded(st1, x - 1, st2);
  }

  lemma LuckyApart(g: Geo, rs: seq<Range>, r: Range, x: nat)
    requires r.len > 0 && x > 0 && FirstOf(g, r) == x - 1 && LastOf(g, r) == x
    requires forall i: nat :: i < |rs| && Touches(g, rs[i], x - 1) ==> rs[i].off + rs[i].len <= r.off
    requires forall i: nat :: i < |rs| ==> !Touches(g, rs[i], x)
    ensures Apart(g, rs, r)
  {
  }

  lemma Across(g: Geo, off: nat, size: nat)
    requires Col(g.bytes, off) != 0 && size <= g.bytes < Col(g.bytes, off) + size
    ensures Row(g.bytes, off + size - 1) == Row(g.bytes, off + size) == Row(g.bytes, off) + 1
    ensures Col(g.bytes, off + size) != 0
  {
    var row, col := Row(g.bytes, off), Col(g.bytes, off);
    RowColValue(g.bytes, off);
    RowColOf(g.bytes, row + 1, col + size - g.bytes);
    RowColOf(g.bytes, row + 1, col + size - g.bytes - 1);
    assert (row + 1) * g.bytes == row * g.bytes + g.bytes;
  }

  // ----- the call -----

  lemma AllocBytesSpec(st: Img, rs: seq<Range>, size: nat, st': Img, off: nat)
    requires st.Sound() && Handed(st, rs) && 0 < size <= st.g.bytes && AllocBytes(st, size) == Some((st', off))
    ensures st'.Sound() && Handed(st', rs + [Range(off, size)]) && Added(st, st', Range(off, size))
  {
    hide Handed, Take, Added, Row, Col, Alloc, Upd, Img.Sound;
    if st.freeByte != 0 && size <= Room(st) {
      CaseHere(st, rs, size, st', off);
    } else {
      var (st1, x) := Alloc(st, 1).value;
      NextSound(st, st1, x);
      RowColOf(st.g.bytes, x, 0);
      if st.freeByte != 0 && Row(st.g.bytes, st.freeByte) + 1 == x {
        CaseLucky(st, rs, x, st1, size, Upd(st1, x - 1, 1).value);
      } else {
        CaseFresh(st, rs, x, st1, size, st', off);
      }
    }
  }

  // ----- runs -----

  lemma NoneHanded(st: Img)
    requires st.freeByte == 0
    ensures Handed(st, [])
  {
  }

  lemma AddedGeo(st: Img, st': Img, r: Range)
    requires Added(st, st', r)
    ensures st'.g == st.g
  {
  }

  function AllocRun(st: Img, sizes: seq<nat>): Option<(Img, seq<Range>)>
  {
    if |sizes| == 0 then Some((st, []))
    else
      var (st1, rs) :- AllocRun(st, sizes[..|sizes| - 1]);
      var (st2, off) :- AllocBytes(st1, sizes[|sizes| - 1]);
      Some((st2, rs + [Range(off, sizes[|sizes| - 1])]))
  }

  // Over any run of calls the ranges have the sizes asked for, are disjoint, lie in allocated
  // clusters, and the count of each such cluster is the number of ranges touching it.
  lemma {:induction false} RunHanded(st: Img, sizes: seq<nat>, st': Img, rs: seq<Range>)
    requires st.Sound() && st.freeByte == 0 && AllocRun(st, sizes) == Some((st', rs))
    requires forall i: nat :: i < |sizes| ==> 0 < sizes[i] <= st.g.bytes
    ensures st'.Sound() && st'.g == st.g && Handed(st', rs) && |rs| == |sizes|
    ensures forall i: nat :: i < |rs| ==> rs[i].len == sizes[i]
  {
    hide AllocBytes, Img.Sound, Handed, Added;
    if |sizes| == 0 {
      NoneHanded(st);
    } else {
      var n := |sizes| - 1;
      var (st1, rs1) := AllocRun(st, sizes[..n]).value;
      RunHanded(st, sizes[..n], st1, rs1);
      var off := AllocBytes(st1, sizes[n]).value.1;
      AllocBytesSpec(st1, rs1, sizes[n], st', off);
      AddedGeo(st1, st', Range(off, sizes[n]));
    }
  }
}

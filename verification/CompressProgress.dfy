// When a compressed write goes through, and an image that holds a compressed cluster.

module CompressProgress {
  import opened Basics
  import opened Arith
  import opened Layout
  import opened Refcounts
  import opened Invariant
  import opened GuestWrite
  import opened L1Table
  import opened L1Grow
  import opened Runs
  import opened Fresh
  import opened ByteAlloc
  import opened HostBytes
  import opened Packing
  import opened Conversion
  import opened Progress
  import opened OperationProgress

  // Room for `size` bytes: in the current cluster, whose count goes up, or in a new one, which may continue it.
  ghost predicate BytesFit(st: Img, size: nat)
  {
    var c := Row(st.g.bytes, st.freeByte);
    if st.freeByte != 0 && size <= Room(st) then RcOf(st.rc, c) < MAX_REFCOUNT
    else AllocFits(st, 1) && (st.freeByte != 0 && FirstFit(st.rc, st.freeIdx, 1) == c + 1 ==>
      RcOf(st.rc, c) < MAX_REFCOUNT)
  }

  lemma BumpExact(st: Img, c: nat)
    requires st.Sound() && RcOf(st.rc, c) > 0
    ensures Upd(st, c, 1).Some? <==> RcOf(st.rc, c) < MAX_REFCOUNT
  {
    assert st.HasBlock(c);
    RowLess(st.g.reach, c, |st.table|);
  }

  // The cluster at freeByte is counted.
  lemma CurrentCounted(st: Img, rs: seq<Range>)
    requires Handed(st, rs) && st.freeByte != 0
    ensures RcOf(st.rc, Row(st.g.bytes, st.freeByte)) > 0
  {
    hide Count, Row, Touches, Disjoint;
  }

  lemma MovedCount(st: Img, st1: Img, x: nat, c: nat)
    requires st.Shaped() && Allocated(st, st1, x, 1) && RcOf(st.rc, c) > 0
    ensures RcOf(st1.rc, c) == RcOf(st.rc, c)
  {
    assert st1.Blk(c) >= st.Blk(c);
  }

  lemma AllocBytesExact(st: Img, rs: seq<Range>, size: nat)
    requires st.Sound() && Handed(st, rs) && 0 < size <= st.g.bytes
    ensures AllocBytes(st, size).Some? <==> BytesFit(st, size)
  {
    hide Handed, Row, Col, Alloc, Upd, AllocFits, FirstFit, Img.Sound, Allocated, RcOf;
    var c := Row(st.g.bytes, st.freeByte);
    if st.freeByte != 0 { CurrentCounted(st, rs); }
    if st.freeByte != 0 && size <= Room(st) {
      HereExact(st, rs, size);
    } else {
      AllocExact(st, 1);
      if Alloc(st, 1).Some? {
        var (st1, x) := Alloc(st, 1).value;
        AllocSpec(st, 1, st1, x);
        NextSound(st, st1, x);
        SoundShape(st);
        RowColOf(st.g.bytes, x, 0);
        if st.freeByte != 0 && c + 1 == x {
          MovedCount(st, st1, x, c);
          BumpExact(st1, c);
        }
      }
    }
  }

  lemma SoundShape(st: Img)
    requires st.Sound()
    ensures st.Shaped()
  {
  }

  lemma HereExact(st: Img, rs: seq<Range>, size: nat)
    requires st.Sound() && Handed(st, rs) && st.freeByte != 0 && 0 < size <= Room(st)
    ensures AllocBytes(st, size).Some? <==> RcOf(st.rc, Row(st.g.bytes, st.freeByte)) < MAX_REFCOUNT
  {
    hide Row, Col, Upd, Img.Sound, RcOf, Count, Touches, Disjoint, Counted;
    var mid := st.(freeByte := if Col(st.g.bytes, st.freeByte) + size == st.g.bytes then 0 else st.freeByte + size);
    CurrentCounted(st, rs);
    LaterSound(st, mid.freeByte);
    BumpExact(mid, Row(st.g.bytes, st.freeByte));
  }

  // qcow_write_compressed on an unallocated cluster.
  ghost predicate CompressFits(deflate: Deflate, st: Img, vc: nat, data: seq<Sector>)
  {
    var i, j := Row(st.g.width, vc), Col(st.g.width, vc);
    var st1 := Then(GrowL1(st, i + 1), st);
    var st2 := Then(OwnL2(st1, i), st1);
    && GrowFits(st, i + 1) && OwnFits(st1, i)
    && (if |deflate(data)| >= st.g.bytes then SlotRoom(st2, i, j) else BytesFit(st2, |deflate(data)|))
  }

  lemma PackSlotExact(deflate: Deflate, st: Img, reg: seq<Packet>, i: nat, j: nat, z: seq<bv8>)
    requires Inv(st) && Packs(deflate, st, reg) && i < |st.l1| && st.l1[i].Plain? && j < st.g.width
    requires 0 < |z| <= st.g.bytes
    requires L2Word(st.disk, st.l1[i], j).Zero?
    ensures PackSlot(st, i, j, z).Some? <==> BytesFit(st, |z|)
  {
    hide Inv, AllocBytes, BytesFit, Handed, Filed, Listed, WithStream;
    InvSound(st);
    SlotWidth(st, i);
    AllocBytesExact(st, Ranges(deflate, reg), |z|);
  }

  lemma CompressExact(env: Env, deflate: Deflate, st: Img, reg: seq<Packet>, vc: nat, data: seq<Sector>)
    requires Inv(st) && Stored16(st) && Packs(deflate, st, reg) && |deflate(data)| > 0
    requires L2Word(st.disk, SlotAt(st.l1, Row(st.g.width, vc)), Col(st.g.width, vc)).Zero?
    ensures Compress(env, deflate, st, vc, data).Some? <==> CompressFits(deflate, st, vc, data)
  {
    hide Inv, Stored16, Packs, GrowL1, OwnL2, PackSlot, WriteCluster, GrowFits, OwnFits, SlotRoom, BytesFit, AllocFits;
    hide Row, Col;
    var i, j := Row(st.g.width, vc), Col(st.g.width, vc);
    if |deflate(data)| >= st.g.bytes {
      WriteClusterExact(env, st, i, j, 0, data);
    } else {
      GrowExact(st, i + 1);
      if GrowL1(st, i + 1).Some? {
        var st1 := GrowL1(st, i + 1).value;
        GrowCorrect(env, st, i + 1, st1);
        GrowStored(st, i + 1);
        OwnExact(st1, i);
        if OwnL2(st1, i).Some? {
          var st2 := OwnL2(st1, i).value;
          OwnSlotLeft(env, deflate, st, reg, i, st1, st2);
          PackSlotExact(deflate, st2, reg, i, j, deflate(data));
        }
      }
    }
  }

  // ----- an image with a compressed cluster -----

  // All clusters below k are counted, none from k on, and the next two lie in the first block's range.
  ghost predicate FilledTo(st: Img, k: nat)
  {
    && |st.table| > 0 && st.table[0] != 0 && k < st.g.reach <= |st.rc| && |st.disk| == |st.rc| && st.freeIdx <= k
    && (forall c: nat :: c < |st.rc| ==> (st.rc[c] == 0 <==> c >= k))
  }

  lemma FilledFits(st: Img, k: nat)
    requires FilledTo(st, k)
    ensures FirstFit(st.rc, st.freeIdx, 1) == k && AllocFits(st, 1)
    ensures Alloc(st, 1) == Some((st.(rc := st.rc[k := 1], freeIdx := k + 1), k))
  {
    FirstFitSpec(st.rc, st.freeIdx, 1);
    var x := FirstFit(st.rc, st.freeIdx, 1);
    assert RcOf(st.rc, x) == 0;
    assert RunFree(st.rc, k, 1);
    assert Row(st.g.reach, k) == 0;
    var st1 := st.(freeIdx := k + 1);
    var st2 := st.(rc := st.rc[k := 1], freeIdx := k + 1);
    assert Upd(st1, k, 1) == Some(st2);
    assert UpdRun(st2, k + 1, 0, 1) == Some(st2);
  }

  lemma CreatedFilled(g: Geo, blocks: nat, l1Size: nat)
    requires blocks > 0 && L1Clusters(g, l1Size) + 4 <= g.reach
    ensures FilledTo(Created(g, blocks, l1Size), L1Clusters(g, l1Size) + 3)
  {
    hide StoreL1;
    assert g.reach <= blocks * g.reach;
  }

  // The first cluster compressed into a new image goes through, and leaves a compressed word behind.
  lemma FirstPacked(env: Env, deflate: Deflate, g: Geo, blocks: nat, l1Size: nat, vc: nat,
                    data: seq<Sector>) returns (st': Img)
    requires env.Lawful() && Zlib(env, deflate) && Sized(g) && blocks > 0 && L1Clusters(g, l1Size) + 5 <= g.reach
    requires Row(g.width, vc) < l1Size && |data| == g.spc && |deflate(data)| < g.bytes
    ensures Compress(env, deflate, Created(g, blocks, l1Size), vc, data) == Some(st')
    ensures Inv(st') && L2Word(st'.disk, SlotAt(st'.l1, Row(g.width, vc)), Col(g.width, vc)).Packed?
  {
    hide Inv, Packs, Alloc, AllocFits, Row, Col, FilledTo, Zlib, PackSlot, StoreL1, GrowL1;
    var st := Created(g, blocks, l1Size);
    var i, j, n := Row(g.width, vc), Col(g.width, vc), L1Clusters(g, l1Size);
    CreatedInv(g, blocks, l1Size);
    CreatedPacks(deflate, g, blocks, l1Size);
    CreatedFilled(g, blocks, l1Size);
    FilledFits(st, n + 3);
    var st2 := OwnL2(st, i).value;
    NextFilled(st, n + 3, st2);
    FilledFits(st2, n + 4);
    NoGrowth(st, i + 1);
    NeverEmpty(env, deflate, data);
    OwnSlotLeft(env, deflate, st, [], i, st, st2);
    PackSlotExact(deflate, st2, [], i, j, deflate(data));
    st' := PackSlot(st2, i, j, deflate(data)).value;
    var p := PackFiles(deflate, st2, [], i, j, data, st');
    PackedWord(deflate, st', [], p);
  }

  lemma NoGrowth(st: Img, min: nat)
    requires min <= |st.l1|
    ensures GrowL1(st, min) == Some(st)
  {
  }

  lemma NextFilled(st: Img, k: nat, st2: Img)
    requires FilledTo(st, k) && k + 1 < st.g.reach && st2.g == st.g && st2.table == st.table && st2.freeIdx == k + 1
    requires st2.rc == st.rc[k := 1] && |st2.disk| == |st.disk|
    ensures FilledTo(st2, k + 1)
  {
  }

  lemma PackedWord(deflate: Deflate, st: Img, reg: seq<Packet>, p: Packet)
    requires Packs(deflate, st, reg + [p])
    ensures L2Word(st.disk, SlotAt(st.l1, p.i), p.j).Packed?
  {
    hide Handed, BytesAre, Listed;
    assert Filed(deflate, st, (reg + [p])[|reg|]);
  }
}

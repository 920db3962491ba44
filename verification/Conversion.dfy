// Writing an image cluster by cluster with qcow_write_compressed.

module Conversion {
  import opened Basics
  import opened Arith
  import opened Layout
  import opened Refcounts
  import opened Invariant
  import opened GuestWrite
  import opened DataWrite
  import opened TableMoves
  import opened L1Grow
  import opened Runs
  import opened Fresh
  import opened ByteAlloc
  import opened HostBytes
  import opened Packing

  type Deflate = seq<Sector> -> seq<bv8>

  // Inflating from where a deflated cluster starts gives the cluster back, whatever follows its stream.
  ghost predicate Zlib(env: Env, deflate: Deflate)
  {
    && (forall data: seq<Sector> :: |deflate(data)| > 0)
    && (forall data: seq<Sector>, stream: seq<Sector>, off: nat, k: nat ::
          StreamHas(stream, off, deflate(data)) && k < |data| ==> env.inflate(stream, off, k) == data[k])
  }

  lemma NeverEmpty(env: Env, deflate: Deflate, data: seq<Sector>)
    requires Zlib(env, deflate)
    ensures |deflate(data)| > 0
  {
  }

  // A compressed cluster: its place in the tables, where its stream starts, and its data.
  datatype Packet = Packet(i: nat, j: nat, at: nat, data: seq<Sector>)

  function RangeOf(deflate: Deflate, p: Packet): Range { Range(p.at, |deflate(p.data)|) }

  function Ranges(deflate: Deflate, reg: seq<Packet>): (rs: seq<Range>)
    ensures |rs| == |reg|
  {
    seq(|reg|, q requires 0 <= q < |reg| => RangeOf(deflate, reg[q]))
  }

  // The tables point to the stream of p, and the stream is there.
  ghost predicate Filed(deflate: Deflate, st: Img, p: Packet)
  {
    var z := deflate(p.data);
    && p.i < |st.l1| && |p.data| == st.g.spc && |z| > 0
    && L2Word(st.disk, st.l1[p.i], p.j) == PackedAt(p.at, |z|) && BytesAre(st.g, st.disk, p.at, z)
  }

  // reg lists the compressed clusters of an image without snapshots.
  ghost predicate Packs(deflate: Deflate, st: Img, reg: seq<Packet>)
  {
    && Sized(st.g) && st.snaps == [] && Handed(st, Ranges(deflate, reg))
    && (forall q: nat :: q < |reg| ==> Filed(deflate, st, reg[q]))
    && Listed(st, reg)
  }

  ghost predicate Listed(st: Img, reg: seq<Packet>)
  {
    forall k: nat, l: nat :: k < |st.l1| && L2Word(st.disk, st.l1[k], l).Packed? ==> Lists(reg, k, l)
  }

  ghost predicate Lists(reg: seq<Packet>, k: nat, l: nat)
  {
    exists q: nat :: q < |reg| && reg[q].i == k && reg[q].j == l
  }

  // A filed cluster is read back.
  lemma PacketView(env: Env, deflate: Deflate, st: Img, p: Packet, s: nat)
    requires Zlib(env, deflate) && Filed(deflate, st, p) && s < st.g.spc
    ensures View(env, st, p.i, p.j, s) == p.data[s]
  {
    hide Stream, BytesAre;
    StreamBytes(st.g, st.disk, p.at, deflate(p.data));
  }

  // ----- clusters that hold streams -----

  // Cluster x holds part of the stream of packet q.
  lemma PacketCluster(deflate: Deflate, st: Img, reg: seq<Packet>, q: nat, x: nat)
    requires Inv(st) && Packs(deflate, st, reg) && q < |reg| && Touches(st.g, RangeOf(deflate, reg[q]), x)
    ensures Loose(st, x) && RcOf(st.rc, x) > 0 && ActiveRefs(st, x) > 0
    ensures x < |st.disk| && st.disk[x].Data? && |st.disk[x].sectors| == st.g.spc
  {
    hide Handed, BytesAre;
    var p := reg[q];
    assert Filed(deflate, st, p);
    PackedTouches(st.g, p.at, |deflate(p.data)|, x);
    assert SlotTyped(st.g, st.disk, st.l1[p.i]);
    WordRefs(st, p.i, p.j, x);
    assert RcOf(st.rc, x) == Refs(st, x) + st.Blk(x);
    SharedLoose(st, p.i, p.j, x);
  }

  lemma {:induction false} CountFind(g: Geo, rs: seq<Range>, c: nat) returns (q: nat)
    requires Count(g, rs, c) > 0
    ensures q < |rs| && Touches(g, rs[q], c)
  {
    if Touches(g, rs[|rs| - 1], c) { q := |rs| - 1; } else { q := CountFind(g, rs[..|rs| - 1], c); }
  }

  // ----- steps that leave compressed clusters alone -----

  // No compressed word appears, disappears or changes.
  ghost predicate WordsKept(st: Img, st': Img)
  {
    forall k: nat, l: nat ::
      var w, w' := L2Word(st.disk, SlotAt(st.l1, k), l), L2Word(st'.disk, SlotAt(st'.l1, k), l);
      w.Packed? || w'.Packed? ==> w' == w
  }

  ghost predicate SameWords(st: Img, st': Img)
  {
    forall k: nat, l: nat :: L2Word(st'.disk, SlotAt(st'.l1, k), l) == L2Word(st.disk, SlotAt(st.l1, k), l)
  }

  // Clusters that hold nothing but streams keep their contents and counts.
  ghost predicate StreamsKept(st: Img, st': Img)
  {
    |st'.disk| == |st.disk| &&
    forall x: nat :: x < |st.disk| && Loose(st, x) && ActiveRefs(st, x) > 0 ==>
      st'.disk[x] == st.disk[x] && RcOf(st'.rc, x) == RcOf(st.rc, x) && st'.Blk(x) == 0
  }

  ghost predicate LeftAlone(st: Img, st': Img)
  {
    st'.g == st.g && st'.snaps == st.snaps && st'.freeByte == st.freeByte && |st'.l1| >= |st.l1| &&
      WordsKept(st, st') && StreamsKept(st, st')
  }

  lemma LeftHanded(deflate: Deflate, st: Img, reg: seq<Packet>, st': Img)
    requires Inv(st) && Packs(deflate, st, reg) && LeftAlone(st, st')
    ensures Handed(st', Ranges(deflate, reg))
  {
    hide Inv, Loose, Filed, WordsKept, Count, Touches, Row, Col;
    var rs := Ranges(deflate, reg);
    forall c: nat | Count(st'.g, rs, c) > 0 ensures RcOf(st'.rc, c) == Count(st'.g, rs, c) && st'.Blk(c) == 0 {
      var q := CountFind(st.g, rs, c);
      PacketCluster(deflate, st, reg, q, c);
    }
  }

  lemma LeftFiled(deflate: Deflate, st: Img, reg: seq<Packet>, st': Img, q: nat)
    requires Inv(st) && Packs(deflate, st, reg) && LeftAlone(st, st') && q < |reg|
    ensures Filed(deflate, st', reg[q])
  {
    hide Inv, Loose, Handed, Touches, HostByte, Row;
    var p := reg[q];
    var z := deflate(p.data);
    assert Filed(deflate, st, p);
    forall a: nat | p.at <= a < p.at + |z| ensures HostByte(st'.g, st'.disk, a) == z[a - p.at] {
      TouchesByte(st.g, p.at, |z|, a);
      PacketCluster(deflate, st, reg, q, Row(st.g.bytes, a));
      SameByte(st.g, st.disk, st'.disk, a);
    }
    assert SlotAt(st.l1, p.i) == st.l1[p.i] && SlotAt(st'.l1, p.i) == st'.l1[p.i];
  }

  lemma SameByte(g: Geo, d: Disk, d': Disk, a: nat)
    requires Sized(g) && |d'| == |d| && Row(g.bytes, a) < |d| && d'[Row(g.bytes, a)] == d[Row(g.bytes, a)]
    ensures HostByte(g, d', a) == HostByte(g, d, a)
  {
    ByteCluster(g, a);
  }

  lemma LeftPacks(deflate: Deflate, st: Img, reg: seq<Packet>, st': Img)
    requires Inv(st) && Packs(deflate, st, reg) && LeftAlone(st, st')
    ensures Packs(deflate, st', reg)
  {
    hide Inv, Handed, Filed, StreamsKept;
    LeftHanded(deflate, st, reg, st');
    forall q: nat | q < |reg| ensures Filed(deflate, st', reg[q]) { LeftFiled(deflate, st, reg, st', q); }
    forall k: nat, l: nat | k < |st'.l1| && L2Word(st'.disk, st'.l1[k], l).Packed? ensures Lists(reg, k, l) {
      assert L2Word(st'.disk, SlotAt(st'.l1, k), l) == L2Word(st.disk, SlotAt(st.l1, k), l);
    }
  }

  lemma GrowLeft(st: Img, min: nat, st': Img)
    requires Inv(st) && GrowL1(st, min) == Some(st')
    ensures LeftAlone(st, st') && SameWords(st, st')
  {
    if min > |st.l1| {
      hide GrowL1;
      var at := GrowSpec(st, min, st');
      GrowStreams(st, st', at);
      GrowWords(st, st', at);
    } else {
      SameLeft(st);
    }
  }

  lemma SameLeft(st: Img)
    ensures LeftAlone(st, st) && SameWords(st, st)
  {
  }

  lemma GrowStreams(st: Img, st': Img, at: nat)
    requires Inv(st) && Lengthened(st, st', at)
    ensures StreamsKept(st, st')
  {
    hide Stored;
    forall x: nat | x < |st.disk| && Loose(st, x) && ActiveRefs(st, x) > 0
      ensures st'.disk[x] == st.disk[x] && RcOf(st'.rc, x) == RcOf(st.rc, x) && st'.Blk(x) == 0
    {
      assert RcOf(st.rc, x) == Refs(st, x) + st.Blk(x);
      ExchangedCount(st, st', at, L1Clusters(st.g, |st'.l1|), st.l1At, L1Clusters(st.g, |st.l1|), x);
    }
  }

  lemma GrowWords(st: Img, st': Img, at: nat)
    requires Inv(st) && Lengthened(st, st', at)
    ensures SameWords(st, st')
  {
    forall k: nat, l: nat ensures L2Word(st'.disk, SlotAt(st'.l1, k), l) == L2Word(st.disk, SlotAt(st.l1, k), l) {
      if k < |st.l1| {
        assert st'.l1[k] == st'.l1[..|st.l1|][k];
        assert SlotTyped(st.g, st.disk, st.l1[k]);
        if st.l1[k].Plain? {
          TreeRefsAt(st.g, st.disk, st.l1, |st.l1|, k, st.l1[k].at);
          assert RcOf(st.rc, st.l1[k].at) == Refs(st, st.l1[k].at) + st.Blk(st.l1[k].at);
        }
      }
    }
  }

  lemma OwnLeft(st: Img, i: nat, st': Img)
    requires Inv(st) && OwnL2(st, i) == Some(st')
    ensures LeftAlone(st, st') && SameWords(st, st')
  {
    hide OwnL2, Inv, Owned;
    OwnL2Spec(st, i, st');
    if st' != st {
      var n: nat :| Owned(st, st', i, n);
      OwnedLeft(st, st', i, n);
    } else {
      SameLeft(st);
    }
  }

  lemma OwnedLeft(st: Img, st': Img, i: nat, n: nat)
    requires Inv(st) && Owned(st, st', i, n)
    ensures LeftAlone(st, st') && SameWords(st, st')
  {
    forall k: nat, l: nat ensures L2Word(st'.disk, SlotAt(st'.l1, k), l) == L2Word(st.disk, SlotAt(st.l1, k), l) {
      if k < |st.l1| { OwnedWord(st, st', i, n, k, l); }
    }
    forall x: nat | x < |st.disk| && Loose(st, x) && ActiveRefs(st, x) > 0
      ensures st'.disk[x] == st.disk[x] && RcOf(st'.rc, x) == RcOf(st.rc, x) && st'.Blk(x) == 0
    {
      assert RcOf(st.rc, x) == Refs(st, x) + st.Blk(x);
      assert st'.Blk(x) >= st.Blk(x);
    }
  }

  // Storing a cluster uncompressed.
  lemma PlainLeft(st: Img, st': Img, i: nat, j: nat, d: nat)
    requires Inv(st) && Replaced(st, st', i, j, d) && L2Word(st.disk, st.l1[i], j).Zero?
    ensures LeftAlone(st, st')
  {
    forall k: nat, l: nat ensures
      var w, w' := L2Word(st.disk, SlotAt(st.l1, k), l), L2Word(st'.disk, SlotAt(st'.l1, k), l);
      w.Packed? || w'.Packed? ==> w' == w
    {
      if k < |st.l1| { ReplacedWord(st, st', i, j, d, k, l); }
    }
    forall x: nat | x < |st.disk| && Loose(st, x) && ActiveRefs(st, x) > 0
      ensures st'.disk[x] == st.disk[x] && RcOf(st'.rc, x) == RcOf(st.rc, x) && st'.Blk(x) == 0
    {
      assert RcOf(st.rc, x) == Refs(st, x) + st.Blk(x);
      assert st'.Blk(x) >= st.Blk(x);
    }
  }

  // ----- storing a cluster compressed -----

  // A cluster the new range touches was free or held only streams.
  lemma TouchedLoose(deflate: Deflate, st: Img, reg: seq<Packet>, st1: Img, r: Range, x: nat)
    requires Inv(st) && Packs(deflate, st, reg) && Added(st, st1, r) && Handed(st1, Ranges(deflate, reg) + [r])
    requires Touches(st.g, r, x)
    ensures Loose(st, x)
  {
    hide Inv, Loose, Filed, Touches, Count, Row, Disjoint, Spare;
    var rs := Ranges(deflate, reg);
    CountAdd(st.g, rs, r, x);
    if Count(st.g, rs, x) > 0 {
      var q := CountFind(st.g, rs, x);
      PacketCluster(deflate, st, reg, q, x);
    } else {
      FreeLoose(st, x);
    }
  }

  // In the second case it holds data.
  lemma StreamData(deflate: Deflate, st: Img, reg: seq<Packet>, st1: Img, r: Range, x: nat)
    requires Inv(st) && Packs(deflate, st, reg) && Added(st, st1, r) && Handed(st1, Ranges(deflate, reg) + [r])
    requires Touches(st.g, r, x)
    requires RcOf(st.rc, x) > 0
    ensures x < |st.disk| && st.disk[x].Data?
  {
    hide Inv, Loose, Filed, Touches, Count, Row, Disjoint, Spare;
    var rs := Ranges(deflate, reg);
    CountAdd(st.g, rs, r, x);
    var q := CountFind(st.g, rs, x);
    PacketCluster(deflate, st, reg, q, x);
  }

  lemma PacksHanded(deflate: Deflate, st: Img, reg: seq<Packet>)
    requires Packs(deflate, st, reg)
    ensures Handed(st, Ranges(deflate, reg))
  {
  }

  lemma PackedDisk(deflate: Deflate, st: Img, reg: seq<Packet>, i: nat, j: nat, st1: Img, at: nat, z: seq<bv8>)
    requires Inv(st) && Packs(deflate, st, reg) && i < |st.l1| && st.l1[i].Plain? && j < |Ents(st.disk, st.l1[i].at)|
    requires |z| > 0
    requires Added(st, st1, Range(at, |z|)) && Handed(st1, Ranges(deflate, reg) + [Range(at, |z|)])
    ensures var t, ents := st.l1[i].at, Ents(st.disk, st.l1[i].at);
      LinkedDisk(st, WithStream(st1, t, ents, j, at, z), t, ents[j := PackedAt(at, |z|)], PackedAt(at, |z|))
  {
    hide Handed, Filed, Touches, Loose, PackedAt, EntryRefs;
    var t, ents, e, r := st.l1[i].at, Ents(st.disk, st.l1[i].at), PackedAt(at, |z|), Range(at, |z|);
    var st' := WithStream(st1, t, ents, j, at, z);
    assert SlotTyped(st.g, st.disk, st.l1[i]);
    forall x: nat ensures EntryRefs(st.g, e, x) == B2N(Touches(st.g, r, x)) { PackedTouches(st.g, at, |z|, x); }
    forall x: nat | Touches(st.g, r, x) ensures x != t && Loose(st, x) {
      TouchedLoose(deflate, st, reg, st1, r, x);
      LooseApart(st, i, x);
    }
    forall x: nat ensures st'.Blk(x) == st1.Blk(x) {}
    forall x: nat | x < |st.disk| && RcOf(st.rc, x) == 0
      ensures Quiet(st, x)
    {
      assert RcOf(st.rc, x) == Refs(st, x) + st.Blk(x);
    }
  }

  lemma LooseApart(st: Img, i: nat, x: nat)
    requires i < |st.l1| && st.l1[i].Plain? && Loose(st, x)
    ensures st.l1[i].at != x
  {
  }

  lemma PackLinked(deflate: Deflate, st: Img, reg: seq<Packet>, i: nat, j: nat, st1: Img, at: nat, z: seq<bv8>,
                   st': Img)
    requires Inv(st) && Packs(deflate, st, reg) && i < |st.l1| && st.l1[i].Plain? && st.l1[i].copied
    requires j < |Ents(st.disk, st.l1[i].at)| && Ents(st.disk, st.l1[i].at)[j].Zero? && |z| > 0
    requires st1.Sound() && Added(st, st1, Range(at, |z|)) && Handed(st1, Ranges(deflate, reg) + [Range(at, |z|)])
    requires st' == WithStream(st1, st.l1[i].at, Ents(st.disk, st.l1[i].at), j, at, z)
    ensures Linked(st, st', i, j, PackedAt(at, |z|))
  {
    hide Inv, Handed, Filed, Touches, LinkedDisk, EntryRefs, PutBytes;
    PackedDisk(deflate, st, reg, i, j, st1, at, z);
    forall x: nat
      ensures EntryRefs(st.g, PackedAt(at, |z|), x) == B2N(Touches(st.g, Range(at, |z|), x))
    {
      PackedTouches(st.g, at, |z|, x);
    }
    forall x: nat ensures st'.Blk(x) == st1.Blk(x) && st'.HasBlock(x) == st1.HasBlock(x) {}
  }

  // Bytes of the streams stored before.
  lemma OldBytes(deflate: Deflate, st: Img, reg: seq<Packet>, i: nat, j: nat, st1: Img, at: nat, z: seq<bv8>, st': Img,
                 q: nat)
    requires Inv(st) && Packs(deflate, st, reg) && i < |st.l1| && st.l1[i].Plain?
    requires j < |Ents(st.disk, st.l1[i].at)| && |z| > 0 && q < |reg|
    requires Added(st, st1, Range(at, |z|)) && Handed(st1, Ranges(deflate, reg) + [Range(at, |z|)])
    requires st' == WithStream(st1, st.l1[i].at, Ents(st.disk, st.l1[i].at), j, at, z)
    ensures BytesAre(st'.g, st'.disk, reg[q].at, deflate(reg[q].data))
  {
    hide Inv, Touches, HostByte, Row, Loose, Counted, Spare, PutBytes;
    var p, t := reg[q], st.l1[i].at;
    var y := deflate(p.data);
    var d := SetBlock(st1.disk, t, L2(Ents(st.disk, t)[j := PackedAt(at, |z|)]));
    var all := Ranges(deflate, reg) + [Range(at, |z|)];
    assert all[q] == RangeOf(deflate, p) && all[|reg|] == Range(at, |z|);
    assert Filed(deflate, st, p);
    forall a: nat | p.at <= a < p.at + |y| ensures HostByte(st'.g, st'.disk, a) == y[a - p.at] {
      var x := Row(st.g.bytes, a);
      TouchesByte(st.g, p.at, |y|, a);
      PacketCluster(deflate, st, reg, q, x);
      LooseApart(st, i, x);
      assert d[x] == st.disk[x];
      PutBytesAt(st.g, d, at, z, a);
      SameByte(st.g, st.disk, d, a);
    }
  }

  lemma NewBytes(deflate: Deflate, st: Img, i: nat, j: nat, st1: Img, at: nat, z: seq<bv8>, st': Img)
    requires st.Shaped() && Sized(st.g) && i < |st.l1| && st.l1[i].Plain? && j < |Ents(st.disk, st.l1[i].at)| && |z| > 0
    requires Added(st, st1, Range(at, |z|))
    requires st' == WithStream(st1, st.l1[i].at, Ents(st.disk, st.l1[i].at), j, at, z)
    ensures BytesAre(st'.g, st'.disk, at, z)
  {
    hide Touches, HostByte, Row, PutBytes;
    var d := SetBlock(st1.disk, st.l1[i].at, L2(Ents(st.disk, st.l1[i].at)[j := PackedAt(at, |z|)]));
    forall a: nat | at <= a < at + |z| ensures HostByte(st'.g, st'.disk, a) == z[a - at] {
      TouchesByte(st.g, at, |z|, a);
      PutBytesAt(st.g, d, at, z, a);
    }
  }

  lemma HandedSame(st1: Img, st': Img, rs: seq<Range>)
    requires Handed(st1, rs) && st'.g == st1.g && st'.rc == st1.rc && st'.table == st1.table
    requires st'.freeByte == st1.freeByte
    ensures Handed(st', rs)
  {
    hide Count, Disjoint, Touches;
    forall c: nat ensures st'.Blk(c) == st1.Blk(c) {}
  }

  lemma RangesMore(deflate: Deflate, reg: seq<Packet>, p: Packet)
    ensures Ranges(deflate, reg + [p]) == Ranges(deflate, reg) + [RangeOf(deflate, p)]
  {
  }

  // PackSlot files one more packet.
  lemma PackFiles(deflate: Deflate, st: Img, reg: seq<Packet>, i: nat, j: nat, data: seq<Sector>,
                  st': Img) returns (p: Packet)
    requires Inv(st) && Packs(deflate, st, reg) && i < |st.l1| && st.l1[i].Plain? && st.l1[i].copied
    requires |data| == st.g.spc && 0 < |deflate(data)| <= st.g.bytes && PackSlot(st, i, j, deflate(data)) == Some(st')
    ensures Inv(st') && Packs(deflate, st', reg + [p]) && p.i == i && p.j == j && p.data == data
    ensures Linked(st, st', i, j, PackedAt(p.at, |deflate(data)|))
  {
    hide Inv, Handed, Added, Linked, AllocBytes, BytesAre, WithStream, Img.Sound;
    var z := deflate(data);
    var (st1, at) := AllocBytes(st, |z|).value;
    p := Packet(i, j, at, data);
    InvSound(st);
    InvShaped(st);
    AllocBytesSpec(st, Ranges(deflate, reg), |z|, st1, at);
    PackLinked(deflate, st, reg, i, j, st1, at, z, st');
    LinkedInv(st, st', i, j, PackedAt(at, |z|));
    RangesMore(deflate, reg, p);
    PackHanded(st1, st', st.l1[i].at, Ents(st.disk, st.l1[i].at), j, at, z, Ranges(deflate, reg + [p]));
    NewBytes(deflate, st, i, j, st1, at, z, st');
    forall q: nat | q < |reg| ensures BytesAre(st'.g, st'.disk, reg[q].at, deflate(reg[q].data)) {
      OldBytes(deflate, st, reg, i, j, st1, at, z, st', q);
    }
    FiledMore(deflate, st, reg, i, j, st', p);
  }

  lemma InvShaped(st: Img)
    requires Inv(st)
    ensures st.Shaped()
  {
  }

  lemma PackHanded(st1: Img, st': Img, t: nat, ents: seq<Entry>, j: nat, at: nat, z: seq<bv8>, rs: seq<Range>)
    requires j < |ents| && |z| > 0 && st' == WithStream(st1, t, ents, j, at, z) && Handed(st1, rs)
    ensures Handed(st', rs)
  {
    hide Handed, PutBytes;
    HandedSame(st1, st', rs);
  }

  lemma FiledMore(deflate: Deflate, st: Img, reg: seq<Packet>, i: nat, j: nat, st': Img, p: Packet)
    requires Inv(st) && Packs(deflate, st, reg) && p.i == i && p.j == j && |p.data| == st.g.spc && |deflate(p.data)| > 0
    requires Linked(st, st', i, j, PackedAt(p.at, |deflate(p.data)|)) && Handed(st', Ranges(deflate, reg + [p]))
    requires BytesAre(st'.g, st'.disk, p.at, deflate(p.data))
    requires forall q: nat :: q < |reg| ==> BytesAre(st'.g, st'.disk, reg[q].at, deflate(reg[q].data))
    ensures Packs(deflate, st', reg + [p])
  {
    hide Inv, Handed, BytesAre, LinkedDisk, LinkedCounts, PackedAt;
    var e := PackedAt(p.at, |deflate(p.data)|);
    var reg' := reg + [p];
    forall q: nat | q < |reg'| ensures Filed(deflate, st', reg'[q]) {
      LinkedWord(st, st', i, j, e, reg'[q].i, reg'[q].j);
      if q < |reg| { assert Filed(deflate, st, reg[q]); }
    }
    forall k: nat, l: nat | k < |st'.l1| && L2Word(st'.disk, st'.l1[k], l).Packed? ensures Lists(reg', k, l) {
      LinkedWord(st, st', i, j, e, k, l);
      if k == i && l == j {
        assert reg'[|reg|] == p;
      } else {
        assert Lists(reg, k, l);
        var q: nat :| q < |reg| && reg[q].i == k && reg[q].j == l;
        assert reg'[q] == reg[q];
      }
    }
  }

  // Every view but that of the new cluster stays.
  lemma PackWritten(env: Env, deflate: Deflate, st: Img, reg: seq<Packet>, i: nat, j: nat, st': Img, p: Packet)
    requires Inv(st) && Zlib(env, deflate) && Packs(deflate, st, reg) && Packs(deflate, st', reg + [p]) && p.i == i
    requires p.j == j
    requires Linked(st, st', i, j, PackedAt(p.at, |deflate(p.data)|))
    ensures Written(env, st, st', i, j, 0, p.data)
  {
    hide Inv, Linked, Handed, View, Filed, Zlib;
    assert Filed(deflate, st', (reg + [p])[|reg|]);
    FiledSize(deflate, st', p);
    LinkedGeo(st, st', i, j, PackedAt(p.at, |deflate(p.data)|));
    forall k: nat, l: nat, s: nat | s < st.g.spc
      ensures View(env, st', k, l, s) == if k == i && l == j && 0 <= s < |p.data| then p.data[s]
        else View(env, st, k, l, s)
    {
      if k == i && l == j {
        PacketView(env, deflate, st', p, s);
      } else {
        OtherView(env, deflate, st, reg, i, j, st', p, k, l, s);
      }
    }
  }

  lemma FiledSize(deflate: Deflate, st: Img, p: Packet)
    requires Filed(deflate, st, p)
    ensures |p.data| == st.g.spc && |deflate(p.data)| > 0
  {
  }

  lemma LinkedGeo(st: Img, st': Img, i: nat, j: nat, e: Entry)
    requires Linked(st, st', i, j, e)
    ensures st'.g == st.g && st'.l1 == st.l1 && st'.snaps == st.snaps
  {
  }

  lemma OtherView(env: Env, deflate: Deflate, st: Img, reg: seq<Packet>, i: nat, j: nat, st': Img, p: Packet, k: nat,
                  l: nat, s: nat)
    requires Inv(st) && Zlib(env, deflate) && Packs(deflate, st, reg) && Packs(deflate, st', reg + [p])
    requires Linked(st, st', i, j, PackedAt(p.at, |deflate(p.data)|)) && (k != i || l != j) && s < st.g.spc
    ensures View(env, st', k, l, s) == View(env, st, k, l, s)
  {
    hide Inv, Linked, Handed, Filed, Zlib, EntryView;
    assert Filed(deflate, st', (reg + [p])[|reg|]);
    FiledSize(deflate, st', p);
    var e := PackedAt(p.at, |deflate(p.data)|);
    LinkedGeo(st, st', i, j, e);
    if k < |st.l1| {
      LinkedWord(st, st', i, j, e, k, l);
      if L2Word(st.disk, st.l1[k], l).Packed? {
        assert Lists(reg, k, l);
        var q: nat :| q < |reg| && reg[q].i == k && reg[q].j == l;
        assert (reg + [p])[q] == reg[q];
        PacketView(env, deflate, st, reg[q], s);
        PacketView(env, deflate, st', reg[q], s);
      } else {
        PlainView(env, st, st', i, j, e, k, l, s);
      }
    } else {
      ZeroView(env, st, st', k, l, s);
    }
  }

  lemma ZeroView(env: Env, st: Img, st': Img, k: nat, l: nat, s: nat)
    requires k >= |st.l1| && st'.l1 == st.l1 && st'.g == st.g
    ensures View(env, st', k, l, s) == View(env, st, k, l, s)
  {
  }

  lemma PlainView(env: Env, st: Img, st': Img, i: nat, j: nat, e: Entry, k: nat, l: nat, s: nat)
    requires Inv(st) && Linked(st, st', i, j, e) && k < |st.l1| && (k != i || l != j)
    requires !L2Word(st.disk, st.l1[k], l).Packed?
    ensures View(env, st', k, l, s) == View(env, st, k, l, s)
  {
    hide Inv, LinkedCounts;
    var w := L2Word(st.disk, st.l1[k], l);
    LinkedWord(st, st', i, j, e, k, l);
    forall x: nat | x < |st.disk| && EntryRefs(st.g, w, x) > 0 ensures Same(st.disk[x], st'.disk[x]) {
      LinkedTarget(st, st', i, j, e, k, l, x);
    }
    EntryViewFrame(env, st.g, st.disk, st'.disk, w, w, SectorNum(st.g, k, l, s), s);
  }

  // ----- qcow_write_compressed -----

  // The first guest sector of cluster vc.
  function FirstSector(g: Geo, vc: nat): nat { vc * g.spc }

  // Cluster vc, which must not be allocated yet: compressed if that makes it smaller, otherwise as it is.
  function Compress(env: Env, deflate: Deflate, st: Img, vc: nat, data: seq<Sector>): Option<Img>
  {
    var i, j := Row(st.g.width, vc), Col(st.g.width, vc);
    if !L2Word(st.disk, SlotAt(st.l1, i), j).Zero? then None
    else if |deflate(data)| >= st.g.bytes then WriteCluster(env, st, i, j, 0, data)
    else
      var st1 :- GrowL1(st, i + 1);
      var st2 :- OwnL2(st1, i);
      PackSlot(st2, i, j, deflate(data))
  }

  // Room in the L1 table and an L2 table of its own.
  lemma OwnSlotLeft(env: Env, deflate: Deflate, st: Img, reg: seq<Packet>, i: nat, st1: Img, st2: Img)
    requires Inv(st) && Packs(deflate, st, reg) && GrowL1(st, i + 1) == Some(st1) && OwnL2(st1, i) == Some(st2)
    ensures Inv(st2) && Packs(deflate, st2, reg) && st2.g == st.g && SameView(env, st, st2)
    ensures i < |st2.l1| && st2.l1[i].Plain? && st2.l1[i].copied
    ensures forall l: nat :: L2Word(st2.disk, st2.l1[i], l) == L2Word(st.disk, SlotAt(st.l1, i), l)
  {
    hide Inv, Packs, GrowL1, OwnL2, View, LeftAlone;
    GrowCorrect(env, st, i + 1, st1);
    GrowLeft(st, i + 1, st1);
    LeftPacks(deflate, st, reg, st1);
    OwnL2Correct(env, st1, i, st2);
    OwnLeft(st1, i, st2);
    LeftPacks(deflate, st1, reg, st2);
    LeftGrown(st, st1);
    forall l: nat ensures L2Word(st2.disk, st2.l1[i], l) == L2Word(st.disk, SlotAt(st.l1, i), l) {
      assert SlotAt(st2.l1, i) == st2.l1[i];
      assert L2Word(st2.disk, SlotAt(st2.l1, i), l) == L2Word(st1.disk, SlotAt(st1.l1, i), l);
    }
  }

  lemma LeftGrown(st: Img, st': Img)
    requires LeftAlone(st, st')
    ensures st'.g == st.g
  {
  }

  // The compressed branch.
  lemma PackCorrect(env: Env, deflate: Deflate, st: Img, reg: seq<Packet>, i: nat, j: nat, data: seq<Sector>, st1: Img,
                    st2: Img, st': Img)
    returns (p: Packet)
    requires Inv(st) && Zlib(env, deflate) && Packs(deflate, st, reg) && |data| == st.g.spc
    requires |deflate(data)| < st.g.bytes
    requires GrowL1(st, i + 1) == Some(st1) && OwnL2(st1, i) == Some(st2)
    requires PackSlot(st2, i, j, deflate(data)) == Some(st')
    ensures Inv(st') && Packs(deflate, st', reg + [p]) && st'.g == st.g && Written(env, st, st', i, j, 0, data)
    ensures p.i == i && p.j == j && p.data == data
  {
    hide Inv, Packs, GrowL1, OwnL2, PackSlot, Written, Linked, SameView;
    OwnSlotLeft(env, deflate, st, reg, i, st1, st2);
    p := PackFiles(deflate, st2, reg, i, j, data, st');
    PackWritten(env, deflate, st2, reg, i, j, st', p);
    LinkedGeo(st2, st', i, j, PackedAt(p.at, |deflate(data)|));
    WrittenAfter(env, st, st2, st', i, j, 0, data);
  }

  // The fallback.
  lemma PlainCorrect(env: Env, deflate: Deflate, st: Img, reg: seq<Packet>, i: nat, j: nat, data: seq<Sector>, st': Img)
    requires Inv(st) && env.Lawful() && Packs(deflate, st, reg) && L2Word(st.disk, SlotAt(st.l1, i), j).Zero?
    requires WriteCluster(env, st, i, j, 0, data) == Some(st')
    ensures Inv(st') && Packs(deflate, st', reg) && st'.g == st.g && Written(env, st, st', i, j, 0, data)
  {
    hide Inv, Packs, GrowL1, OwnL2, WriteSlot, Written, SameView, Replaced;
    WriteClusterCorrect(env, st, i, j, 0, data, st');
    var st1 := GrowL1(st, i + 1).value;
    var st2 := OwnL2(st1, i).value;
    OwnSlotLeft(env, deflate, st, reg, i, st1, st2);
    var d := WriteSlotReplaces(env, st2, i, j, 0, data, st');
    PlainLeft(st2, st', i, j, d);
    LeftPacks(deflate, st2, reg, st');
  }

  // Writing an unallocated cluster compressed keeps the invariant and shows the data there and nowhere else.
  lemma CompressCorrect(env: Env, deflate: Deflate, st: Img, reg: seq<Packet>, vc: nat, data: seq<Sector>,
                        st': Img) returns (reg': seq<Packet>)
    requires Inv(st) && env.Lawful() && Zlib(env, deflate) && Packs(deflate, st, reg) && |data| == st.g.spc
    requires Compress(env, deflate, st, vc, data) == Some(st')
    ensures Inv(st') && Packs(deflate, st', reg') && st'.g == st.g
    ensures SectorsWritten(env, st, st', FirstSector(st.g, vc), data)
  {
    hide Inv, Packs, GrowL1, OwnL2, PackSlot, WriteCluster, Written, SectorView, SectorsWritten, Zlib, Row, Col;
    var i, j := Row(st.g.width, vc), Col(st.g.width, vc);
    if |deflate(data)| >= st.g.bytes {
      PlainCorrect(env, deflate, st, reg, i, j, data, st');
      reg' := reg;
    } else {
      var st1 := GrowL1(st, i + 1).value;
      var p := PackCorrect(env, deflate, st, reg, i, j, data, st1, OwnL2(st1, i).value, st');
      reg' := reg + [p];
    }
    WholeCluster(env, st, st', vc, data);
  }

  lemma WholeCluster(env: Env, st: Img, st': Img, vc: nat, data: seq<Sector>)
    requires st'.g == st.g && |data| == st.g.spc
    requires Written(env, st, st', Row(st.g.width, vc), Col(st.g.width, vc), 0, data)
    ensures SectorsWritten(env, st, st', FirstSector(st.g, vc), data)
  {
    hide Written, SectorView, Row, Col;
    var sn := FirstSector(st.g, vc);
    RowColOf(st.g.spc, vc, 0);
    forall t: nat
      ensures SectorView(env, st', t) == if sn <= t < sn + |data| then data[t - sn] else SectorView(env, st, t)
    {
      WrittenSectors(env, st, st', sn, data, t);
    }
  }

  // ----- whole conversions -----

  datatype Job = Job(vc: nat, data: seq<Sector>)

  function Convert(env: Env, deflate: Deflate, st: Img, jobs: seq<Job>): Option<Img>
    decreases |jobs|
  {
    if |jobs| == 0 then Some(st)
    else
      var st1 :- Compress(env, deflate, st, jobs[0].vc, jobs[0].data);
      Convert(env, deflate, st1, jobs[1..])
  }

  // The same jobs as writes to a flat disk.
  function Writes(g: Geo, jobs: seq<Job>): seq<Op>
  {
    if |jobs| == 0 then [] else [ChunkOp(FirstSector(g, jobs[0].vc), jobs[0].data)] + Writes(g, jobs[1..])
  }

  // Every conversion keeps the invariant and shows the flat disk with the same clusters written.
  lemma {:induction false} ConvertRefines(env: Env, deflate: Deflate, st: Img, reg: seq<Packet>, fl: Flat,
                                          jobs: seq<Job>, st': Img)
    returns (reg': seq<Packet>)
    requires Inv(st) && env.Lawful() && Zlib(env, deflate) && Packs(deflate, st, reg) && Shows(env, st, fl)
    requires forall q: nat :: q < |jobs| ==> |jobs[q].data| == st.g.spc
    requires Convert(env, deflate, st, jobs) == Some(st')
    ensures Inv(st') && Packs(deflate, st', reg') && Shows(env, st', FlatRun(fl, Writes(st.g, jobs)))
    decreases |jobs|
  {
    hide Inv, Packs, Shows, Compress, FlatStep, SectorsWritten, Zlib;
    ShowsSaved(env, st, fl);
    if |jobs| == 0 {
      reg' := reg;
    } else {
      var st1 := Compress(env, deflate, st, jobs[0].vc, jobs[0].data).value;
      var reg1 := CompressCorrect(env, deflate, st, reg, jobs[0].vc, jobs[0].data, st1);
      JobShows(env, deflate, st, reg, reg1, fl, jobs[0], st1);
      reg' := ConvertRefines(env, deflate, st1, reg1,
                             FlatStep(fl, ChunkOp(FirstSector(st.g, jobs[0].vc), jobs[0].data)), jobs[1..], st');
      assert Writes(st.g, jobs)[1..] == Writes(st.g, jobs[1..]);
    }
  }

  lemma ShowsSaved(env: Env, st: Img, fl: Flat)
    requires Shows(env, st, fl)
    ensures |fl.infos| == |fl.saved|
  {
  }

  lemma JobShows(env: Env, deflate: Deflate, st: Img, reg: seq<Packet>, reg1: seq<Packet>, fl: Flat, job: Job, st1: Img)
    requires Packs(deflate, st, reg) && Packs(deflate, st1, reg1) && Shows(env, st, fl) && st1.g == st.g
    requires SectorsWritten(env, st, st1, FirstSector(st.g, job.vc), job.data)
    ensures |fl.infos| == |fl.saved| && Shows(env, st1, FlatStep(fl, ChunkOp(FirstSector(st.g, job.vc), job.data)))
  {
    hide Handed, Filed, Listed, SectorsWritten, FlatStep;
    WrittenShows(env, st, fl, FirstSector(st.g, job.vc), job.data, st1);
  }

  lemma CreatedPacks(deflate: Deflate, g: Geo, blocks: nat, l1Size: nat)
    requires blocks > 0 && Sized(g)
    ensures Packs(deflate, Created(g, blocks, l1Size), [])
  {
    NoneHanded(Created(g, blocks, l1Size));
  }

  // A new image filled with qcow_write_compressed and then used: the invariant holds throughout and every
  // view is that of the flat disk over the backing file.
  lemma ConvertThenRun(env: Env, deflate: Deflate, g: Geo, blocks: nat, l1Size: nat, jobs: seq<Job>, st1: Img,
                       ops: seq<Op>, st': Img)
    requires env.Lawful() && Zlib(env, deflate) && Sized(g) && blocks > 0 && L1Clusters(g, l1Size) + 3 <= g.reach
    requires forall q: nat :: q < |jobs| ==> |jobs[q].data| == g.spc
    requires Convert(env, deflate, Created(g, blocks, l1Size), jobs) == Some(st1) && Run(env, st1, ops) == Some(st')
    ensures Inv(st1) && Inv(st')
    ensures var fl := FlatRun(Flat((t: nat) => env.Backing(t), [], []), Writes(g, jobs));
      Shows(env, st1, fl) && Shows(env, st', FlatRun(fl, ops))
  {
    hide Inv, Packs, Shows, Zlib, Convert, Run, FlatRun, Writes;
    CreatedInv(g, blocks, l1Size);
    CreatedShows(env, g, blocks, l1Size);
    CreatedPacks(deflate, g, blocks, l1Size);
    var fl := Flat((t: nat) => env.Backing(t), [], []);
    var reg := ConvertRefines(env, deflate, Created(g, blocks, l1Size), [], fl, jobs, st1);
    RunRefines(env, st1, FlatRun(fl, Writes(g, jobs)), ops, st');
  }
}

// The host file byte by byte: compressed clusters start at any byte and share sectors with each other.

module HostBytes {
  import opened Basics
  import opened Arith
  import opened Layout
  import opened ByteAlloc

  // A cluster has as many bytes as its sectors together.
  predicate Sized(g: Geo) { g.bytes == SECTOR * g.spc }

  function HostByte(g: Geo, disk: Disk, a: nat): bv8
  {
    HostSector(g, disk, a / SECTOR)[a % SECTOR]
  }

  // Byte a lies in cluster Row(g.bytes, a), in the sector that holds it.
  lemma ByteCluster(g: Geo, a: nat)
    requires Sized(g)
    ensures Row(g.bytes, a) == Row(g.spc, a / SECTOR)
    ensures Col(g.bytes, a) == SECTOR * Col(g.spc, a / SECTOR) + a % SECTOR
    ensures a == Start(g, Row(g.bytes, a)) + SECTOR * Col(g.spc, a / SECTOR) + a % SECTOR
  {
    var s := a / SECTOR;
    var q, r := Row(g.spc, s), Col(g.spc, s);
    RowColValue(g.spc, s);
    assert SECTOR * (q * g.spc) == q * (SECTOR * g.spc);
    assert a == q * g.bytes + (SECTOR * r + a % SECTOR);
    assert SECTOR * r + a % SECTOR < g.bytes;
    RowColOf(g.bytes, q, SECTOR * r + a % SECTOR);
  }

  // A sector starting at byte `base`, after z was written at byte `at`.
  function MergedSector(at: nat, z: seq<bv8>, base: nat, was: Sector): Sector
  {
    seq(SECTOR, b requires 0 <= b < SECTOR => if at <= base + b < at + |z| then z[base + b - at] else was[b])
  }

  function Merged(g: Geo, at: nat, z: seq<bv8>, c: nat, was: seq<Sector>): (r: seq<Sector>)
    requires |was| == g.spc
    ensures |r| == g.spc
  {
    seq<Sector>(g.spc, k requires 0 <= k < g.spc => MergedSector(at, z, Start(g, c) + SECTOR * k, was[k]))
  }

  // bdrv_pwrite of z at byte `at`
  function PutBytes(g: Geo, disk: Disk, at: nat, z: seq<bv8>): (d: Disk)
    ensures |d| == |disk|
  {
    seq<Block>(|disk|, c requires 0 <= c < |disk| =>
      if Touches(g, Range(at, |z|), c) then Data(Merged(g, at, z, c, Raw(g, disk[c]))) else disk[c])
  }

  lemma TouchesByte(g: Geo, at: nat, len: nat, a: nat)
    requires at <= a < at + len
    ensures Touches(g, Range(at, len), Row(g.bytes, a))
  {
    RowMono(g.bytes, at, a);
    RowMono(g.bytes, a, at + len - 1);
  }

  // The bytes written read back, and all others are as before.
  lemma PutBytesAt(g: Geo, disk: Disk, at: nat, z: seq<bv8>, a: nat)
    requires Sized(g) && Row(g.bytes, a) < |disk|
    ensures at <= a < at + |z| ==> HostByte(g, PutBytes(g, disk, at, z), a) == z[a - at]
    ensures var b := disk[Row(g.bytes, a)];
      !(at <= a < at + |z|) && b.Data? && |b.sectors| == g.spc ==>
        HostByte(g, PutBytes(g, disk, at, z), a) == HostByte(g, disk, a)
  {
    hide Row, Col, Touches;
    ByteCluster(g, a);
    if at <= a < at + |z| { TouchesByte(g, at, |z|, a); }
    var c, k := Row(g.bytes, a), Col(g.spc, a / SECTOR);
    var d := PutBytes(g, disk, at, z);
    if Touches(g, Range(at, |z|), c) {
      assert d[c].sectors[k] == MergedSector(at, z, Start(g, c) + SECTOR * k, Raw(g, disk[c])[k]);
    }
  }

  // ----- the L2 entry of a range of bytes -----

  function PackedAt(at: nat, len: nat): (e: Entry)
    requires len > 0
    ensures e.Packed? && e.nb > 0
  {
    Packed(at / SECTOR, at % SECTOR, (at + len - 1) / SECTOR - at / SECTOR + 1)
  }

  // The entry references exactly the clusters the range touches.
  lemma PackedTouches(g: Geo, at: nat, len: nat, c: nat)
    requires Sized(g) && len > 0
    ensures EntryRefs(g, PackedAt(at, len), c) == B2N(Touches(g, Range(at, len), c))
  {
    hide Row, Col;
    ByteCluster(g, at);
    ByteCluster(g, at + len - 1);
  }

  // z stands at offset `off` of a stream of sectors.
  ghost predicate StreamHas(stream: seq<Sector>, off: nat, z: seq<bv8>)
  {
    off + |z| <= SECTOR * |stream| && forall q: nat :: q < |z| ==> StreamByte(stream, off, q, z[q])
  }

  ghost predicate StreamByte(stream: seq<Sector>, off: nat, q: nat, b: bv8)
  {
    off + q < SECTOR * |stream| && stream[(off + q) / SECTOR][(off + q) % SECTOR] == b
  }

  ghost predicate BytesAre(g: Geo, disk: Disk, at: nat, z: seq<bv8>)
  {
    forall a: nat :: at <= a < at + |z| ==> HostByte(g, disk, a) == z[a - at]
  }

  // Reading the sectors of the entry gives the bytes of the range.
  lemma StreamBytes(g: Geo, disk: Disk, at: nat, z: seq<bv8>)
    requires |z| > 0 && BytesAre(g, disk, at, z)
    ensures var e := PackedAt(at, |z|); StreamHas(Stream(g, disk, e), e.off, z)
  {
    hide HostSector;
    var e := PackedAt(at, |z|);
    var s := Stream(g, disk, e);
    forall q: nat | q < |z| ensures StreamByte(s, e.off, q, z[q]) {
      assert HostByte(g, disk, at + q) == z[q];
      assert (at + q) / SECTOR == e.sec + (e.off + q) / SECTOR && (at + q) % SECTOR == (e.off + q) % SECTOR;
    }
  }
}

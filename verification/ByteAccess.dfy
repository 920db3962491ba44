// block.c: reads and writes at any byte offset on a device that only transfers whole sectors.

module ByteAccess {
  import opened Basics
  // The device as one sequence of bytes.
  function Flat(sectors: seq<Sector>): (r: seq<bv8>)
    ensures |r| == SECTOR * |sectors|
    ensures forall i: nat :: i < |r| ==> r[i] == sectors[i / SECTOR][i % SECTOR]
  {
    seq(SECTOR * |sectors|, i requires 0 <= i < SECTOR * |sectors| => sectors[i / SECTOR][i % SECTOR])
  }

  // Replace bytes of one sector.
  function Splice(s: Sector, at: nat, part: seq<bv8>): Sector
    requires at + |part| <= SECTOR
  {
    s[..at] + part + s[at + |part|..]
  }

  // The bytes of a device after writing buf at offset.
  function Overwritten(was: seq<bv8>, offset: nat, buf: seq<bv8>): (r: seq<bv8>)
    requires offset + |buf| <= |was|
    ensures |r| == |was|
  {
    was[..offset] + buf + was[offset + |buf|..]
  }

  lemma FlatSector(sectors: seq<Sector>, n: nat, k: nat)
    requires n < |sectors| && k < SECTOR
    ensures Flat(sectors)[SECTOR * n + k] == sectors[n][k]
  {
    assert (SECTOR * n + k) / SECTOR == n && (SECTOR * n + k) % SECTOR == k;
  }

  // The sectors of a buffer of whole sectors.
  function Cut(buf: seq<bv8>, n: nat): (r: seq<Sector>)
    requires |buf| == SECTOR * n
    ensures |r| == n && forall i: nat :: i < n ==> r[i] == buf[SECTOR * i..SECTOR * i + SECTOR]
  {
    seq<Sector>(n, i requires 0 <= i < n => buf[SECTOR * i..SECTOR * i + SECTOR])
  }

  lemma FlatRange(sectors: seq<Sector>, n: nat, m: nat)
    requires n + m <= |sectors|
    ensures Flat(sectors[n..n + m]) == Flat(sectors)[SECTOR * n..SECTOR * (n + m)]
  {
    var a, b := Flat(sectors[n..n + m]), Flat(sectors)[SECTOR * n..SECTOR * (n + m)];
    forall i: nat | i < |a| ensures a[i] == b[i] {
      var q, k := i / SECTOR, i % SECTOR;
      FlatSector(sectors, n + q, k);
      assert b[i] == Flat(sectors)[SECTOR * (n + q) + k];
    }
  }

  // One byte of a device after whole sectors were replaced.
  lemma ReplacedByte(sectors: seq<Sector>, n: nat, buf: seq<bv8>, m: nat, q: nat, k: nat)
    requires |buf| == SECTOR * m && n + m <= |sectors| && q < |sectors| && k < SECTOR
    ensures (sectors[..n] + Cut(buf, m) + sectors[n + m..])[q][k]
         == Overwritten(Flat(sectors), SECTOR * n, buf)[SECTOR * q + k]
  {
    hide Flat, Cut;
    FlatSector(sectors, q, k);
    if n <= q < n + m {
      assert Cut(buf, m)[q - n] == buf[SECTOR * (q - n)..SECTOR * (q - n) + SECTOR];
    }
  }

  lemma FlatReplace(sectors: seq<Sector>, n: nat, buf: seq<bv8>, m: nat)
    requires |buf| == SECTOR * m && n + m <= |sectors|
    ensures Flat(sectors[..n] + Cut(buf, m) + sectors[n + m..]) == Overwritten(Flat(sectors), SECTOR * n, buf)
  {
    hide Cut, Overwritten;
    var now := sectors[..n] + Cut(buf, m) + sectors[n + m..];
    var a, b := Flat(now), Overwritten(Flat(sectors), SECTOR * n, buf);
    forall i: nat | i < |a| ensures a[i] == b[i] {
      ReplacedByte(sectors, n, buf, m, i / SECTOR, i % SECTOR);
    }
  }

  class Device {
    var sectors: seq<Sector>

    constructor (sectors: seq<Sector>)
      ensures this.sectors == sectors
    {
      this.sectors := sectors;
    }

    // bdrv_read
    method ReadSectors(n: nat, m: nat) returns (ok: bool, buf: seq<bv8>)
      ensures ok <==> n + m <= |sectors|
      ensures ok ==> buf == Flat(sectors)[SECTOR * n..SECTOR * (n + m)]
    {
      ok := n + m <= |sectors|;
      buf := [];
      if ok {
        FlatRange(sectors, n, m);
        buf := Flat(sectors[n..n + m]);
      }
    }

    // bdrv_write
    method WriteSectors(n: nat, m: nat, buf: seq<bv8>) returns (ok: bool)
      requires |buf| == SECTOR * m
      modifies this
      ensures ok <==> n + m <= old(|sectors|)
      ensures |sectors| == old(|sectors|)
      ensures ok ==> Flat(sectors) == Overwritten(old(Flat(sectors)), SECTOR * n, buf)
      ensures !ok ==> sectors == old(sectors)
    {
      ok := n + m <= |sectors|;
      if ok {
        FlatReplace(sectors, n, buf, m);
        sectors := sectors[..n] + Cut(buf, m) + sectors[n + m..];
      }
    }

    // The bytes at .. at + len of sector n
    method ReadPart(n: nat, at: nat, len: nat) returns (ok: bool, part: seq<bv8>)
      requires at + len <= SECTOR
      ensures ok <==> n < |sectors|
      ensures ok ==> part == Flat(sectors)[SECTOR * n + at..SECTOR * n + at + len]
    {
      hide Flat;
      part := [];
      var tmp;
      ok, tmp := ReadSectors(n, 1);
      if ok {
        SubSlice(Flat(sectors), SECTOR * n, SECTOR * (n + 1), at, at + len);
        part := tmp[at..at + len];
      }
    }

    // bdrv_pread_em
    method PRead(offset: nat, count1: nat) returns (ok: bool, buf: seq<bv8>)
      ensures ok <==> count1 == 0 || offset + count1 <= SECTOR * |sectors|
      ensures ok ==> |buf| == count1
      ensures ok && count1 > 0 ==> buf == Flat(sectors)[offset..offset + count1]
    {
      hide Flat, Got, HeadLen;
      ghost var flat := Flat(sectors);
      var n := offset / SECTOR;
      GotNone(flat, offset);
      // up to the first sector boundary
      var len := HeadLen(offset, count1);
      var head: seq<bv8> := [];
      if len > 0 {
        var good, part := ReadPart(n, offset % SECTOR, len);
        if !good { return false, []; }
        GotMore(flat, offset, [], part, offset, offset + len);
        assert [] + part == part;
        head := part;
        if len == count1 {
          GotIs(flat, offset, head);
          return true, head;
        }
        n := n + 1;
      }
      ok, buf := ReadRest(offset, head, count1 - len, n);
    }

    // m whole sectors from sector n on
    method ReadWhole(offset: nat, head: seq<bv8>, m: nat, n: nat) returns (ok: bool, buf: seq<bv8>)
      requires Got(Flat(sectors), offset, head) && (m > 0 ==> SECTOR * n == offset + |head|)
      ensures ok <==> m == 0 || n + m <= |sectors|
      ensures ok ==> |buf| == |head| + SECTOR * m && Got(Flat(sectors), offset, buf)
    {
      hide Flat, Got;
      ok, buf := true, head;
      if m > 0 {
        var part;
        ok, part := ReadSectors(n, m);
        if ok {
          GotMore(Flat(sectors), offset, buf, part, SECTOR * n, SECTOR * (n + m));
          buf := buf + part;
        }
      }
    }

    // The whole sectors and the last part of a read, count bytes from sector n on
    method ReadRest(offset: nat, head: seq<bv8>, count1: nat, first: nat) returns (ok: bool, buf: seq<bv8>)
      requires Got(Flat(sectors), offset, head) && (count1 > 0 ==> SECTOR * first == offset + |head|)
      requires count1 == 0 ==> head == []
      ensures ok <==> count1 == 0 || offset + |head| + count1 <= SECTOR * |sectors|
      ensures ok ==> |buf| == |head| + count1
      ensures ok && count1 > 0 ==> buf == Flat(sectors)[offset..offset + |head| + count1]
    {
      hide Flat, Got;
      ghost var flat := Flat(sectors);
      var count, n := count1 % SECTOR, first + count1 / SECTOR;
      ok, buf := ReadWhole(offset, head, count1 / SECTOR, first);
      if !ok { return; }
      assert |buf| + count == |head| + count1 && (count > 0 ==> SECTOR * n == offset + |buf|);
      if count > 0 {
        var good, part := ReadPart(n, 0, count);
        if !good { return false, buf; }
        GotMore(flat, offset, buf, part, SECTOR * n, SECTOR * n + count);
        buf := buf + part;
      }
      GotIs(flat, offset, buf);
      ok := true;
    }

    // Replace part of one sector: read, modify, write.
    method WritePart(n: nat, at: nat, part: seq<bv8>) returns (ok: bool)
      requires at + |part| <= SECTOR
      modifies this
      ensures ok <==> n < old(|sectors|)
      ensures |sectors| == old(|sectors|) && (!ok ==> sectors == old(sectors))
      ensures ok ==> Flat(sectors) == Overwritten(old(Flat(sectors)), SECTOR * n + at, part)
    {
      hide Flat;
      ghost var flat := Flat(sectors);
      var tmp;
      ok, tmp := ReadSectors(n, 1);
      if ok {
        SpliceOver(flat, n, at, part);
        ok := WriteSectors(n, 1, Splice(tmp, at, part));
      }
    }

    // bdrv_pwrite_em
    method PWrite(offset: nat, buf: seq<bv8>) returns (ok: bool)
      modifies this
      ensures ok <==> |buf| == 0 || offset + |buf| <= SECTOR * old(|sectors|)
      ensures ok && |buf| > 0 ==> Flat(sectors) == Overwritten(old(Flat(sectors)), offset, buf)
      // Even when it fails, no byte outside the range changes.
      ensures |sectors| == old(|sectors|)
      ensures forall i: nat :: i < |Flat(sectors)| && !(offset <= i < offset + |buf|) ==>
        Flat(sectors)[i] == old(Flat(sectors))[i]
    {
      hide Flat, Put, HeadLen, Overwritten;
      ghost var flat := Flat(sectors);
      var pos, n := 0, offset / SECTOR;
      PutNone(flat, offset);
      assert buf[..0] == [];
      var len := HeadLen(offset, |buf|);
      if len > 0 {
        ok := WritePart(n, offset % SECTOR, buf[..len]);
        if !ok {
          PutIs(flat, flat, offset, []);
          return;
        }
        PutMore(flat, flat, Flat(sectors), offset, [], buf[..len]);
        assert [] + buf[..len] == buf[..len];
        pos := len;
        if pos == |buf| {
          assert buf[..len] == buf;
          PutIs(flat, Flat(sectors), offset, buf);
          return;
        }
        n := n + 1;
      }
      ok := WriteRest(flat, offset, buf, pos, n);
    }

    // The whole sectors and the last part of a write, from position pos of the buffer and sector n on
    method WriteRest(ghost flat: seq<bv8>, offset: nat, buf: seq<bv8>, start: nat, first: nat) returns (ok: bool)
      requires start <= |buf| && Put(flat, Flat(sectors), offset, buf[..start])
      requires (start < |buf| ==> SECTOR * first == offset + start)
      requires start == |buf| ==> |buf| == 0
      modifies this
      ensures ok <==> |buf| == 0 || offset + |buf| <= SECTOR * old(|sectors|)
      ensures ok && |buf| > 0 ==> offset + |buf| <= |flat| && Flat(sectors) == Overwritten(flat, offset, buf)
      ensures |sectors| == old(|sectors|)
      ensures forall i: nat :: i < |flat| && !(offset <= i < offset + |buf|) ==> Flat(sectors)[i] == flat[i]
    {
      hide Flat, Put, Overwritten;
      var pos, n := start, first;
      PutIs(flat, Flat(sectors), offset, buf[..pos]);
      var m := (|buf| - pos) / SECTOR;
      if m > 0 {
        ghost var was := Flat(sectors);
        var part := buf[pos..pos + SECTOR * m];
        ok := WriteSectors(n, m, part);
        if !ok { return; }
        PutMore(flat, was, Flat(sectors), offset, buf[..pos], part);
        assert buf[..pos] + part == buf[..pos + SECTOR * m];
        n := n + m;
        pos := pos + SECTOR * m;
        PutIs(flat, Flat(sectors), offset, buf[..pos]);
      }
      if pos < |buf| {
        ghost var was := Flat(sectors);
        var part := buf[pos..];
        ok := WritePart(n, 0, part);
        if !ok { return; }
        PutMore(flat, was, Flat(sectors), offset, buf[..pos], part);
        assert buf[..pos] + part == buf;
        PutIs(flat, Flat(sectors), offset, buf);
        return;
      }
      assert buf[..pos] == buf;
      ok := true;
    }
  }

  lemma OverTwice(was: seq<bv8>, offset: nat, a: seq<bv8>, b: seq<bv8>)
    requires offset + |a| + |b| <= |was|
    ensures Overwritten(Overwritten(was, offset, a), offset + |a|, b) == Overwritten(was, offset, a + b)
  {
  }

  // Reading a sector, replacing part of it and writing it back replaces just that part.
  lemma SpliceOver(was: seq<bv8>, n: nat, at: nat, part: seq<bv8>)
    requires SECTOR * (n + 1) <= |was| && at + |part| <= SECTOR
    ensures Overwritten(was, SECTOR * n, Splice(was[SECTOR * n..SECTOR * (n + 1)], at, part)) ==
      Overwritten(was, SECTOR * n + at, part)
  {
    var base := SECTOR * n;
    var tmp := was[base..base + SECTOR];
    var x, y := Overwritten(was, base, Splice(tmp, at, part)), Overwritten(was, base + at, part);
    forall i: nat | i < |was| ensures x[i] == y[i] {
      if base <= i < base + SECTOR {
        assert x[i] == Splice(tmp, at, part)[i - base];
        assert tmp[i - base] == was[i];
      }
    }
  }

  // The device after the first bytes of a write: those bytes are there, the others as before.
  ghost predicate Put(was: seq<bv8>, now: seq<bv8>, offset: nat, done: seq<bv8>)
  {
    |now| == |was| && (|done| == 0 ==> now == was) && (|done| > 0 ==>
      offset + |done| <= |was| && now == Overwritten(was, offset, done))
  }

  lemma PutMore(was: seq<bv8>, now: seq<bv8>, later: seq<bv8>, offset: nat, done: seq<bv8>, part: seq<bv8>)
    requires Put(was, now, offset, done) && |part| > 0 && offset + |done| + |part| <= |was|
    requires later == Overwritten(now, offset + |done|, part)
    ensures Put(was, later, offset, done + part)
  {
    hide Overwritten;
    if |done| > 0 { OverTwice(was, offset, done, part); } else { assert done + part == part; }
  }

  lemma PutNone(was: seq<bv8>, offset: nat)
    ensures Put(was, was, offset, [])
  {
  }

  lemma PutIs(was: seq<bv8>, now: seq<bv8>, offset: nat, done: seq<bv8>)
    requires Put(was, now, offset, done)
    ensures |now| == |was| && (|done| > 0 ==> offset + |done| <= |was| && now == Overwritten(was, offset, done))
    ensures forall i: nat :: i < |was| && !(offset <= i < offset + |done|) ==> now[i] == was[i]
  {
  }

  // buf holds the bytes of the device from offset on.
  ghost predicate Got(flat: seq<bv8>, offset: nat, buf: seq<bv8>)
  {
    |buf| > 0 ==> offset + |buf| <= |flat| && buf == flat[offset..offset + |buf|]
  }

  lemma GotIs(flat: seq<bv8>, offset: nat, buf: seq<bv8>)
    requires Got(flat, offset, buf)
    ensures |buf| > 0 ==> offset + |buf| <= |flat| && buf == flat[offset..offset + |buf|]
  {
  }

  // The bytes up to the next sector boundary, at most count.
  function HeadLen(offset: nat, count: nat): (len: nat)
    ensures len <= count && offset % SECTOR + len <= SECTOR
    ensures len < count ==> offset + len == SECTOR * (offset / SECTOR + (if len > 0 then 1 else 0))
  {
    var len := (SECTOR - offset) % SECTOR;
    if len > count then count else len
  }

  lemma GotNone(flat: seq<bv8>, offset: nat)
    ensures Got(flat, offset, [])
  {
  }

  lemma GotMore(flat: seq<bv8>, offset: nat, buf: seq<bv8>, part: seq<bv8>, a: nat, b: nat)
    requires Got(flat, offset, buf) && a == offset + |buf| && a <= b <= |flat| && part == flat[a..b]
    ensures Got(flat, offset, buf + part)
  {
  }

  lemma SubSlice(s: seq<bv8>, a: nat, b: nat, i: nat, j: nat)
    requires a <= b <= |s| && i <= j <= b - a
    ensures s[a..b][i..j] == s[a + i..a + j]
  {
    var x, y := s[a..b][i..j], s[a + i..a + j];
    forall k: nat | k < j - i ensures x[k] == y[k] { assert s[a..b][i + k] == s[a + (i + k)]; }
  }
}

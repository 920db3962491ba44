// The on-disk snapshot table: a list of headers, each followed by its id and name, 8-byte aligned.

module SnapTable {
  import opened Basics
  import opened Layout

  const HEADER_SIZE: nat := 40

  // align_offset(offset, 8)
  function Align8(offset: nat): (r: nat)
    ensures r % 8 == 0 && offset <= r < offset + 8
  {
    (offset + 7) / 8 * 8
  }

  function BodySize(s: Snapshot): nat { HEADER_SIZE + |s.info.id| + |s.info.name| }

  // The sizing pass over the first n snapshots.
  function TableSize(snaps: seq<Snapshot>, n: nat): nat
    requires n <= |snaps|
  {
    if n == 0 then 0 else Align8(TableSize(snaps, n - 1)) + BodySize(snaps[n - 1])
  }

  // ----- bytes -----

  type byte = x: int | 0 <= x < 256

  function Pow256(k: nat): nat { if k == 0 then 1 else 256 * Pow256(k - 1) }

  // cpu_to_be16/32/64: k bytes, most significant first
  function Be(x: nat, k: nat): (r: seq<byte>)
    ensures |r| == k
  {
    if k == 0 then [] else Be(x / 256, k - 1) + [x % 256]
  }

  // be16/32/64_to_cpu
  function UnBe(s: seq<byte>): nat
  {
    if |s| == 0 then 0 else 256 * UnBe(s[..|s| - 1]) + s[|s| - 1]
  }

  lemma {:induction false} UnBeBe(x: nat, k: nat)
    requires x < Pow256(k)
    ensures UnBe(Be(x, k)) == x
  {
    if k > 0 {
      UnBeBe(x / 256, k - 1);
      assert Be(x, k)[..k - 1] == Be(x / 256, k - 1);
    }
  }

  // A C string without its terminator.
  function Chars(s: string): (r: seq<byte>)
    ensures |r| == |s|
  {
    seq<byte>(|s|, i requires 0 <= i < |s| => CharByte(s[i]))
  }

  function CharByte(c: char): byte { if c as int < 256 then c as int else 0 }

  // No NUL inside, one byte per character.
  predicate Plain8(s: string) { forall c :: c in s ==> 0 < c as int < 256 }

  function Text(b: seq<byte>): (r: string)
    ensures |r| == |b|
  {
    seq(|b|, i requires 0 <= i < |b| => b[i] as char)
  }

  lemma TextChars(s: string)
    requires Plain8(s)
    ensures Text(Chars(s)) == s
  {
    forall i: nat | i < |s| ensures Text(Chars(s))[i] == s[i] { assert s[i] in s; }
  }

  // ----- one record -----

  // What fits into the fields of QCowSnapshotHeader.
  predicate Fits(s: Snapshot)
  {
    && s.l1At < Pow256(8) && s.l1Size < Pow256(4) && |s.info.id| < Pow256(2) && |s.info.name| < Pow256(2)
    && s.info.dateSec < Pow256(4) && s.info.dateNsec < Pow256(4) && s.info.vmClock < Pow256(8)
    && s.info.vmStateSize < Pow256(4)
    && Plain8(s.info.id) && Plain8(s.info.name)
  }

  // QCowSnapshotHeader
  function Header(s: Snapshot): (r: seq<byte>)
    ensures |r| == HEADER_SIZE
  {
    Be(s.l1At, 8) + Be(s.l1Size, 4) + Be(|s.info.id|, 2) + Be(|s.info.name|, 2)
    + Be(s.info.dateSec, 4) + Be(s.info.dateNsec, 4) + Be(s.info.vmClock, 8) + Be(s.info.vmStateSize, 4) + Be(0, 4)
  }

  function Record(s: Snapshot): (r: seq<byte>)
    ensures |r| == BodySize(s)
  {
    Header(s) + Chars(s.info.id) + Chars(s.info.name)
  }

  // The bytes h[i..i + k] as a number
  function Num(h: seq<byte>, i: nat, k: nat): nat
    requires i + k <= |h|
  {
    UnBe(h[i..i + k])
  }

  // Reading one record at an offset; None when the file ends too early.  The second part is where it ends.
  function ReadRecord(file: seq<byte>, off: nat): Option<(Snapshot, nat)>
  {
    if off + HEADER_SIZE > |file| then None
    else
      var h := file[off..off + HEADER_SIZE];
      var idAt := off + HEADER_SIZE + Num(h, 36, 4);
      var nameAt := idAt + Num(h, 12, 2);
      var end := nameAt + Num(h, 14, 2);
      if end > |file| then None
      else Some((Snapshot(Num(h, 0, 8), Num(h, 8, 4),
                          Info(Text(file[idAt..nameAt]), Text(file[nameAt..end]), Num(h, 32, 4), Num(h, 16, 4),
                               Num(h, 20, 4), Num(h, 24, 8))), end))
  }

  lemma FieldAt(a: seq<byte>, x: nat, k: nat, b: seq<byte>)
    requires x < Pow256(k)
    ensures Num(a + Be(x, k) + b, |a|, k) == x
  {
    assert (a + Be(x, k) + b)[|a|..|a| + k] == Be(x, k);
    UnBeBe(x, k);
  }

  // The first four fields of a header, and the others.
  function HeadPart(s: Snapshot): seq<byte>
    requires Fits(s)
  {
    Be(s.l1At, 8) + Be(s.l1Size, 4) + Be(|s.info.id|, 2) + Be(|s.info.name|, 2)
  }

  function TailPart(s: Snapshot): seq<byte>
    requires Fits(s)
  {
    Be(s.info.dateSec, 4) + Be(s.info.dateNsec, 4) + Be(s.info.vmClock, 8) + Be(s.info.vmStateSize, 4) + Be(0, 4)
  }

  lemma HeadFields(s: Snapshot, rest: seq<byte>)
    requires Fits(s)
    ensures |HeadPart(s)| == 16 && var h := HeadPart(s) + rest;
      Num(h, 0, 8) == s.l1At && Num(h, 8, 4) == s.l1Size && Num(h, 12, 2) == |s.info.id| &&
        Num(h, 14, 2) == |s.info.name|
  {
    hide Be, Num, Pow256;
    var h, f0, f1, f2, f3 := HeadPart(s) + rest, Be(s.l1At, 8), Be(s.l1Size, 4), Be(|s.info.id|, 2), Be(|s.info.name|,
        2);
    FieldAt([], s.l1At, 8, f1 + f2 + f3 + rest);
    assert h == [] + f0 + (f1 + f2 + f3 + rest);
    FieldAt(f0, s.l1Size, 4, f2 + f3 + rest);
    assert h == f0 + f1 + (f2 + f3 + rest);
    FieldAt(f0 + f1, |s.info.id|, 2, f3 + rest);
    assert h == (f0 + f1) + f2 + (f3 + rest);
    FieldAt(f0 + f1 + f2, |s.info.name|, 2, rest);
  }

  lemma TailFields(s: Snapshot, a: seq<byte>)
    requires Fits(s) && |a| == 16
    ensures var h := a + TailPart(s);
      && Num(h, 16, 4) == s.info.dateSec && Num(h, 20, 4) == s.info.dateNsec && Num(h, 24, 8) == s.info.vmClock
      && Num(h, 32, 4) == s.info.vmStateSize && Num(h, 36, 4) == 0
  {
    hide Be, Num, Pow256;
    var h, f4, f5, f6 := a + TailPart(s), Be(s.info.dateSec, 4), Be(s.info.dateNsec, 4), Be(s.info.vmClock, 8);
    var f7, f8 := Be(s.info.vmStateSize, 4), Be(0, 4);
    FieldAt(a, s.info.dateSec, 4, f5 + f6 + f7 + f8);
    assert h == a + f4 + (f5 + f6 + f7 + f8);
    FieldAt(a + f4, s.info.dateNsec, 4, f6 + f7 + f8);
    assert h == (a + f4) + f5 + (f6 + f7 + f8);
    FieldAt(a + f4 + f5, s.info.vmClock, 8, f7 + f8);
    assert h == (a + f4 + f5) + f6 + (f7 + f8);
    FieldAt(a + f4 + f5 + f6, s.info.vmStateSize, 4, f8);
    assert h == (a + f4 + f5 + f6) + f7 + f8;
    FieldAt(a + f4 + f5 + f6 + f7, 0, 4, []);
    assert h == (a + f4 + f5 + f6 + f7) + f8 + [];
  }

  // Every field of a header is read back.
  lemma HeaderFields(s: Snapshot)
    requires Fits(s)
    ensures var h := Header(s);
      && Num(h, 0, 8) == s.l1At && Num(h, 8, 4) == s.l1Size && Num(h, 12, 2) == |s.info.id|
      && Num(h, 14, 2) == |s.info.name|
      && Num(h, 16, 4) == s.info.dateSec && Num(h, 20, 4) == s.info.dateNsec && Num(h, 24, 8) == s.info.vmClock
      && Num(h, 32, 4) == s.info.vmStateSize && Num(h, 36, 4) == 0
  {
    hide Be, Num, Pow256;
    HeadFields(s, TailPart(s));
    TailFields(s, HeadPart(s));
    assert Header(s) == HeadPart(s) + TailPart(s);
  }

  // A record is read back wherever it stands, and the reader stops where the record ends.
  lemma ReadBack(file: seq<byte>, off: nat, s: Snapshot)
    requires Fits(s) && off + BodySize(s) <= |file| && file[off..off + BodySize(s)] == Record(s)
    ensures ReadRecord(file, off) == Some((s, off + BodySize(s)))
  {
    hide Header, Num, Text, Chars, Fits;
    var r := Record(s);
    var idAt := off + HEADER_SIZE;
    var nameAt := idAt + |s.info.id|;
    RecordParts(s);
    SliceParts(file, off, r, HEADER_SIZE, HEADER_SIZE + |s.info.id|);
    HeaderFields(s);
    FitsText(s);
  }

  lemma FitsText(s: Snapshot)
    requires Fits(s)
    ensures Text(Chars(s.info.id)) == s.info.id && Text(Chars(s.info.name)) == s.info.name
  {
    TextChars(s.info.id);
    TextChars(s.info.name);
  }

  lemma RecordParts(s: Snapshot)
    ensures var r, i, n := Record(s), HEADER_SIZE, HEADER_SIZE + |s.info.id|;
      r[..i] == Header(s) && r[i..n] == Chars(s.info.id) && r[n..] == Chars(s.info.name)
  {
    hide Header, Chars;
  }

  lemma SliceParts(file: seq<byte>, off: nat, r: seq<byte>, i: nat, n: nat)
    requires off + |r| <= |file| && file[off..off + |r|] == r && i <= n <= |r|
    ensures file[off..off + i] == r[..i] && file[off + i..off + n] == r[i..n] && file[off + n..off + |r|] == r[n..]
  {
    forall k: nat | k < |r| ensures file[off + k] == r[k] { assert file[off..off + |r|][k] == r[k]; }
  }

  // ----- the whole table -----

  function RecordAt(at: nat, snaps: seq<Snapshot>, i: nat): nat
    requires i < |snaps|
  {
    at + Align8(TableSize(snaps, i))
  }

  ghost predicate AllFit(snaps: seq<Snapshot>)
  {
    forall i: nat :: i < |snaps| ==> Fits(snaps[i])
  }

  // The first n records stand at their aligned offsets.
  ghost predicate Encoded(file: seq<byte>, at: nat, snaps: seq<Snapshot>, n: nat)
    requires n <= |snaps|
  {
    forall i: nat :: i < n ==> Holds(file, RecordAt(at, snaps, i), snaps[i])
  }

  ghost predicate Holds(file: seq<byte>, off: nat, s: Snapshot)
  {
    off + BodySize(s) <= |file| && file[off..off + BodySize(s)] == Record(s)
  }

  // qcow_read_snapshots from an offset on: the snapshots and the offset after the last one
  function ReadFrom(file: seq<byte>, off: nat, nb: nat): Option<(seq<Snapshot>, nat)>
    decreases nb
  {
    if nb == 0 then Some(([], off))
    else
      var (s, end) :- ReadRecord(file, Align8(off));
      var (rest, last) :- ReadFrom(file, end, nb - 1);
      Some(([s] + rest, last))
  }

  // Aligning an absolute offset and aligning within the table agree, because the table starts on a cluster.
  lemma AlignAt(at: nat, x: nat)
    requires at % 8 == 0
    ensures Align8(at + x) == at + Align8(x)
  {
  }

  // Reading a written table gives the same snapshots and the same size.
  lemma {:induction false} ReadTail(file: seq<byte>, at: nat, snaps: seq<Snapshot>, i: nat)
    requires at % 8 == 0 && AllFit(snaps) && Encoded(file, at, snaps, |snaps|) && i <= |snaps|
    ensures ReadFrom(file, at + TableSize(snaps, i), |snaps| - i) == Some((snaps[i..], at + TableSize(snaps, |snaps|)))
    decreases |snaps| - i
  {
    hide ReadRecord, Record, Fits, ReadFrom, TableSize, Align8, Holds;
    ReadUnfold(file, at + TableSize(snaps, i), |snaps| - i);
    if i < |snaps| {
      AlignAt(at, TableSize(snaps, i));
      SizeStep(snaps, i);
      HoldsFile(file, RecordAt(at, snaps, i), snaps[i]);
      ReadBack(file, RecordAt(at, snaps, i), snaps[i]);
      ReadTail(file, at, snaps, i + 1);
      assert [snaps[i]] + snaps[i + 1..] == snaps[i..];
    } else {
      assert snaps[i..] == [];
    }
  }

  lemma SizeStep(snaps: seq<Snapshot>, i: nat)
    requires i < |snaps|
    ensures TableSize(snaps, i + 1) == Align8(TableSize(snaps, i)) + BodySize(snaps[i])
  {
  }

  lemma HoldsFile(file: seq<byte>, off: nat, s: Snapshot)
    requires Holds(file, off, s)
    ensures off + BodySize(s) <= |file| && file[off..off + BodySize(s)] == Record(s)
  {
  }

  lemma {:induction false} SizeGrows(snaps: seq<Snapshot>, i: nat, n: nat)
    requires i <= n <= |snaps|
    ensures TableSize(snaps, i) <= TableSize(snaps, n)
  {
    if i < n { SizeGrows(snaps, i, n - 1); }
  }

  method PutBytes(file: array<byte>, off: nat, b: seq<byte>)
    requires off + |b| <= file.Length
    modifies file
    ensures file[off..off + |b|] == b
    ensures forall x: nat :: x < file.Length && !(off <= x < off + |b|) ==> file[x] == old(file[x])
  {
    var i := 0;
    while i < |b|
      invariant 0 <= i <= |b|
      invariant forall x: nat :: x < file.Length ==> file[x] == if off <= x < off + i then b[x - off] else old(file[x])
    {
      file[off + i] := b[i];
      i := i + 1;
    }
  }

  // One turn of the writing pass: header, id and name, each at the offset where the one before ended
  method PutRecord(file: array<byte>, start: nat, s: Snapshot) returns (offset: nat)
    requires Fits(s) && start + BodySize(s) <= file.Length
    modifies file
    ensures offset == start + BodySize(s) && file[start..offset] == Record(s)
    ensures forall x: nat :: x < file.Length && !(start <= x < offset) ==> file[x] == old(file[x])
  {
    hide Header, Chars;
    offset := start;
    PutBytes(file, offset, Header(s));
    offset := offset + HEADER_SIZE;
    ghost var one := file[..];
    PutBytes(file, offset, Chars(s.info.id));
    offset := offset + |s.info.id|;
    ghost var two := file[..];
    PutBytes(file, offset, Chars(s.info.name));
    offset := offset + |s.info.name|;
    ThreeParts(one, two, file[..], start, Header(s), Chars(s.info.id), Chars(s.info.name));
  }

  lemma ThreeParts(one: seq<byte>, two: seq<byte>, three: seq<byte>, start: nat, a: seq<byte>, b: seq<byte>,
                   c: seq<byte>)
    requires |one| == |two| == |three| && start + |a| + |b| + |c| <= |one|
    requires one[start..start + |a|] == a && two[start + |a|..start + |a| + |b|] == b
    requires three[start + |a| + |b|..start + |a| + |b| + |c|] == c
    requires forall x: nat :: x < start + |a| ==> two[x] == one[x]
    requires forall x: nat :: x < start + |a| + |b| ==> three[x] == two[x]
    ensures three[start..start + |a| + |b| + |c|] == a + b + c
  {
    var r := three[start..start + |a| + |b| + |c|];
    forall k: nat | k < |r| ensures r[k] == (a + b + c)[k] {
      if k < |a| { assert a[k] == one[start + k]; }
      else if k < |a| + |b| { assert b[k - |a|] == two[start + k]; }
      else { assert c[k - |a| - |b|] == three[start + k]; }
    }
  }

  lemma HoldsStill(was: seq<byte>, now: seq<byte>, off: nat, s: Snapshot)
    requires Holds(was, off, s) && |now| == |was| && forall x: nat :: x < off + BodySize(s) ==> now[x] == was[x]
    ensures Holds(now, off, s)
  {
    hide Record;
    var a, b := was[off..off + BodySize(s)], now[off..off + BodySize(s)];
    forall k: nat | k < |a| ensures a[k] == b[k] { assert now[off + k] == was[off + k]; }
  }

  lemma EncodedNext(was: seq<byte>, now: seq<byte>, at: nat, snaps: seq<Snapshot>, i: nat)
    requires i < |snaps| && Encoded(was, at, snaps, i) && |now| == |was| && Holds(now, RecordAt(at, snaps, i), snaps[i])
    requires forall x: nat :: x < RecordAt(at, snaps, i) ==> now[x] == was[x]
    ensures Encoded(now, at, snaps, i + 1)
  {
    hide Holds, Align8, TableSize;
    forall j: nat | j < i + 1 ensures Holds(now, RecordAt(at, snaps, j), snaps[j]) {
      if j < i {
        SizeStep(snaps, j);
        SizeGrows(snaps, j + 1, i);
        HoldsStill(was, now, RecordAt(at, snaps, j), snaps[j]);
      }
    }
  }

  lemma EncodedNone(file: seq<byte>, at: nat, snaps: seq<Snapshot>)
    ensures Encoded(file, at, snaps, 0)
  {
  }

  lemma HoldsIs(file: seq<byte>, off: nat, s: Snapshot)
    requires off + BodySize(s) <= |file| && file[off..off + BodySize(s)] == Record(s)
    ensures Holds(file, off, s)
  {
  }

  // The writing pass of qcow_write_snapshots
  method WriteTable(file: array<byte>, at: nat, snaps: seq<Snapshot>) returns (offset: nat)
    requires at % 8 == 0 && AllFit(snaps) && at + TableSize(snaps, |snaps|) <= file.Length
    modifies file
    ensures offset == at + TableSize(snaps, |snaps|) && Encoded(file[..], at, snaps, |snaps|)
    ensures forall x: nat :: x < file.Length && !(at <= x < offset) ==> file[x] == old(file[x])
  {
    hide Record, Fits, Holds, Encoded, Align8;
    offset := at;
    EncodedNone(file[..], at, snaps);
    var i := 0;
    while i < |snaps|
      invariant 0 <= i <= |snaps| && offset == at + TableSize(snaps, i) && Encoded(file[..], at, snaps, i)
      invariant forall x: nat :: x < file.Length && !(at <= x < offset) ==> file[x] == old(file[x])
    {
      ghost var was := file[..];
      AlignAt(at, TableSize(snaps, i));
      SizeGrows(snaps, i + 1, |snaps|);
      offset := Align8(offset);
      offset := PutRecord(file, offset, snaps[i]);
      HoldsIs(file[..], RecordAt(at, snaps, i), snaps[i]);
      EncodedNext(was, file[..], at, snaps, i);
      i := i + 1;
    }
  }

  // qcow_read_snapshots
  method ReadTable(file: array<byte>, at: nat, nb: nat) returns (r: Option<(seq<Snapshot>, nat)>)
    ensures r.Some? <==> ReadFrom(file[..], at, nb).Some?
    ensures r.Some? ==>
      at + r.value.1 == ReadFrom(file[..], at, nb).value.1 && r.value.0 == ReadFrom(file[..], at, nb).value.0
  {
    hide ReadRecord, ReadFrom, Align8, Continues;
    var snaps: seq<Snapshot> := [];
    var offset := at;
    ghost var target := ReadFrom(file[..], at, nb);
    ContinuesSelf(target);
    while |snaps| < nb
      invariant |snaps| <= nb && offset >= at && Continues(target, snaps, ReadFrom(file[..], offset, nb - |snaps|))
    {
      ReadUnfold(file[..], offset, nb - |snaps|);
      var one := ReadRecord(file[..], Align8(offset));
      if one.None? {
        ContinuesNone(target, snaps);
        return None;
      }
      RecordEnds(file[..], Align8(offset));
      ContinuesMore(target, snaps, ReadFrom(file[..], offset, nb - |snaps|), one.value.0,
                    ReadFrom(file[..], one.value.1, nb - |snaps| - 1));
      snaps := snaps + [one.value.0];
      offset := one.value.1;
    }
    ReadUnfold(file[..], offset, 0);
    ContinuesEnd(target, snaps, offset);
    r := Some((snaps, offset - at));
  }

  // target is what the rest gives, after the snapshots read so far.
  ghost predicate Continues(target: Option<(seq<Snapshot>, nat)>, snaps: seq<Snapshot>,
                            rest: Option<(seq<Snapshot>, nat)>)
  {
    (rest.None? ==> target.None?) && (rest.Some? ==> target == Some((snaps + rest.value.0, rest.value.1)))
  }

  lemma ContinuesSelf(target: Option<(seq<Snapshot>, nat)>)
    ensures Continues(target, [], target)
  {
    if target.Some? { assert [] + target.value.0 == target.value.0; }
  }

  lemma ContinuesNone(target: Option<(seq<Snapshot>, nat)>, snaps: seq<Snapshot>)
    requires Continues(target, snaps, None)
    ensures target.None?
  {
  }

  lemma ContinuesMore(target: Option<(seq<Snapshot>, nat)>, snaps: seq<Snapshot>, mid: Option<(seq<Snapshot>, nat)>,
                      s: Snapshot, rest: Option<(seq<Snapshot>, nat)>)
    requires Continues(target, snaps, mid) && Continues(mid, [s], rest)
    ensures Continues(target, snaps + [s], rest)
  {
    if rest.Some? { assert snaps + ([s] + rest.value.0) == (snaps + [s]) + rest.value.0; }
  }

  lemma ContinuesEnd(target: Option<(seq<Snapshot>, nat)>, snaps: seq<Snapshot>, offset: nat)
    requires Continues(target, snaps, Some(([], offset)))
    ensures target == Some((snaps, offset))
  {
    assert snaps + [] == snaps;
  }

  lemma ReadUnfold(file: seq<byte>, off: nat, nb: nat)
    ensures nb == 0 ==> ReadFrom(file, off, nb) == Some(([], off))
    ensures nb > 0 && ReadRecord(file, Align8(off)).None? ==> ReadFrom(file, off, nb).None?
    ensures nb > 0 && ReadRecord(file, Align8(off)).Some? ==>
      var (s, end) := ReadRecord(file, Align8(off)).value; Continues(ReadFrom(file, off, nb), [s],
                                                                     ReadFrom(file, end, nb - 1))
  {
    hide ReadRecord;
  }

  lemma RecordEnds(file: seq<byte>, off: nat)
    ensures ReadRecord(file, off).Some? ==> ReadRecord(file, off).value.1 >= off
  {
  }

  // Writing the table and reading it back gives the same list and the size the sizing pass computed.
  method WriteThenRead(file: array<byte>, at: nat, snaps: seq<Snapshot>) returns (r: Option<(seq<Snapshot>, nat)>)
    requires at % 8 == 0 && AllFit(snaps) && at + TableSize(snaps, |snaps|) <= file.Length
    modifies file
    ensures r == Some((snaps, TableSize(snaps, |snaps|)))
  {
    hide Record, Fits, ReadFrom, Encoded;
    var end := WriteTable(file, at, snaps);
    r := ReadTable(file, at, |snaps|);
    ReadTail(file[..], at, snaps, 0);
  }
}

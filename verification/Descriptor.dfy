// L2 table words: cluster offsets with flags, and descriptors of compressed clusters.

module Descriptor {
  import opened Bits
  import opened Layout

  // ----- powers of two and bitwise "or" -----

  lemma {:induction false} PowAdd(a: nat, b: nat)
    ensures Pow2(a + b) == Pow2(a) * Pow2(b)
  {
    if a > 0 { PowAdd(a - 1, b); }
  }

  // x >> k
  function Shr(x: nat, k: nat): nat { if k == 0 then x else Shr(x / 2, k - 1) }

  // q << k
  function Shl(q: nat, k: nat): nat { if k == 0 then q else 2 * Shl(q, k - 1) }

  lemma {:induction false} ShlPow(q: nat, k: nat)
    ensures Shl(q, k) == q * Pow2(k)
  {
    if k > 0 { ShlPow(q, k - 1); }
  }

  // Shifting back a field placed above r.
  lemma {:induction false} ShrShl(q: nat, k: nat, r: nat)
    requires r < Pow2(k)
    ensures Shr(Shl(q, k) + r, k) == q
  {
    if k > 0 {
      ShrShl(q, k - 1, r / 2);
      assert (Shl(q, k) + r) / 2 == Shl(q, k - 1) + r / 2;
    }
  }

  // x & (2^k - 1) keeps the field below.
  lemma {:induction false} AndShl(q: nat, k: nat, r: nat)
    requires r < Pow2(k)
    ensures And(Shl(q, k) + r, Pow2(k) - 1) == r
  {
    if k > 0 {
      AndShl(q, k - 1, r / 2);
      var x, m := Shl(q, k) + r, Pow2(k) - 1;
      assert x / 2 == Shl(q, k - 1) + r / 2 && x % 2 == r % 2;
      assert m / 2 == Pow2(k - 1) - 1 && m % 2 == 1;
    }
  }

  function Or(a: nat, b: nat): nat
  {
    if a == 0 then b else if b == 0 then a
    else (if a % 2 == 1 || b % 2 == 1 then 1 else 0) + 2 * Or(a / 2, b / 2)
  }

  // "or" of fields that do not overlap is their sum.
  lemma {:induction false} OrSum(a: nat, q: nat, k: nat)
    requires a < Pow2(k)
    ensures Or(a, Shl(q, k)) == Shl(q, k) + a
  {
    if a != 0 && Shl(q, k) != 0 {
      assert k > 0 && Shl(q, k) == 2 * Shl(q, k - 1) && a / 2 < Pow2(k - 1);
      OrSum(a / 2, q, k - 1);
    }
  }

  // ----- the geometry of a descriptor (for cluster sizes 2^9 to 2^16) -----

  const COPIED_BIT: nat := 63
  const COMPRESSED_BIT: nat := 62

  predicate ClusterBits(cb: nat) { 9 <= cb <= 16 }

  function CountBits(cb: nat): nat requires ClusterBits(cb) { cb - 8 }

  // csize_shift
  function Shift(cb: nat): nat requires ClusterBits(cb) { COMPRESSED_BIT - CountBits(cb) }

  // The sectors after the first that `size` bytes at `off` reach into.
  function ExtraSectors(off: nat, size: nat): nat
    requires size > 0
  {
    (off + size - 1) / 512 - off / 512
  }

  // get_cluster_offset with allocate = 2: the word stored for a compressed cluster
  function PackWord(cb: nat, off: nat, size: nat): nat
    requires ClusterBits(cb) && size > 0
  {
    Or(off, Or(Shl(ExtraSectors(off, size), Shift(cb)), Shl(1, COMPRESSED_BIT)))
  }

  // decompress_cluster: byte offset and number of sectors
  function PackedOffset(cb: nat, w: nat): nat
    requires ClusterBits(cb)
  {
    And(w, Pow2(Shift(cb)) - 1)
  }

  function PackedSectors(cb: nat, w: nat): nat
    requires ClusterBits(cb)
  {
    And(Shr(w, Shift(cb)), Pow2(CountBits(cb)) - 1) + 1
  }

  lemma SmallPowers(cb: nat)
    requires ClusterBits(cb)
    ensures Pow2(cb) == 256 * Pow2(CountBits(cb)) && Pow2(CountBits(cb)) >= 2
  {
    PowAdd(8, cb - 8);
    assert Pow2(8) == 256 by { assert Pow2(4) == 16; assert Pow2(6) == 64; }
    assert Pow2(1) == 2;
    PowAdd(1, cb - 9);
  }

  // The count always fits into its field.
  lemma CountFits(cb: nat, off: nat, size: nat)
    requires ClusterBits(cb) && 0 < size < Pow2(cb)
    ensures ExtraSectors(off, size) < Pow2(CountBits(cb))
    ensures (ExtraSectors(off, size) + 1) * 512 <= Pow2(cb) + 512
  {
    SmallPowers(cb);
    var n := ExtraSectors(off, size);
    assert n * 512 <= size - 1 + off % 512;
  }

  lemma {:induction false} ShlAdd(p: nat, q: nat, k: nat)
    ensures Shl(p + q, k) == Shl(p, k) + Shl(q, k)
    ensures p < q ==> Shl(p, k) + Pow2(k) <= Shl(q, k)
  {
    if k > 0 { ShlAdd(p, q, k - 1); }
  }

  // The flag bit sits right above the count.
  lemma {:induction false} ShlShl(a: nat, b: nat)
    ensures Shl(1, a + b) == Shl(Pow2(b), a) && Pow2(b) == Shl(1, b)
  {
    if a > 0 { ShlShl(a - 1, b); } else if b > 0 { ShlShl(0, b - 1); }
  }

  // A descriptor as the sum of its fields.
  lemma WordSum(cb: nat, off: nat, n: nat)
    requires ClusterBits(cb) && off < Pow2(Shift(cb)) && n < Pow2(CountBits(cb))
    ensures Or(off, Or(Shl(n, Shift(cb)), Shl(1, COMPRESSED_BIT))) == Shl(Pow2(CountBits(cb)) + n, Shift(cb)) + off
  {
    hide Or, Shl, Pow2;
    var s, c := Shift(cb), Pow2(CountBits(cb));
    ShlShl(s, CountBits(cb));
    ShlAdd(n, c, s);
    PowIs(COMPRESSED_BIT);
    OrSum(Shl(n, s), 1, COMPRESSED_BIT);
    ShlAdd(c, n, s);
    OrSum(off, c + n, s);
  }

  lemma PowIs(k: nat)
    ensures Pow2(k) == Shl(1, k) && Pow2(k + 1) == 2 * Pow2(k)
  {
    ShlPow(1, k);
  }

  lemma WordParts(cb: nat, off: nat, n: nat, w: nat)
    requires ClusterBits(cb) && off < Pow2(Shift(cb)) && n < Pow2(CountBits(cb))
    requires w == Shl(Pow2(CountBits(cb)) + n, Shift(cb)) + off
    ensures PackedOffset(cb, w) == off && PackedSectors(cb, w) == n + 1
    ensures Pow2(COMPRESSED_BIT) <= w < Pow2(COPIED_BIT)
  {
    hide And, Shl, Shr, Pow2;
    var s, b := Shift(cb), CountBits(cb);
    var c := Pow2(b);
    AndShl(c + n, s, off);
    ShrShl(c + n, s, off);
    PowIs(b);
    AndShl(1, b, n);
    ShlShl(s, b);
    PowIs(COMPRESSED_BIT);
    ShlAdd(c, n, s);
    ShlAdd(n, c, s);
  }

  // Packing and decoding: the offset comes back, the sectors read are exactly those the data touches,
  // the flag bits are as they should be, and a cluster and one sector of buffer are enough.
  lemma PackDecode(cb: nat, off: nat, size: nat)
    requires ClusterBits(cb) && off < Pow2(Shift(cb)) && 0 < size < Pow2(cb)
    ensures var w := PackWord(cb, off, size);
      && PackedOffset(cb, w) == off
      && PackedSectors(cb, w) == (off + size - 1) / 512 - off / 512 + 1
      && PackedSectors(cb, w) * 512 <= Pow2(cb) + 512
      && PackedSectors(cb, w) * 512 - off % 512 >= size
      && Pow2(COMPRESSED_BIT) <= w < Pow2(COPIED_BIT)
  {
    hide Or, Shl, And, Pow2, PackedOffset, PackedSectors;
    CountFits(cb, off, size);
    var n := ExtraSectors(off, size);
    WordSum(cb, off, n);
    WordParts(cb, off, n, PackWord(cb, off, size));
  }

  // ----- whole table words -----

  // w & (1 << k)
  predicate Bit(w: nat, k: nat) { Shr(w, k) % 2 == 1 }

  // An entry that a 64-bit word can hold.
  predicate Storable(cb: nat, e: Entry)
    requires ClusterBits(cb)
  {
    match e
    case Zero => true
    case Plain(at, _) => 0 < at && Shl(at, cb) < Pow2(COMPRESSED_BIT)
    case Packed(sec, off, nb) => off < 512 && sec * 512 + off < Pow2(Shift(cb)) && 1 <= nb <= Pow2(CountBits(cb))
  }

  function EntryWord(cb: nat, e: Entry): nat
    requires ClusterBits(cb) && Storable(cb, e)
  {
    match e
    case Zero => 0
    case Plain(at, copied) => if copied then Or(Shl(at, cb), Shl(1, COPIED_BIT)) else Shl(at, cb)
    case Packed(sec, off, nb) => Or(sec * 512 + off, Or(Shl(nb - 1, Shift(cb)), Shl(1, COMPRESSED_BIT)))
  }

  function WordEntry(cb: nat, w: nat): Entry
    requires ClusterBits(cb)
  {
    if w == 0 then Zero
    else if Bit(w, COPIED_BIT) then Plain(Shr(And(w, Pow2(COPIED_BIT) - 1), cb), true)
    else if Bit(w, COMPRESSED_BIT) then Packed(PackedOffset(cb, w) / 512, PackedOffset(cb, w) % 512,
                                               PackedSectors(cb, w))
    else Plain(Shr(w, cb), false)
  }

  lemma LowBit(w: nat, k: nat)
    requires w < Pow2(k)
    ensures !Bit(w, k)
  {
    ShrShl(0, k, w);
    ShlZero(k);
  }

  lemma {:induction false} ShlZero(k: nat)
    ensures Shl(0, k) == 0
  {
    if k > 0 { ShlZero(k - 1); }
  }

  lemma TopBitSet(w: nat, k: nat)
    requires Pow2(k) <= w < Pow2(k + 1)
    ensures Bit(w, k)
  {
    hide Pow2, Shl;
    PowIs(k);
    ShrShl(1, k, w - Pow2(k));
  }

  lemma ShrWhole(at: nat, cb: nat)
    ensures Shr(Shl(at, cb), cb) == at
  {
    ShrShl(at, cb, 0);
  }

  lemma {:induction false} ShlPositive(at: nat, cb: nat)
    requires at > 0
    ensures Shl(at, cb) > 0
  {
    if cb > 0 { ShlPositive(at, cb - 1); }
  }

  lemma PlainWord(cb: nat, at: nat, copied: bool)
    requires ClusterBits(cb) && Storable(cb, Plain(at, copied))
    ensures WordEntry(cb, EntryWord(cb, Plain(at, copied))) == Plain(at, copied)
  {
    hide Or, Shl, Shr, And, Pow2, Bit, PackedOffset, PackedSectors;
    var v := Shl(at, cb);
    ShlPositive(at, cb);
    ShrWhole(at, cb);
    PowIs(COMPRESSED_BIT);
    PowIs(COPIED_BIT);
    if copied {
      OrSum(v, 1, COPIED_BIT);
      TopBitSet(v + Pow2(COPIED_BIT), COPIED_BIT);
      AndShl(1, COPIED_BIT, v);
    } else {
      LowBit(v, COMPRESSED_BIT);
      LowBit(v, COPIED_BIT);
    }
  }

  lemma PackedWord(cb: nat, sec: nat, off: nat, nb: nat)
    requires ClusterBits(cb) && Storable(cb, Packed(sec, off, nb))
    ensures WordEntry(cb, EntryWord(cb, Packed(sec, off, nb))) == Packed(sec, off, nb)
  {
    hide Or, Shl, Shr, And, Pow2, Bit, PackedOffset, PackedSectors;
    var at := sec * 512 + off;
    var w := EntryWord(cb, Packed(sec, off, nb));
    WordSum(cb, at, nb - 1);
    WordParts(cb, at, nb - 1, w);
    PowIs(COMPRESSED_BIT);
    TopBitSet(w, COMPRESSED_BIT);
    LowBit(w, COPIED_BIT);
  }

  // Every table entry is read back from its word.
  lemma WordRoundTrip(cb: nat, e: Entry)
    requires ClusterBits(cb) && Storable(cb, e)
    ensures WordEntry(cb, EntryWord(cb, e)) == e
  {
    hide WordEntry, EntryWord, Storable;
    match e {
      case Zero => ZeroWord(cb);
      case Plain(at, copied) => PlainWord(cb, at, copied);
      case Packed(sec, off, nb) => PackedWord(cb, sec, off, nb);
    }
  }

  lemma ZeroWord(cb: nat)
    requires ClusterBits(cb)
    ensures WordEntry(cb, EntryWord(cb, Zero)) == Zero
  {
  }
}

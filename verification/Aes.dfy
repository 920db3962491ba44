// aes.c: key schedules and block cipher over the caller's buffers, proved against FIPS 197.

module Aes {
  import opened Rijndael
  import opened Cipher
  import opened AesTables

  const MAX_WORDS: nat := 60

  // ----- blocks of 16 bytes -----

  // GETU32 on four columns
  function Load(b: seq<bv8>): State
    requires |b| == 16
  {
    State(Pack(b[0], b[1], b[2], b[3]), Pack(b[4], b[5], b[6], b[7]), Pack(b[8], b[9], b[10], b[11]),
          Pack(b[12], b[13], b[14], b[15]))
  }

  function Bytes(w: bv32): (r: seq<bv8>)
    ensures |r| == 4
  {
    [B0(w), B1(w), B2(w), B3(w)]
  }

  // PUTU32 on four columns
  function Store(s: State): (r: seq<bv8>)
    ensures |r| == 16
  {
    Bytes(s.c0) + Bytes(s.c1) + Bytes(s.c2) + Bytes(s.c3)
  }

  lemma BytesLoad(w: bv32)
    ensures Pack(Bytes(w)[0], Bytes(w)[1], Bytes(w)[2], Bytes(w)[3]) == w
  {
    hide Pack, B0, B1, B2, B3;
    BytesPack(w);
  }

  lemma LoadStore(s: State)
    ensures Load(Store(s)) == s
  {
    hide Pack, Bytes;
    BytesLoad(s.c0);
    BytesLoad(s.c1);
    BytesLoad(s.c2);
    BytesLoad(s.c3);
  }

  lemma StoreLoad(b: seq<bv8>)
    requires |b| == 16
    ensures Store(Load(b)) == b
  {
    hide Pack, B0, B1, B2, B3;
    PackBytes(b[0], b[1], b[2], b[3]);
    PackBytes(b[4], b[5], b[6], b[7]);
    PackBytes(b[8], b[9], b[10], b[11]);
    PackBytes(b[12], b[13], b[14], b[15]);
  }

  // The cipher of the standard on a block of bytes, and its inverse cipher.
  function EncBlock(key: seq<bv8>, b: seq<bv8>): (r: seq<bv8>)
    requires KeySize(|key|) && |b| == 16
    ensures |r| == 16
  {
    Store(Encipher(Load(b), RoundKeys(key)))
  }

  function DecBlock(key: seq<bv8>, b: seq<bv8>): (r: seq<bv8>)
    requires KeySize(|key|) && |b| == 16
    ensures |r| == 16
  {
    Store(Decipher(Load(b), RoundKeys(key)))
  }

  // For every key of every size and every block, decryption undoes encryption.
  lemma DecEnc(key: seq<bv8>, b: seq<bv8>)
    requires KeySize(|key|) && |b| == 16
    ensures DecBlock(key, EncBlock(key, b)) == b
  {
    hide Load, Store, Encipher, Decipher, EqDecipher, RoundKeys, DecryptKeys;
    var rk := RoundKeys(key);
    LoadStore(Encipher(Load(b), rk));
    DecipherEncipher(Load(b), rk);
    EqDecipherIs(Encipher(Load(b), rk), rk);
    StoreLoad(b);
  }

  // ----- key expansion -----

  // rcon[i]
  function RconWord(i: nat): bv32
    requires i < 10
  {
    [0x01000000, 0x02000000, 0x04000000, 0x08000000, 0x10000000, 0x20000000, 0x40000000, 0x80000000, 0x1B000000,
     0x36000000][i]
  }

  lemma RconBytes()
    ensures Rcon(1) == 0x01 && Rcon(2) == 0x02 && Rcon(3) == 0x04 && Rcon(4) == 0x08 && Rcon(5) == 0x10
    ensures Rcon(6) == 0x20 && Rcon(7) == 0x40 && Rcon(8) == 0x80 && Rcon(9) == 0x1b && Rcon(10) == 0x36
  {
    assert Rcon(2) == X2(Rcon(1)) && Rcon(3) == X2(Rcon(2)) && Rcon(4) == X2(Rcon(3)) && Rcon(5) == X2(Rcon(4));
    assert Rcon(6) == X2(Rcon(5)) && Rcon(7) == X2(Rcon(6)) && Rcon(8) == X2(Rcon(7)) && Rcon(9) == X2(Rcon(8));
    assert Rcon(10) == X2(Rcon(9));
  }

  lemma RconIs(i: nat)
    requires i < 10
    ensures RconWord(i) == Pack(Rcon(i + 1), 0, 0, 0)
  {
    hide Rcon;
    RconBytes();
  }

  lemma XorAssoc(a: bv32, b: bv32, c: bv32)
    ensures Xor(Xor(a, b), c) == Xor(a, Xor(b, c))
  {
  }

  // SubWord(RotWord(w)) and SubWord(w) by table lookup
  function RotSub(w: bv32): bv32 { Quad(Te4(B1(w)), Te4(B2(w)), Te4(B3(w)), Te4(B0(w))) }

  function Sub(w: bv32): bv32 { Quad(Te4(B0(w)), Te4(B1(w)), Te4(B2(w)), Te4(B3(w))) }

  lemma RotSubIs(w: bv32)
    ensures RotSub(w) == SubWord(RotWord(w)) && Sub(w) == SubWord(w)
  {
    hide Quad, Pack, S, B0, B1, B2, B3;
    QuadPack(S(B1(w)), S(B2(w)), S(B3(w)), S(B0(w)));
    QuadPack(S(B0(w)), S(B1(w)), S(B2(w)), S(B3(w)));
    PackBytes(B1(w), B2(w), B3(w), B0(w));
  }

  // The word the schedule computes at i from the words before it.
  lemma KeyNext(key: seq<bv8>, i: nat)
    requires KeySize(|key|) && i >= |key| / 4
    ensures var nk := |key| / 4;
      && (i % nk == 0 && i / nk <= 10 ==>
            KeyWord(key, i) == Xor(Xor(KeyWord(key, i - nk), RotSub(KeyWord(key, i - 1))), RconWord(i / nk - 1)))
      && (nk == 8 && i % nk == 4 ==> KeyWord(key, i) == Xor(KeyWord(key, i - nk), Sub(KeyWord(key, i - 1))))
      && (i % nk != 0 && !(nk == 8 && i % nk == 4) ==>
            KeyWord(key, i) == Xor(KeyWord(key, i - nk), KeyWord(key, i - 1)))
  {
    hide Xor, SubWord, RotWord, RotSub, Sub, Pack, Rcon, RconWord;
    var nk := |key| / 4;
    var temp := KeyWord(key, i - 1);
    RotSubIs(temp);
    if i % nk == 0 && i / nk <= 10 {
      RconIs(i / nk - 1);
      XorAssoc(KeyWord(key, i - nk), RotSub(temp), RconWord(i / nk - 1));
    }
  }

  // InvMixColumns on a round key word, through both kinds of table
  function InvMixLookup(w: bv32): bv32
  {
    Xor4(Td0(B3(Te4(B0(w)))), Td1(B3(Te4(B1(w)))), Td2(B3(Te4(B2(w)))), Td3(B3(Te4(B3(w)))))
  }

  lemma InvMixLookupIs(w: bv32)
    ensures InvMixLookup(w) == InvMixWord(w)
  {
    hide Xor4, Td0, Td1, Td2, Td3, InvMixWord, Pack, S, Si, B0, B1, B2, B3;
    TeLow(B0(w));
    TeLow(B1(w));
    TeLow(B2(w));
    TeLow(B3(w));
    TdMix(S(B0(w)), S(B1(w)), S(B2(w)), S(B3(w)));
    BytesPack(w);
  }

  lemma TeLow(x: bv8)
    ensures B3(Te4(x)) == S(x) && Si(S(x)) == x
  {
    hide Pack, S, Si, B0, B1, B2, B3;
    PackBytes(S(x), S(x), S(x), S(x));
    SiS(x);
  }

  // Round key r of a schedule.
  function KeyAt(rd: seq<bv32>, r: nat): State
    requires 4 * r + 3 < |rd|
  {
    State(rd[4 * r], rd[4 * r + 1], rd[4 * r + 2], rd[4 * r + 3])
  }

  function Exchanged(s: seq<bv32>, i: nat, j: nat): (r: seq<bv32>)
    requires i < |s| && j < |s|
    ensures |r| == |s|
  {
    s[i := s[j]][j := s[i]]
  }

  lemma KeysSwapped(s: seq<bv32>, a: nat, b: nat)
    requires |s| == MAX_WORDS && a < b < 15
    ensures var i, j := 4 * a, 4 * b;
      var t := Exchanged(Exchanged(Exchanged(Exchanged(s, i, j), i + 1, j + 1), i + 2, j + 2), i + 3, j + 3);
      && KeyAt(t, a) == KeyAt(s, b) && KeyAt(t, b) == KeyAt(s, a)
      && forall r: nat :: r < 15 && r != a && r != b ==> KeyAt(t, r) == KeyAt(s, r)
  {
  }

  // Round key r once the keys outside [i, j] have changed places with their mirror images.
  function Mirror(rk: seq<State>, i: int, j: int, r: nat): State
    requires r < |rk|
  {
    if r < i || r > j then rk[|rk| - 1 - r] else rk[r]
  }

  ghost predicate Swapped(rd: seq<bv32>, rk: seq<State>, i: int, j: int)
  {
    |rd| == MAX_WORDS && |rk| <= 15 && forall r: nat :: r < |rk| ==> KeyAt(rd, r) == Mirror(rk, i, j, r)
  }

  lemma SwappedStep(was: seq<bv32>, now: seq<bv32>, rk: seq<State>, i: nat, j: nat)
    requires Swapped(was, rk, i, j) && |now| == MAX_WORDS && i < j && i + j == |rk| - 1
    requires KeyAt(now, i) == KeyAt(was, j) && KeyAt(now, j) == KeyAt(was, i)
    requires forall r: nat :: r < 15 && r != i && r != j ==> KeyAt(now, r) == KeyAt(was, r)
    ensures Swapped(now, rk, i + 1, j - 1)
  {
    hide KeyAt;
    forall r: nat | r < |rk| ensures KeyAt(now, r) == Mirror(rk, i + 1, j - 1, r) {
      assert KeyAt(was, i) == Mirror(rk, i, j, i) && KeyAt(was, j) == Mirror(rk, i, j, j) &&
        KeyAt(was, r) == Mirror(rk, i, j, r);
      if r == i { assert rk[|rk| - 1 - r] == rk[j]; } else if r == j { assert rk[|rk| - 1 - r] == rk[i]; }
    }
  }

  lemma SwappedAll(rd: seq<bv32>, rk: seq<State>, i: int, j: int)
    requires Swapped(rd, rk, i, j) && j <= i <= j + 1 && i + j == |rk| - 1
    ensures forall r: nat :: r < |rk| ==> KeyAt(rd, r) == rk[|rk| - 1 - r]
  {
    hide KeyAt;
    forall r: nat | r < |rk| ensures KeyAt(rd, r) == rk[|rk| - 1 - r] {
      assert KeyAt(rd, r) == Mirror(rk, i, j, r);
      if i <= r <= j { assert |rk| - 1 - r == r; }
    }
  }

  // ----- AES_KEY -----

  class AesKey {
    const rd: array<bv32>
    var rounds: nat

    constructor ()
      ensures fresh(rd) && rd.Length == MAX_WORDS
    {
      rd := new bv32[MAX_WORDS];
      rounds := 0;
    }

    // The first words are the key itself.
    method LoadKey(key: seq<bv8>)
      requires KeySize(|key|) && rd.Length == MAX_WORDS
      modifies rd
      ensures Filled(rd[..], key, |key| / 4)
    {
      hide Pack;
      var i := 0;
      while i < |key| / 4
        invariant 0 <= i <= |key| / 4 && Filled(rd[..], key, i)
      {
        rd[i] := Pack(key[4 * i], key[4 * i + 1], key[4 * i + 2], key[4 * i + 3]);
        i := i + 1;
      }
    }

    // One word of the schedule that needs no table
    method Chain(key: seq<bv8>, n: nat)
      requires KeySize(|key|) && rd.Length == MAX_WORDS && |key| / 4 <= n < MAX_WORDS && Filled(rd[..], key, n)
      requires n % (|key| / 4) != 0 && !(|key| == 32 && n % 8 == 4)
      modifies rd
      ensures Filled(rd[..], key, n + 1)
    {
      hide Xor, KeyWord;
      KeyNext(key, n);
      rd[n] := Xor(rd[n - |key| / 4], rd[n - 1]);
    }

    // The word that starts a new stretch of the schedule
    method Turn(key: seq<bv8>, n: nat, i: nat)
      requires KeySize(|key|) && rd.Length == MAX_WORDS && n < MAX_WORDS && Filled(rd[..], key, n)
      requires n == (i + 1) * (|key| / 4) && i < 10
      modifies rd
      ensures Filled(rd[..], key, n + 1)
    {
      hide Xor, KeyWord, RotSub, RconWord;
      assert n / (|key| / 4) == i + 1 && n % (|key| / 4) == 0;
      KeyNext(key, n);
      rd[n] := Xor(Xor(rd[n - |key| / 4], RotSub(rd[n - 1])), RconWord(i));
    }

    // The loop for 128-bit keys
    method Expand128(key: seq<bv8>)
      requires |key| == 16 && rd.Length == MAX_WORDS && Filled(rd[..], key, 4)
      modifies rd
      ensures Filled(rd[..], key, 44)
    {
      hide KeyWord;
      var i, b := 0, 0;
      while true
        invariant 0 <= i < 10 && b == 4 * i && Filled(rd[..], key, b + 4)
        decreases 10 - i
      {
        Turn(key, b + 4, i);
        Chain(key, b + 5);
        Chain(key, b + 6);
        Chain(key, b + 7);
        i := i + 1;
        if i == 10 { return; }
        b := b + 4;
      }
    }

    // The loop for 192-bit keys
    method Expand192(key: seq<bv8>)
      requires |key| == 24 && rd.Length == MAX_WORDS && Filled(rd[..], key, 6)
      modifies rd
      ensures Filled(rd[..], key, 52)
    {
      hide KeyWord;
      var i, b := 0, 0;
      while true
        invariant 0 <= i < 8 && b == 6 * i && Filled(rd[..], key, b + 6)
        decreases 8 - i
      {
        Turn(key, b + 6, i);
        Chain(key, b + 7);
        Chain(key, b + 8);
        Chain(key, b + 9);
        i := i + 1;
        if i == 8 { return; }
        Chain(key, b + 10);
        Chain(key, b + 11);
        b := b + 6;
      }
    }

    // The middle word of a stretch for 256-bit keys
    method Middle(key: seq<bv8>, n: nat)
      requires |key| == 32 && rd.Length == MAX_WORDS && 8 <= n < MAX_WORDS && Filled(rd[..], key, n) && n % 8 == 4
      modifies rd
      ensures Filled(rd[..], key, n + 1)
    {
      hide Xor, KeyWord, Sub;
      KeyNext(key, n);
      rd[n] := Xor(rd[n - 8], Sub(rd[n - 1]));
    }

    // The loop for 256-bit keys
    method Expand256(key: seq<bv8>)
      requires |key| == 32 && rd.Length == MAX_WORDS && Filled(rd[..], key, 8)
      modifies rd
      ensures Filled(rd[..], key, 60)
    {
      hide KeyWord;
      var i, b := 0, 0;
      while true
        invariant 0 <= i < 7 && b == 8 * i && Filled(rd[..], key, b + 8)
        decreases 7 - i
      {
        Turn(key, b + 8, i);
        Chain(key, b + 9);
        Chain(key, b + 10);
        Chain(key, b + 11);
        i := i + 1;
        if i == 7 { return; }
        Middle(key, b + 12);
        Chain(key, b + 13);
        Chain(key, b + 14);
        Chain(key, b + 15);
        b := b + 8;
      }
    }

    // AES_set_encrypt_key
    method SetEncryptKey(key: seq<bv8>, bits: int) returns (status: int)
      requires rd.Length == MAX_WORDS && (bits == 128 || bits == 192 || bits == 256 ==> |key| == bits / 8)
      modifies this, rd
      ensures status == if bits == 128 || bits == 192 || bits == 256 then 0 else -2
      ensures status == 0 ==> KeySize(|key|) && Holds(RoundKeys(key))
      ensures status != 0 ==> rounds == old(rounds) && rd[..] == old(rd[..])
    {
      hide KeyWord;
      if bits != 128 && bits != 192 && bits != 256 { return -2; }
      rounds := if bits == 128 then 10 else if bits == 192 then 12 else 14;
      LoadKey(key);
      if bits == 128 {
        Expand128(key);
      } else if bits == 192 {
        Expand192(key);
      } else {
        Expand256(key);
      }
      ghost var rk := RoundKeys(key);
      forall r: nat | r < |rk| ensures rk[r] == State(rd[4 * r], rd[4 * r + 1], rd[4 * r + 2], rd[4 * r + 3]) {
        assert rd[..][4 * r] == KeyWord(key, 4 * r) && rd[..][4 * r + 1] == KeyWord(key, 4 * r + 1);
        assert rd[..][4 * r + 2] == KeyWord(key, 4 * r + 2) && rd[..][4 * r + 3] == KeyWord(key, 4 * r + 3);
      }
      status := 0;
    }

    // The schedule holds these round keys.
    ghost predicate Holds(rk: seq<State>)
      reads this, rd
    {
      && rd.Length == MAX_WORDS && rounds + 1 == |rk| && 4 * |rk| <= MAX_WORDS && 2 <= rounds && rounds % 2 == 0
      && forall r: nat :: r < |rk| ==> rk[r] == State(rd[4 * r], rd[4 * r + 1], rd[4 * r + 2], rd[4 * r + 3])
    }

    // The four schedule words from rd[base] on.
    function Words(base: nat): State
      requires base + 3 < rd.Length
      reads this, rd
    {
      State(rd[base], rd[base + 1], rd[base + 2], rd[base + 3])
    }

    lemma HoldsAt(rk: seq<State>, r: nat)
      requires Holds(rk) && r < |rk|
      ensures Words(4 * r) == rk[r]
    {
    }

    // Exchange round keys a and b word by word.
    method SwapKeys(a: nat, b: nat)
      requires rd.Length == MAX_WORDS && a < b < 15
      modifies rd
      ensures KeyAt(rd[..], a) == KeyAt(old(rd[..]), b) && KeyAt(rd[..], b) == KeyAt(old(rd[..]), a)
      ensures forall r: nat :: r < 15 && r != a && r != b ==> KeyAt(rd[..], r) == KeyAt(old(rd[..]), r)
    {
      hide Exchanged, KeyAt;
      var i, j := 4 * a, 4 * b;
      SwapWords(i, j);
      SwapWords(i + 1, j + 1);
      SwapWords(i + 2, j + 2);
      SwapWords(i + 3, j + 3);
      KeysSwapped(old(rd[..]), a, b);
    }

    method SwapWords(i: nat, j: nat)
      requires i < j < rd.Length
      modifies rd
      ensures rd[..] == Exchanged(old(rd[..]), i, j)
    {
      var temp := rd[i];
      rd[i] := rd[j];
      rd[j] := temp;
    }

    // Put InvMixColumns of round key r in its place.
    method InvMixKeyAt(r: nat)
      requires rd.Length == MAX_WORDS && r < 15
      modifies rd
      ensures forall q: nat :: q < 15 ==>
        KeyAt(rd[..], q) == if q == r then InvMixColumns(KeyAt(old(rd[..]), q)) else KeyAt(old(rd[..]), q)
    {
      hide InvMixLookup, InvMixWord;
      var b := 4 * r;
      InvMixLookupIs(rd[b]);
      InvMixLookupIs(rd[b + 1]);
      InvMixLookupIs(rd[b + 2]);
      InvMixLookupIs(rd[b + 3]);
      rd[b] := InvMixLookup(rd[b]);
      rd[b + 1] := InvMixLookup(rd[b + 1]);
      rd[b + 2] := InvMixLookup(rd[b + 2]);
      rd[b + 3] := InvMixLookup(rd[b + 3]);
    }

    // Invert the order of the round keys.
    method ReverseKeys(ghost rk: seq<State>)
      requires Holds(rk)
      modifies rd
      ensures forall r: nat :: r < |rk| ==> KeyAt(rd[..], r) == rk[|rk| - 1 - r]
    {
      forall r: nat | r < |rk| ensures KeyAt(rd[..], r) == Mirror(rk, 0, rounds, r) {
        assert rk[r] == State(rd[4 * r], rd[4 * r + 1], rd[4 * r + 2], rd[4 * r + 3]);
      }
      ReverseLoop(rk);
    }

    method ReverseLoop(ghost rk: seq<State>)
      requires rd.Length == MAX_WORDS && rounds + 1 == |rk| <= 15 && Swapped(rd[..], rk, 0, rounds)
      modifies rd
      ensures forall r: nat :: r < |rk| ==> KeyAt(rd[..], r) == rk[|rk| - 1 - r]
    {
      hide KeyAt, Swapped;
      var i, j: int := 0, rounds;
      while i < j
        invariant 0 <= i <= j + 1 && i + j == rounds && Swapped(rd[..], rk, i, j)
      {
        ghost var was := rd[..];
        SwapKeys(i, j);
        SwappedStep(was, rd[..], rk, i, j);
        i := i + 1;
        j := j - 1;
      }
      SwappedAll(rd[..], rk, i, j);
    }

    // AES_set_decrypt_key
    method SetDecryptKey(key: seq<bv8>, bits: int) returns (status: int)
      requires rd.Length == MAX_WORDS && (bits == 128 || bits == 192 || bits == 256 ==> |key| == bits / 8)
      modifies this, rd
      ensures status == if bits == 128 || bits == 192 || bits == 256 then 0 else -2
      ensures status == 0 ==> KeySize(|key|) && Holds(DecryptKeys(RoundKeys(key)))
      ensures status != 0 ==> rounds == old(rounds) && rd[..] == old(rd[..])
    {
      hide RoundKeys, KeyWord;
      status := SetEncryptKey(key, bits);
      if status < 0 { return; }
      ghost var rk := RoundKeys(key);
      ReverseKeys(rk);
      InvMixInner(rk);
      forall r: nat | r < |rk|
        ensures DecryptKeys(rk)[r] == State(rd[4 * r], rd[4 * r + 1], rd[4 * r + 2], rd[4 * r + 3])
      {
        assert DecryptKeys(rk)[r] == KeyAt(rd[..], r);
      }
    }

    // Apply InvMixColumns to all round keys but the first and the last.
    method InvMixInner(ghost rk: seq<State>)
      requires rd.Length == MAX_WORDS && 2 <= rounds && rounds + 1 == |rk| <= 15
      requires forall r: nat :: r < |rk| ==> KeyAt(rd[..], r) == rk[|rk| - 1 - r]
      modifies rd
      ensures forall r: nat :: r < |rk| ==> KeyAt(rd[..], r) == DecryptKeys(rk)[r]
    {
      hide KeyAt, InvMixColumns;
      var i := 1;
      while i < rounds
        invariant 1 <= i <= rounds
        invariant forall r: nat :: r < |rk| ==>
          KeyAt(rd[..], r) == if 0 < r < i then InvMixColumns(rk[|rk| - 1 - r]) else rk[|rk| - 1 - r]
      {
        ghost var was := rd[..];
        InvMixKeyAt(i);
        forall r: nat | r < |rk|
          ensures KeyAt(rd[..], r) == if 0 < r <= i then InvMixColumns(rk[|rk| - 1 - r]) else rk[|rk| - 1 - r]
        {
          assert KeyAt(rd[..], r) == if r == i then InvMixColumns(KeyAt(was, r)) else KeyAt(was, r);
        }
        i := i + 1;
      }
    }
  }

  ghost predicate Filled(rd: seq<bv32>, key: seq<bv8>, n: nat)
    requires KeySize(|key|)
  {
    n <= |rd| && forall i: nat :: i < n ==> rd[i] == KeyWord(key, i)
  }

  // PUTU32
  method PutWord(out: array<bv8>, q: nat, w: bv32)
    requires q + 4 <= out.Length
    modifies out
    ensures out[q..q + 4] == Bytes(w)
    ensures forall i: nat :: i < out.Length && !(q <= i < q + 4) ==> out[i] == old(out[i])
  {
    out[q], out[q + 1], out[q + 2], out[q + 3] := B0(w), B1(w), B2(w), B3(w);
  }

  method PutPair(out: array<bv8>, q: nat, v: bv32, w: bv32)
    requires q + 8 <= out.Length
    modifies out
    ensures out[q..q + 8] == Bytes(v) + Bytes(w)
    ensures forall i: nat :: i < out.Length && !(q <= i < q + 8) ==> out[i] == old(out[i])
  {
    hide Bytes;
    PutWord(out, q, v);
    label A: PutWord(out, q + 4, w);
    assert out[q..q + 4] == old@A(out[q..q + 4]);
    assert out[q..q + 8] == out[q..q + 4] + out[q + 4..q + 8];
  }

  method PutState(out: array<bv8>, q: nat, s: State)
    requires q + 16 <= out.Length
    modifies out
    ensures out[q..q + 16] == Store(s)
    ensures forall i: nat :: i < out.Length && !(q <= i < q + 16) ==> out[i] == old(out[i])
  {
    hide Bytes;
    PutPair(out, q, s.c0, s.c1);
    label A: PutPair(out, q + 8, s.c2, s.c3);
    assert out[q..q + 8] == old@A(out[q..q + 8]);
    assert out[q..q + 16] == out[q..q + 8] + out[q + 8..q + 16];
  }

  lemma RoundsStep(s: State, rk: seq<State>, r: nat)
    requires r < |rk|
    ensures r == 0 ==> Rounds(s, rk, r) == AddRoundKey(s, rk[0])
    ensures r > 0 ==> Rounds(s, rk, r) == TeRound(Rounds(s, rk, r - 1), rk[r])
  {
    hide AddRoundKey, MixColumns, ShiftRows, SubBytes, TeRound;
    if r > 0 { TeRoundIs(Rounds(s, rk, r - 1), rk[r]); }
  }

  lemma EqRoundsStep(s: State, dk: seq<State>, r: nat)
    requires r < |dk|
    ensures r == 0 ==> EqRounds(s, dk, r) == AddRoundKey(s, dk[0])
    ensures r > 0 ==> EqRounds(s, dk, r) == TdRound(EqRounds(s, dk, r - 1), dk[r])
  {
    hide AddRoundKey, InvMixColumns, InvShiftRows, InvSubBytes, TdRound;
    if r > 0 { TdRoundIs(EqRounds(s, dk, r - 1), dk[r]); }
  }

  // The two-rounds-per-turn loop of AES_encrypt
  method EncryptState(inp: State, k: AesKey, ghost rk: seq<State>) returns (out: State)
    requires k.Holds(rk)
    ensures out == Encipher(inp, rk)
  {
    hide AddRoundKey, MixColumns, ShiftRows, SubBytes, TeRound, TeFinal, Rounds;
    var s := AddRoundKey(inp, k.Words(0));
    k.HoldsAt(rk, 0);
    RoundsStep(inp, rk, 0);
    var t;
    var base := 0;
    var r := k.rounds / 2;
    ghost var n := 0;
    while true
      invariant 0 < r && n + 2 * r == k.rounds && base == 4 * n && s == Rounds(inp, rk, n)
      decreases r
    {
      k.HoldsAt(rk, n + 1);
      RoundsStep(inp, rk, n + 1);
      t := TeRound(s, k.Words(base + 4));
      base := base + 8;
      r := r - 1;
      if r == 0 { break; }
      k.HoldsAt(rk, n + 2);
      RoundsStep(inp, rk, n + 2);
      s := TeRound(t, k.Words(base));
      n := n + 2;
    }
    k.HoldsAt(rk, |rk| - 1);
    TeFinalIs(t, rk[|rk| - 1]);
    out := TeFinal(t, k.Words(base));
  }

  // The loop of AES_decrypt
  method DecryptState(inp: State, k: AesKey, ghost dk: seq<State>) returns (out: State)
    requires k.Holds(dk)
    ensures out == EqDecipher(inp, dk)
  {
    hide AddRoundKey, InvMixColumns, InvShiftRows, InvSubBytes, TdRound, TdFinal, EqRounds;
    var s := AddRoundKey(inp, k.Words(0));
    k.HoldsAt(dk, 0);
    EqRoundsStep(inp, dk, 0);
    var t;
    var base := 0;
    var r := k.rounds / 2;
    ghost var n := 0;
    while true
      invariant 0 < r && n + 2 * r == k.rounds && base == 4 * n && s == EqRounds(inp, dk, n)
      decreases r
    {
      k.HoldsAt(dk, n + 1);
      EqRoundsStep(inp, dk, n + 1);
      t := TdRound(s, k.Words(base + 4));
      base := base + 8;
      r := r - 1;
      if r == 0 { break; }
      k.HoldsAt(dk, n + 2);
      EqRoundsStep(inp, dk, n + 2);
      s := TdRound(t, k.Words(base));
      n := n + 2;
    }
    k.HoldsAt(dk, |dk| - 1);
    TdFinalIs(t, dk[|dk| - 1]);
    out := TdFinal(t, k.Words(base));
  }

  // ----- AES_encrypt and AES_decrypt on buffers, which may overlap -----

  method Encrypt(inp: array<bv8>, p: nat, out: array<bv8>, q: nat, k: AesKey, ghost key: seq<bv8>)
    requires KeySize(|key|) && k.Holds(RoundKeys(key)) && p + 16 <= inp.Length && q + 16 <= out.Length
    modifies out
    ensures out[q..q + 16] == EncBlock(key, old(inp[p..p + 16]))
    ensures forall i: nat :: i < out.Length && !(q <= i < q + 16) ==> out[i] == old(out[i])
  {
    hide Pack, Store, Encipher, RoundKeys;
    var s := Load(inp[p..p + 16]);
    var t := EncryptState(s, k, RoundKeys(key));
    PutState(out, q, t);
  }

  method Decrypt(inp: array<bv8>, p: nat, out: array<bv8>, q: nat, k: AesKey, ghost key: seq<bv8>)
    requires KeySize(|key|) && k.Holds(DecryptKeys(RoundKeys(key))) && p + 16 <= inp.Length && q + 16 <= out.Length
    modifies out
    ensures out[q..q + 16] == DecBlock(key, old(inp[p..p + 16]))
    ensures forall i: nat :: i < out.Length && !(q <= i < q + 16) ==> out[i] == old(out[i])
  {
    hide Pack, Store, Decipher, EqDecipher, RoundKeys, DecryptKeys;
    var s := Load(inp[p..p + 16]);
    EqDecipherIs(s, RoundKeys(key));
    var t := DecryptState(s, k, DecryptKeys(RoundKeys(key)));
    PutState(out, q, t);
  }
}

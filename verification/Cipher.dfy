// The cipher, its inverse and its key schedule as FIPS 197 states them (sections 5.1 to 5.3.5).

module Cipher {
  import opened Rijndael

  // ----- encryption (section 5.1) -----

  // The state after r full rounds.
  function Rounds(s: State, rk: seq<State>, r: nat): State
    requires r < |rk|
  {
    if r == 0 then AddRoundKey(s, rk[0])
    else AddRoundKey(MixColumns(ShiftRows(SubBytes(Rounds(s, rk, r - 1)))), rk[r])
  }

  function Encipher(s: State, rk: seq<State>): State
    requires |rk| >= 2
  {
    AddRoundKey(ShiftRows(SubBytes(Rounds(s, rk, |rk| - 2))), rk[|rk| - 1])
  }

  // ----- the inverse cipher (section 5.3) -----

  // The state after the rounds with keys rk[|rk| - 1] .. rk[|rk| - 1 - r].
  function InvRounds(s: State, rk: seq<State>, r: nat): State
    requires r < |rk|
  {
    if r == 0 then AddRoundKey(s, rk[|rk| - 1])
    else InvMixColumns(AddRoundKey(InvSubBytes(InvShiftRows(InvRounds(s, rk, r - 1))), rk[|rk| - 1 - r]))
  }

  function Decipher(s: State, rk: seq<State>): State
    requires |rk| >= 2
  {
    AddRoundKey(InvSubBytes(InvShiftRows(InvRounds(s, rk, |rk| - 2))), rk[0])
  }

  // ----- the equivalent inverse cipher (section 5.3.5) -----

  function EqRounds(s: State, dk: seq<State>, r: nat): State
    requires r < |dk|
  {
    if r == 0 then AddRoundKey(s, dk[0])
    else AddRoundKey(InvMixColumns(InvShiftRows(InvSubBytes(EqRounds(s, dk, r - 1)))), dk[r])
  }

  function EqDecipher(s: State, dk: seq<State>): State
    requires |dk| >= 2
  {
    AddRoundKey(InvShiftRows(InvSubBytes(EqRounds(s, dk, |dk| - 2))), dk[|dk| - 1])
  }

  // The round keys in reverse order, the inner ones through InvMixColumns.
  function DecryptKeys(rk: seq<State>): (dk: seq<State>)
    ensures |dk| == |rk|
    ensures forall r: nat :: r < |rk| ==>
      dk[r] == if r == 0 || r == |rk| - 1 then rk[|rk| - 1 - r] else InvMixColumns(rk[|rk| - 1 - r])
  {
    seq(|rk|, r requires 0 <= r < |rk| => if r == 0 || r == |rk| - 1 then rk[|rk| - 1 - r]
      else InvMixColumns(rk[|rk| - 1 - r]))
  }

  // ----- decryption undoes encryption -----

  lemma AddTwice(s: State, k: State)
    ensures AddRoundKey(AddRoundKey(s, k), k) == s
  {
    hide Xor;
    XorTwice(s.c0, k.c0);
    XorTwice(s.c1, k.c1);
    XorTwice(s.c2, k.c2);
    XorTwice(s.c3, k.c3);
  }

  lemma InvMixKey(s: State, k: State)
    ensures InvMixColumns(AddRoundKey(s, k)) == AddRoundKey(InvMixColumns(s), InvMixColumns(k))
  {
    hide InvMixWord, Xor;
    InvMixAdd(s.c0, k.c0);
    InvMixAdd(s.c1, k.c1);
    InvMixAdd(s.c2, k.c2);
    InvMixAdd(s.c3, k.c3);
  }

  lemma InvMixState(s: State)
    ensures InvMixColumns(MixColumns(s)) == s
  {
    hide InvMixWord, MixWord;
    InvMixMix(s.c0);
    InvMixMix(s.c1);
    InvMixMix(s.c2);
    InvMixMix(s.c3);
  }

  lemma InvSubState(s: State)
    ensures InvSubBytes(SubBytes(s)) == s
  {
    hide InvSubWord, SubWord;
    InvSubSub(s.c0);
    InvSubSub(s.c1);
    InvSubSub(s.c2);
    InvSubSub(s.c3);
  }

  lemma SubDiagonal(a: bv32, b: bv32, c: bv32, d: bv32)
    ensures InvSubWord(Diagonal(a, b, c, d)) == Diagonal(InvSubWord(a), InvSubWord(b), InvSubWord(c), InvSubWord(d))
  {
    hide Pack, B0, B1, B2, B3, Si;
    PackBytes(B0(a), B1(b), B2(c), B3(d));
    PackBytes(Si(B0(a)), Si(B1(a)), Si(B2(a)), Si(B3(a)));
    PackBytes(Si(B0(b)), Si(B1(b)), Si(B2(b)), Si(B3(b)));
    PackBytes(Si(B0(c)), Si(B1(c)), Si(B2(c)), Si(B3(c)));
    PackBytes(Si(B0(d)), Si(B1(d)), Si(B2(d)), Si(B3(d)));
  }

  // Substituting bytes and shifting rows can be done in either order.
  lemma InvShiftSub(s: State)
    ensures InvSubBytes(InvShiftRows(s)) == InvShiftRows(InvSubBytes(s))
  {
    hide InvSubWord, Diagonal;
    SubDiagonal(s.c0, s.c3, s.c2, s.c1);
    SubDiagonal(s.c1, s.c0, s.c3, s.c2);
    SubDiagonal(s.c2, s.c1, s.c0, s.c3);
    SubDiagonal(s.c3, s.c2, s.c1, s.c0);
  }

  // The start of an inverse round undoes the end of a round.
  lemma UndoShiftSub(s: State)
    ensures InvShiftRows(InvSubBytes(ShiftRows(SubBytes(s)))) == s
  {
    hide InvSubBytes, SubBytes, ShiftRows, InvShiftRows;
    InvShiftSub(ShiftRows(SubBytes(s)));
    InvShiftShift(SubBytes(s));
    InvSubState(s);
  }

  // After r rounds of decryption the state is where encryption was r rounds before its end.
  lemma {:induction false} EqRoundsUndo(s: State, rk: seq<State>, r: nat)
    requires |rk| >= 2 && r <= |rk| - 2
    ensures EqRounds(Encipher(s, rk), DecryptKeys(rk), r) == ShiftRows(SubBytes(Rounds(s, rk, |rk| - 2 - r)))
  {
    hide AddRoundKey, MixColumns, ShiftRows, SubBytes, InvMixColumns, InvShiftRows, InvSubBytes;
    var dk, y := DecryptKeys(rk), Encipher(s, rk);
    if r == 0 {
      AddTwice(ShiftRows(SubBytes(Rounds(s, rk, |rk| - 2))), rk[|rk| - 1]);
    } else {
      EqRoundsUndo(s, rk, r - 1);
      var e := Rounds(s, rk, |rk| - 1 - r);
      var inner := ShiftRows(SubBytes(Rounds(s, rk, |rk| - 2 - r)));
      var k := rk[|rk| - 1 - r];
      UndoShiftSub(e);
      assert e == AddRoundKey(MixColumns(inner), k);
      InvMixKey(MixColumns(inner), k);
      InvMixState(inner);
      AddTwice(inner, InvMixColumns(k));
    }
  }

  // For every block and every list of round keys, decryption undoes encryption.
  lemma DecipherEncipher(s: State, rk: seq<State>)
    requires |rk| >= 2
    ensures EqDecipher(Encipher(s, rk), DecryptKeys(rk)) == s
  {
    hide AddRoundKey, MixColumns, ShiftRows, SubBytes, InvMixColumns, InvShiftRows, InvSubBytes, EqRounds, Encipher;
    EqRoundsUndo(s, rk, |rk| - 2);
    UndoShiftSub(Rounds(s, rk, 0));
    AddTwice(s, rk[0]);
  }

  lemma {:induction false} EqRoundsInv(s: State, rk: seq<State>, r: nat)
    requires |rk| >= 2 && r <= |rk| - 2
    ensures EqRounds(s, DecryptKeys(rk), r) == InvRounds(s, rk, r)
  {
    hide AddRoundKey, InvMixColumns, InvShiftRows, InvSubBytes;
    if r > 0 {
      EqRoundsInv(s, rk, r - 1);
      var t := InvRounds(s, rk, r - 1);
      InvShiftSub(t);
      InvMixKey(InvSubBytes(InvShiftRows(t)), rk[|rk| - 1 - r]);
    }
  }

  // The equivalent inverse cipher is the inverse cipher.
  lemma EqDecipherIs(s: State, rk: seq<State>)
    requires |rk| >= 2
    ensures EqDecipher(s, DecryptKeys(rk)) == Decipher(s, rk)
  {
    hide AddRoundKey, InvMixColumns, InvShiftRows, InvSubBytes, EqRounds, InvRounds;
    EqRoundsInv(s, rk, |rk| - 2);
    InvShiftSub(InvRounds(s, rk, |rk| - 2));
  }

  // ----- key expansion (section 5.2) -----

  // A key of 4, 6 or 8 words.
  predicate KeySize(n: nat) { n == 16 || n == 24 || n == 32 }

  // Rcon
  function Rcon(j: nat): bv8
    requires j > 0
  {
    if j == 1 then 1 else X2(Rcon(j - 1))
  }

  function KeyWord(key: seq<bv8>, i: nat): bv32
    requires KeySize(|key|)
  {
    var nk := |key| / 4;
    if i < nk then Pack(key[4 * i], key[4 * i + 1], key[4 * i + 2], key[4 * i + 3])
    else
      var temp := KeyWord(key, i - 1);
      Xor(KeyWord(key, i - nk),
          if i % nk == 0 then Xor(SubWord(RotWord(temp)), Pack(Rcon(i / nk), 0, 0, 0))
          else if nk > 6 && i % nk == 4 then SubWord(temp)
          else temp)
  }

  function RoundCount(n: nat): nat { n / 4 + 6 }

  function KeyState(key: seq<bv8>, r: nat): State
    requires KeySize(|key|)
  {
    State(KeyWord(key, 4 * r), KeyWord(key, 4 * r + 1), KeyWord(key, 4 * r + 2), KeyWord(key, 4 * r + 3))
  }

  function RoundKeys(key: seq<bv8>): (rk: seq<State>)
    requires KeySize(|key|)
    ensures |rk| == RoundCount(|key|) + 1 && forall r: nat :: r < |rk| ==> rk[r] == KeyState(key, r)
  {
    seq(RoundCount(|key|) + 1, r requires 0 <= r => KeyState(key, r))
  }
}

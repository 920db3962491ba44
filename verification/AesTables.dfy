// The lookup tables of aes.c and the rounds built on them, proved equal to the rounds of FIPS 197.

module AesTables {
  import opened Rijndael

  // ----- the tables, as the comment above them defines them -----

  function Te0(x: bv8): bv32 { Pack(X2(S(x)), S(x), S(x), X3(S(x))) }
  function Te1(x: bv8): bv32 { Pack(X3(S(x)), X2(S(x)), S(x), S(x)) }
  function Te2(x: bv8): bv32 { Pack(S(x), X3(S(x)), X2(S(x)), S(x)) }
  function Te3(x: bv8): bv32 { Pack(S(x), S(x), X3(S(x)), X2(S(x))) }
  function Te4(x: bv8): bv32 { Pack(S(x), S(x), S(x), S(x)) }

  function Td0(x: bv8): bv32 { Pack(Xe(Si(x)), X9(Si(x)), Xd(Si(x)), Xb(Si(x))) }
  function Td1(x: bv8): bv32 { Pack(Xb(Si(x)), Xe(Si(x)), X9(Si(x)), Xd(Si(x))) }
  function Td2(x: bv8): bv32 { Pack(Xd(Si(x)), Xb(Si(x)), Xe(Si(x)), X9(Si(x))) }
  function Td3(x: bv8): bv32 { Pack(X9(Si(x)), Xd(Si(x)), Xb(Si(x)), Xe(Si(x))) }
  function Td4(x: bv8): bv32 { Pack(Si(x), Si(x), Si(x), Si(x)) }

  // ----- one column of a round -----

  function Xor4(a: bv32, b: bv32, c: bv32, d: bv32): bv32 { Xor(Xor(Xor(a, b), c), d) }

  function TeColumn(a: bv32, b: bv32, c: bv32, d: bv32, k: bv32): bv32
  {
    Xor(Xor4(Te0(B0(a)), Te1(B1(b)), Te2(B2(c)), Te3(B3(d))), k)
  }

  function TdColumn(a: bv32, b: bv32, c: bv32, d: bv32, k: bv32): bv32
  {
    Xor(Xor4(Td0(B0(a)), Td1(B1(b)), Td2(B2(c)), Td3(B3(d))), k)
  }

  // Four table bytes masked into place.
  function Quad(a: bv32, b: bv32, c: bv32, d: bv32): bv32
  {
    Xor4(a & 0xff000000, b & 0x00ff0000, c & 0x0000ff00, d & 0x000000ff)
  }

  lemma Xor4Pack(a0: bv8, b0: bv8, c0: bv8, d0: bv8, a1: bv8, b1: bv8, c1: bv8, d1: bv8,
                 a2: bv8, b2: bv8, c2: bv8, d2: bv8, a3: bv8, b3: bv8, c3: bv8, d3: bv8)
    ensures Xor4(Pack(a0, b0, c0, d0), Pack(a1, b1, c1, d1), Pack(a2, b2, c2, d2), Pack(a3, b3, c3, d3))
         == Pack(Sum4(a0, a1, a2, a3), Sum4(b0, b1, b2, b3), Sum4(c0, c1, c2, c3), Sum4(d0, d1, d2, d3))
  {
    hide Xor, Pack, Sum4, Add;
    PackAdd(a0, b0, c0, d0, a1, b1, c1, d1);
    PackAdd(Add(a0, a1), Add(b0, b1), Add(c0, c1), Add(d0, d1), a2, b2, c2, d2);
    PackAdd(Add(Add(a0, a1), a2), Add(Add(b0, b1), b2), Add(Add(c0, c1), c2), Add(Add(d0, d1), d2), a3, b3, c3, d3);
    Sum4Chain(a0, a1, a2, a3);
    Sum4Chain(b0, b1, b2, b3);
    Sum4Chain(c0, c1, c2, c3);
    Sum4Chain(d0, d1, d2, d3);
  }

  lemma Sum4Chain(a: bv8, b: bv8, c: bv8, d: bv8)
    ensures Add(Add(Add(a, b), c), d) == Sum4(a, b, c, d)
  {
    hide Add, Sum4;
    AddAssoc(Add(a, b), c, d);
    SumAdd(a, b, c, d);
  }

  lemma Sum4Rotate(a: bv8, b: bv8, c: bv8, d: bv8)
    ensures Sum4(b, c, d, a) == Sum4(a, b, c, d) && Sum4(c, d, a, b) == Sum4(a, b, c, d)
    ensures Sum4(d, a, b, c) == Sum4(a, b, c, d)
  {
    hide Add, Sum4;
    Sum4Split(a, b, c, d);
    Sum4Split(b, c, d, a);
    Sum4Split(c, d, a, b);
  }

  // A column looked up in Te0 .. Te3 is SubBytes, ShiftRows and MixColumns.
  lemma TeMix(a: bv8, b: bv8, c: bv8, d: bv8)
    ensures Xor4(Te0(a), Te1(b), Te2(c), Te3(d)) == MixWord(Pack(S(a), S(b), S(c), S(d)))
  {
    hide Xor4, Pack, Sum4, S, X2, X3, B0, B1, B2, B3;
    var p, q, r, s := S(a), S(b), S(c), S(d);
    Xor4Pack(X2(p), p, p, X3(p), X3(q), X2(q), q, q, r, X3(r), X2(r), r, s, s, X3(s), X2(s));
    PackBytes(p, q, r, s);
    Sum4Rotate(p, X2(q), X3(r), s);
    Sum4Rotate(p, q, X2(r), X3(s));
    Sum4Rotate(X3(p), q, r, X2(s));
  }

  // A column looked up in Td0 .. Td3 is InvSubBytes, InvShiftRows and InvMixColumns.
  lemma TdMix(a: bv8, b: bv8, c: bv8, d: bv8)
    ensures Xor4(Td0(a), Td1(b), Td2(c), Td3(d)) == InvMixWord(Pack(Si(a), Si(b), Si(c), Si(d)))
  {
    hide Xor4, Pack, Sum4, Si, X9, Xb, Xd, Xe, B0, B1, B2, B3;
    var p, q, r, s := Si(a), Si(b), Si(c), Si(d);
    Xor4Pack(Xe(p), X9(p), Xd(p), Xb(p), Xb(q), Xe(q), X9(q), Xd(q), Xd(r), Xb(r), Xe(r), X9(r), X9(s), Xd(s), Xb(s),
             Xe(s));
    PackBytes(p, q, r, s);
    Sum4Rotate(X9(p), Xe(q), Xb(r), Xd(s));
    Sum4Rotate(Xd(p), X9(q), Xe(r), Xb(s));
    Sum4Rotate(Xb(p), Xd(q), X9(r), Xe(s));
  }

  lemma Masks(x: bv8)
    ensures Pack(x, x, x, x) & 0xff000000 == Pack(x, 0, 0, 0) && Pack(x, x, x, x) & 0x00ff0000 == Pack(0, x, 0, 0)
    ensures Pack(x, x, x, x) & 0x0000ff00 == Pack(0, 0, x, 0) && Pack(x, x, x, x) & 0x000000ff == Pack(0, 0, 0, x)
  {
  }

  lemma SumZeros(x: bv8)
    ensures Sum4(x, 0, 0, 0) == x && Sum4(0, x, 0, 0) == x && Sum4(0, 0, x, 0) == x && Sum4(0, 0, 0, x) == x
  {
  }

  lemma QuadPack(a: bv8, b: bv8, c: bv8, d: bv8)
    ensures Quad(Pack(a, a, a, a), Pack(b, b, b, b), Pack(c, c, c, c), Pack(d, d, d, d)) == Pack(a, b, c, d)
  {
    hide Xor4, Pack, Sum4;
    Masks(a);
    Masks(b);
    Masks(c);
    Masks(d);
    Xor4Pack(a, 0, 0, 0, 0, b, 0, 0, 0, 0, c, 0, 0, 0, 0, d);
    SumZeros(a);
    SumZeros(b);
    SumZeros(c);
    SumZeros(d);
  }

  // ----- whole rounds -----

  lemma SubDiag(a: bv32, b: bv32, c: bv32, d: bv32)
    ensures Diagonal(SubWord(a), SubWord(b), SubWord(c), SubWord(d)) == Pack(S(B0(a)), S(B1(b)), S(B2(c)), S(B3(d)))
    ensures Diagonal(InvSubWord(a), InvSubWord(b), InvSubWord(c), InvSubWord(d)) ==
      Pack(Si(B0(a)), Si(B1(b)), Si(B2(c)), Si(B3(d)))
  {
    hide Pack, B0, B1, B2, B3, S, Si;
    PackBytes(S(B0(a)), S(B1(a)), S(B2(a)), S(B3(a)));
    PackBytes(S(B0(b)), S(B1(b)), S(B2(b)), S(B3(b)));
    PackBytes(S(B0(c)), S(B1(c)), S(B2(c)), S(B3(c)));
    PackBytes(S(B0(d)), S(B1(d)), S(B2(d)), S(B3(d)));
    PackBytes(Si(B0(a)), Si(B1(a)), Si(B2(a)), Si(B3(a)));
    PackBytes(Si(B0(b)), Si(B1(b)), Si(B2(b)), Si(B3(b)));
    PackBytes(Si(B0(c)), Si(B1(c)), Si(B2(c)), Si(B3(c)));
    PackBytes(Si(B0(d)), Si(B1(d)), Si(B2(d)), Si(B3(d)));
  }

  lemma TeColumnIs(a: bv32, b: bv32, c: bv32, d: bv32, k: bv32)
    ensures TeColumn(a, b, c, d, k) == Xor(MixWord(Diagonal(SubWord(a), SubWord(b), SubWord(c), SubWord(d))), k)
  {
    hide Xor, Xor4, MixWord, Diagonal, SubWord, Te0, Te1, Te2, Te3, Pack, S, B0, B1, B2, B3;
    TeMix(B0(a), B1(b), B2(c), B3(d));
    SubDiag(a, b, c, d);
  }

  lemma TdColumnIs(a: bv32, b: bv32, c: bv32, d: bv32, k: bv32)
    ensures TdColumn(a, b, c, d, k) ==
      Xor(InvMixWord(Diagonal(InvSubWord(a), InvSubWord(b), InvSubWord(c), InvSubWord(d))), k)
  {
    hide Xor, Xor4, InvMixWord, Diagonal, InvSubWord, Td0, Td1, Td2, Td3, Pack, Si, B0, B1, B2, B3;
    TdMix(B0(a), B1(b), B2(c), B3(d));
    SubDiag(a, b, c, d);
  }

  // One round by table lookup.
  function TeRound(s: State, k: State): State
  {
    State(TeColumn(s.c0, s.c1, s.c2, s.c3, k.c0), TeColumn(s.c1, s.c2, s.c3, s.c0, k.c1),
          TeColumn(s.c2, s.c3, s.c0, s.c1, k.c2), TeColumn(s.c3, s.c0, s.c1, s.c2, k.c3))
  }

  function TdRound(s: State, k: State): State
  {
    State(TdColumn(s.c0, s.c3, s.c2, s.c1, k.c0), TdColumn(s.c1, s.c0, s.c3, s.c2, k.c1),
          TdColumn(s.c2, s.c1, s.c0, s.c3, k.c2), TdColumn(s.c3, s.c2, s.c1, s.c0, k.c3))
  }

  lemma TeRoundIs(s: State, k: State)
    ensures TeRound(s, k) == AddRoundKey(MixColumns(ShiftRows(SubBytes(s))), k)
  {
    hide Xor, TeColumn, MixWord, Diagonal, SubWord;
    TeColumnIs(s.c0, s.c1, s.c2, s.c3, k.c0);
    TeColumnIs(s.c1, s.c2, s.c3, s.c0, k.c1);
    TeColumnIs(s.c2, s.c3, s.c0, s.c1, k.c2);
    TeColumnIs(s.c3, s.c0, s.c1, s.c2, k.c3);
  }

  lemma TdRoundIs(s: State, k: State)
    ensures TdRound(s, k) == AddRoundKey(InvMixColumns(InvShiftRows(InvSubBytes(s))), k)
  {
    hide Xor, TdColumn, InvMixWord, Diagonal, InvSubWord;
    TdColumnIs(s.c0, s.c3, s.c2, s.c1, k.c0);
    TdColumnIs(s.c1, s.c0, s.c3, s.c2, k.c1);
    TdColumnIs(s.c2, s.c1, s.c0, s.c3, k.c2);
    TdColumnIs(s.c3, s.c2, s.c1, s.c0, k.c3);
  }

  // The last round, without MixColumns.
  function TeLast(a: bv32, b: bv32, c: bv32, d: bv32, k: bv32): bv32
  {
    Xor(Quad(Te4(B0(a)), Te4(B1(b)), Te4(B2(c)), Te4(B3(d))), k)
  }

  function TdLast(a: bv32, b: bv32, c: bv32, d: bv32, k: bv32): bv32
  {
    Xor(Quad(Td4(B0(a)), Td4(B1(b)), Td4(B2(c)), Td4(B3(d))), k)
  }

  lemma TeLastIs(a: bv32, b: bv32, c: bv32, d: bv32, k: bv32)
    ensures TeLast(a, b, c, d, k) == Xor(Diagonal(SubWord(a), SubWord(b), SubWord(c), SubWord(d)), k)
  {
    hide Xor, Quad, Pack, S, B0, B1, B2, B3, Diagonal, SubWord;
    QuadPack(S(B0(a)), S(B1(b)), S(B2(c)), S(B3(d)));
    SubDiag(a, b, c, d);
  }

  lemma TdLastIs(a: bv32, b: bv32, c: bv32, d: bv32, k: bv32)
    ensures TdLast(a, b, c, d, k) == Xor(Diagonal(InvSubWord(a), InvSubWord(b), InvSubWord(c), InvSubWord(d)), k)
  {
    hide Xor, Quad, Pack, Si, B0, B1, B2, B3, Diagonal, InvSubWord;
    QuadPack(Si(B0(a)), Si(B1(b)), Si(B2(c)), Si(B3(d)));
    SubDiag(a, b, c, d);
  }

  function TeFinal(s: State, k: State): State
  {
    State(TeLast(s.c0, s.c1, s.c2, s.c3, k.c0), TeLast(s.c1, s.c2, s.c3, s.c0, k.c1),
          TeLast(s.c2, s.c3, s.c0, s.c1, k.c2), TeLast(s.c3, s.c0, s.c1, s.c2, k.c3))
  }

  function TdFinal(s: State, k: State): State
  {
    State(TdLast(s.c0, s.c3, s.c2, s.c1, k.c0), TdLast(s.c1, s.c0, s.c3, s.c2, k.c1),
          TdLast(s.c2, s.c1, s.c0, s.c3, k.c2), TdLast(s.c3, s.c2, s.c1, s.c0, k.c3))
  }

  lemma TeFinalIs(s: State, k: State)
    ensures TeFinal(s, k) == AddRoundKey(ShiftRows(SubBytes(s)), k)
  {
    hide Xor, TeLast, Diagonal, SubWord;
    TeLastIs(s.c0, s.c1, s.c2, s.c3, k.c0);
    TeLastIs(s.c1, s.c2, s.c3, s.c0, k.c1);
    TeLastIs(s.c2, s.c3, s.c0, s.c1, k.c2);
    TeLastIs(s.c3, s.c0, s.c1, s.c2, k.c3);
  }

  lemma TdFinalIs(s: State, k: State)
    ensures TdFinal(s, k) == AddRoundKey(InvShiftRows(InvSubBytes(s)), k)
  {
    hide Xor, TdLast, Diagonal, InvSubWord;
    TdLastIs(s.c0, s.c3, s.c2, s.c1, k.c0);
    TdLastIs(s.c1, s.c0, s.c3, s.c2, k.c1);
    TdLastIs(s.c2, s.c1, s.c0, s.c3, k.c2);
    TdLastIs(s.c3, s.c2, s.c1, s.c0, k.c3);
  }
}

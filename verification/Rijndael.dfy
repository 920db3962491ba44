// AES as FIPS 197 defines it: bytes, words, the cipher and its inverses.

module Rijndael {
  // ----- bytes (section 4) -----

  // Addition in GF(2^8).
  function Add(a: bv8, b: bv8): bv8 { a ^ b }

  function Sum3(a: bv8, b: bv8, c: bv8): bv8 { a ^ b ^ c }

  function Sum4(a: bv8, b: bv8, c: bv8, d: bv8): bv8 { a ^ b ^ c ^ d }

  lemma SumAdd(a: bv8, b: bv8, c: bv8, d: bv8)
    ensures Sum3(a, b, c) == Add(Add(a, b), c) && Sum4(a, b, c, d) == Add(Add(a, b), Add(c, d))
  {
  }

  lemma AddComm(a: bv8, b: bv8)
    ensures Add(a, b) == Add(b, a)
  {
  }

  lemma AddAssoc(a: bv8, b: bv8, c: bv8)
    ensures Add(Add(a, b), c) == Add(a, Add(b, c))
  {
  }

  // xtime, and multiplication by the other constants the cipher uses
  function X2(b: bv8): bv8 { (b << 1) ^ ((b >> 7) * 0x1b) }
  function X3(b: bv8): bv8 { Add(X2(b), b) }
  function X4(b: bv8): bv8 { X2(X2(b)) }
  function X8(b: bv8): bv8 { X2(X4(b)) }
  function X9(b: bv8): bv8 { Add(X8(b), b) }
  function Xb(b: bv8): bv8 { Sum3(X8(b), X2(b), b) }
  function Xd(b: bv8): bv8 { Sum3(X8(b), X4(b), b) }
  function Xe(b: bv8): bv8 { Sum3(X8(b), X4(b), X2(b)) }

  lemma XtimeAdd(a: bv8, b: bv8)
    ensures X2(Add(a, b)) == Add(X2(a), X2(b))
  {
  }

  lemma AddPairs(a: bv8, b: bv8, c: bv8, d: bv8)
    ensures Add(Add(a, c), Add(b, d)) == Add(Add(a, b), Add(c, d))
  {
    hide Add;
    AddAssoc(a, c, Add(b, d));
    AddAssoc(c, b, d);
    AddComm(c, b);
    AddAssoc(b, c, d);
    AddAssoc(a, b, Add(c, d));
  }

  lemma Sum3Add(a: bv8, b: bv8, c: bv8, d: bv8, e: bv8, f: bv8)
    ensures Sum3(Add(a, d), Add(b, e), Add(c, f)) == Add(Sum3(a, b, c), Sum3(d, e, f))
  {
    hide Add, Sum3;
    AddPairs(a, b, d, e);
    AddPairs(Add(a, b), c, Add(d, e), f);
    SumAdd(a, b, c, 0);
    SumAdd(d, e, f, 0);
    SumAdd(Add(a, d), Add(b, e), Add(c, f), 0);
  }

  lemma Sum4Add(a: bv8, b: bv8, c: bv8, d: bv8, e: bv8, f: bv8, g: bv8, h: bv8)
    ensures Sum4(Add(a, e), Add(b, f), Add(c, g), Add(d, h)) == Add(Sum4(a, b, c, d), Sum4(e, f, g, h))
  {
    hide Add, Sum4;
    SumAdd(a, b, c, d);
    SumAdd(e, f, g, h);
    SumAdd(Add(a, e), Add(b, f), Add(c, g), Add(d, h));
    AddPairs(a, b, e, f);
    AddPairs(c, d, g, h);
    AddPairs(Add(a, b), Add(c, d), Add(e, f), Add(g, h));
  }

  lemma Sum4Split(a: bv8, b: bv8, c: bv8, d: bv8)
    ensures Sum4(a, b, c, d) == Add(Add(a, b), Add(c, d)) && Sum4(b, c, d, a) == Sum4(a, b, c, d)
  {
    hide Add, Sum4;
    SumAdd(a, b, c, d);
    SumAdd(b, c, d, a);
    AddPairs(b, d, c, a);
    AddComm(Add(b, d), Add(c, a));
    AddComm(c, a);
    AddPairs(a, b, c, d);
  }

  // Multiplication by a constant is linear.
  lemma Linear(a: bv8, b: bv8)
    ensures X3(Add(a, b)) == Add(X3(a), X3(b)) && X9(Add(a, b)) == Add(X9(a), X9(b))
    ensures Xb(Add(a, b)) == Add(Xb(a), Xb(b))
    ensures Xd(Add(a, b)) == Add(Xd(a), Xd(b)) && Xe(Add(a, b)) == Add(Xe(a), Xe(b))
  {
    hide X2, Add, Sum3;
    XtimeAdd(a, b);
    XtimeAdd(X2(a), X2(b));
    XtimeAdd(X4(a), X4(b));
    AddPairs(X2(a), a, X2(b), b);
    AddPairs(X8(a), a, X8(b), b);
    Sum3Add(X8(a), X2(a), a, X8(b), X2(b), b);
    Sum3Add(X8(a), X4(a), a, X8(b), X4(b), b);
    Sum3Add(X8(a), X4(a), X2(a), X8(b), X4(b), X2(b));
  }

  lemma LinearSum(a: bv8, b: bv8, c: bv8, d: bv8)
    ensures X9(Sum4(a, b, c, d)) == Sum4(X9(a), X9(b), X9(c), X9(d))
    ensures Xb(Sum4(a, b, c, d)) == Sum4(Xb(a), Xb(b), Xb(c), Xb(d))
    ensures Xd(Sum4(a, b, c, d)) == Sum4(Xd(a), Xd(b), Xd(c), Xd(d))
    ensures Xe(Sum4(a, b, c, d)) == Sum4(Xe(a), Xe(b), Xe(c), Xe(d))
  {
    hide Add, Sum4, X3, X9, Xb, Xd, Xe;
    Linear(a, b);
    Linear(c, d);
    Linear(Add(a, b), Add(c, d));
    Sum4Split(a, b, c, d);
    Sum4Split(X9(a), X9(b), X9(c), X9(d));
    Sum4Split(Xb(a), Xb(b), Xb(c), Xb(d));
    Sum4Split(Xd(a), Xd(b), Xd(c), Xd(d));
    Sum4Split(Xe(a), Xe(b), Xe(c), Xe(d));
  }

  // ----- MixColumns and its inverse (sections 5.1.3 and 5.3.3), one byte at a time -----

  function MixByte(a: bv8, b: bv8, c: bv8, d: bv8): bv8 { Sum4(X2(a), X3(b), c, d) }

  function InvMixByte(a: bv8, b: bv8, c: bv8, d: bv8): bv8 { Sum4(Xe(a), Xb(b), Xd(c), X9(d)) }

  lemma InvMixByteAdd(a: bv8, b: bv8, c: bv8, d: bv8, e: bv8, f: bv8, g: bv8, h: bv8)
    ensures InvMixByte(Add(a, e), Add(b, f), Add(c, g), Add(d, h)) ==
      Add(InvMixByte(a, b, c, d), InvMixByte(e, f, g, h))
  {
    hide Add, Sum4, X3, X9, Xb, Xd, Xe;
    Linear(a, e);
    Linear(b, f);
    Linear(c, g);
    Linear(d, h);
    Sum4Add(Xe(a), Xb(b), Xd(c), X9(d), Xe(e), Xb(f), Xd(g), X9(h));
  }

  // The product of the two matrices, one column at a time.
  lemma UnitA(a: bv8)
    ensures Sum4(Xe(X2(a)), Xb(a), Xd(a), X9(X3(a))) == a
  {
  }

  lemma UnitB(a: bv8)
    ensures Sum4(Xe(X3(a)), Xb(X2(a)), Xd(a), X9(a)) == 0
  {
    hide X2, Sum3, Sum4, Add;
    Linear(X2(a), a);
    CancelB(a, X2(a), X4(a), X8(a), X2(X8(a)));
  }

  lemma CancelB(p0: bv8, p1: bv8, p2: bv8, p3: bv8, p4: bv8)
    ensures Sum4(Add(Sum3(p4, p3, p2), Sum3(p3, p2, p1)), Sum3(p4, p2, p1), Sum3(p3, p2, p0), Add(p3, p0)) == 0
  {
  }

  lemma UnitC(a: bv8)
    ensures Sum4(Xe(a), Xb(X3(a)), Xd(X2(a)), X9(a)) == 0
  {
    hide X2, Sum3, Sum4, Add;
    Linear(X2(a), a);
    CancelC(a, X2(a), X4(a), X8(a), X2(X8(a)));
  }

  lemma CancelC(p0: bv8, p1: bv8, p2: bv8, p3: bv8, p4: bv8)
    ensures Sum4(Sum3(p3, p2, p1), Add(Sum3(p4, p2, p1), Sum3(p3, p1, p0)), Sum3(p4, p3, p1), Add(p3, p0)) == 0
  {
  }

  lemma UnitD(a: bv8)
    ensures Sum4(Xe(a), Xb(a), Xd(X3(a)), X9(X2(a))) == 0
  {
    hide X2, Sum3, Sum4, Add;
    Linear(X2(a), a);
    CancelD(a, X2(a), X4(a), X8(a), X2(X8(a)));
  }

  lemma CancelD(p0: bv8, p1: bv8, p2: bv8, p3: bv8, p4: bv8)
    ensures Sum4(Sum3(p3, p2, p1), Sum3(p3, p1, p0), Add(Sum3(p4, p3, p1), Sum3(p3, p2, p0)), Add(p4, p1)) == 0
  {
  }

  // A sum of four columns of four is the sum of the four rows.
  lemma Transpose(a0: bv8, a1: bv8, a2: bv8, a3: bv8, b0: bv8, b1: bv8, b2: bv8, b3: bv8,
                  c0: bv8, c1: bv8, c2: bv8, c3: bv8, d0: bv8, d1: bv8, d2: bv8, d3: bv8)
    ensures Sum4(Sum4(a0, b0, c0, d0), Sum4(a1, b1, c1, d1), Sum4(a2, b2, c2, d2), Sum4(a3, b3, c3, d3))
         == Sum4(Sum4(a0, a1, a2, a3), Sum4(b0, b1, b2, b3), Sum4(c0, c1, c2, c3), Sum4(d0, d1, d2, d3))
  {
    hide Sum4, Add;
    Sum4Split(a0, b0, c0, d0);
    Sum4Split(a1, b1, c1, d1);
    Sum4Split(a2, b2, c2, d2);
    Sum4Split(a3, b3, c3, d3);
    Sum4Add(Add(a0, b0), Add(a1, b1), Add(a2, b2), Add(a3, b3), Add(c0, d0), Add(c1, d1), Add(c2, d2), Add(c3, d3));
    Sum4Add(a0, a1, a2, a3, b0, b1, b2, b3);
    Sum4Add(c0, c1, c2, c3, d0, d1, d2, d3);
    Sum4Split(Sum4(a0, a1, a2, a3), Sum4(b0, b1, b2, b3), Sum4(c0, c1, c2, c3), Sum4(d0, d1, d2, d3));
  }

  lemma Sum4Zero(a: bv8)
    ensures Sum4(a, 0, 0, 0) == a
  {
  }

  lemma InvMixMixByte(a: bv8, b: bv8, c: bv8, d: bv8)
    ensures InvMixByte(MixByte(a, b, c, d), MixByte(b, c, d, a), MixByte(c, d, a, b), MixByte(d, a, b, c)) == a
  {
    hide X2, X3, X9, Xb, Xd, Xe, Sum4;
    LinearSum(X2(a), X3(b), c, d);
    LinearSum(X2(b), X3(c), d, a);
    LinearSum(X2(c), X3(d), a, b);
    LinearSum(X2(d), X3(a), b, c);
    Sum4Split(Xb(a), Xb(X2(b)), Xb(X3(c)), Xb(d));
    Sum4Split(Xd(b), Xd(X2(c)), Xd(X3(d)), Xd(a));
    Sum4Split(Xd(a), Xd(b), Xd(X2(c)), Xd(X3(d)));
    Sum4Split(X9(X3(a)), X9(b), X9(c), X9(X2(d)));
    Sum4Split(X9(X2(d)), X9(X3(a)), X9(b), X9(c));
    Transpose(Xe(X2(a)), Xb(a), Xd(a), X9(X3(a)), Xe(X3(b)), Xb(X2(b)), Xd(b), X9(b),
              Xe(c), Xb(X3(c)), Xd(X2(c)), X9(c), Xe(d), Xb(d), Xd(X3(d)), X9(X2(d)));
    UnitA(a);
    UnitB(b);
    UnitC(c);
    UnitD(d);
    Sum4Zero(a);
  }

  // ----- words -----

  // Addition of words.
  function Xor(v: bv32, w: bv32): bv32 { v ^ w }

  lemma XorTwice(v: bv32, w: bv32)
    ensures Xor(Xor(v, w), w) == v
  {
  }

  function Pack(a: bv8, b: bv8, c: bv8, d: bv8): bv32
  {
    ((a as bv32) << 24) ^ ((b as bv32) << 16) ^ ((c as bv32) << 8) ^ (d as bv32)
  }

  function B0(w: bv32): bv8 { (w >> 24) as bv8 }
  function B1(w: bv32): bv8 { ((w >> 16) & 0xff) as bv8 }
  function B2(w: bv32): bv8 { ((w >> 8) & 0xff) as bv8 }
  function B3(w: bv32): bv8 { (w & 0xff) as bv8 }

  lemma PackBytes(a: bv8, b: bv8, c: bv8, d: bv8)
    ensures B0(Pack(a, b, c, d)) == a && B1(Pack(a, b, c, d)) == b && B2(Pack(a, b, c, d)) == c
    ensures B3(Pack(a, b, c, d)) == d
  {
  }

  lemma BytesPack(w: bv32)
    ensures Pack(B0(w), B1(w), B2(w), B3(w)) == w
  {
  }

  lemma PackAdd(a: bv8, b: bv8, c: bv8, d: bv8, e: bv8, f: bv8, g: bv8, h: bv8)
    ensures Xor(Pack(a, b, c, d), Pack(e, f, g, h)) == Pack(Add(a, e), Add(b, f), Add(c, g), Add(d, h))
  {
  }

  lemma BytesXor(v: bv32, w: bv32)
    ensures B0(v ^ w) == B0(v) ^ B0(w) && B1(v ^ w) == B1(v) ^ B1(w)
    ensures B2(v ^ w) == B2(v) ^ B2(w) && B3(v ^ w) == B3(v) ^ B3(w)
  {
  }

  lemma BytesAdd(v: bv32, w: bv32)
    ensures B0(Xor(v, w)) == Add(B0(v), B0(w)) && B1(Xor(v, w)) == Add(B1(v), B1(w))
    ensures B2(Xor(v, w)) == Add(B2(v), B2(w)) && B3(Xor(v, w)) == Add(B3(v), B3(w))
  {
    hide B0, B1, B2, B3;
    BytesXor(v, w);
  }

  function MixWord(w: bv32): bv32
  {
    var a, b, c, d := B0(w), B1(w), B2(w), B3(w);
    Pack(MixByte(a, b, c, d), MixByte(b, c, d, a), MixByte(c, d, a, b), MixByte(d, a, b, c))
  }

  function InvMixWord(w: bv32): bv32
  {
    var a, b, c, d := B0(w), B1(w), B2(w), B3(w);
    Pack(InvMixByte(a, b, c, d), InvMixByte(b, c, d, a), InvMixByte(c, d, a, b), InvMixByte(d, a, b, c))
  }

  lemma InvMixMix(w: bv32)
    ensures InvMixWord(MixWord(w)) == w
  {
    hide Pack, B0, B1, B2, B3, MixByte, InvMixByte;
    var a, b, c, d := B0(w), B1(w), B2(w), B3(w);
    PackBytes(MixByte(a, b, c, d), MixByte(b, c, d, a), MixByte(c, d, a, b), MixByte(d, a, b, c));
    InvMixMixByte(a, b, c, d);
    InvMixMixByte(b, c, d, a);
    InvMixMixByte(c, d, a, b);
    InvMixMixByte(d, a, b, c);
    BytesPack(w);
  }

  lemma InvMixAdd(v: bv32, w: bv32)
    ensures InvMixWord(Xor(v, w)) == Xor(InvMixWord(v), InvMixWord(w))
  {
    hide Xor, Pack, B0, B1, B2, B3, InvMixByte, Add;
    var a, b, c, d := B0(v), B1(v), B2(v), B3(v);
    var e, f, g, h := B0(w), B1(w), B2(w), B3(w);
    BytesAdd(v, w);
    InvMixByteAdd(a, b, c, d, e, f, g, h);
    InvMixByteAdd(b, c, d, a, f, g, h, e);
    InvMixByteAdd(c, d, a, b, g, h, e, f);
    InvMixByteAdd(d, a, b, c, h, e, f, g);
    PackAdd(InvMixByte(a, b, c, d), InvMixByte(b, c, d, a), InvMixByte(c, d, a, b), InvMixByte(d, a, b, c),
            InvMixByte(e, f, g, h), InvMixByte(f, g, h, e), InvMixByte(g, h, e, f), InvMixByte(h, e, f, g));
  }

  // ----- the S-box (section 5.1.1) and its inverse (section 5.3.2) -----

  // Row x >> 4 of the table, entry x & 15.
  function S(x: bv8): bv8
  {
    var row: bv128 :=
      if x & 0x80 == 0 then
        if x & 0x40 == 0 then
          if x & 0x20 == 0 then
            if x & 0x10 == 0 then 0x637c777bf26b6fc53001672bfed7ab76
            else 0xca82c97dfa5947f0add4a2af9ca472c0
          else
            if x & 0x10 == 0 then 0xb7fd9326363ff7cc34a5e5f171d83115
            else 0x04c723c31896059a071280e2eb27b275
        else
          if x & 0x20 == 0 then
            if x & 0x10 == 0 then 0x09832c1a1b6e5aa0523bd6b329e32f84
            else 0x53d100ed20fcb15b6acbbe394a4c58cf
          else
            if x & 0x10 == 0 then 0xd0efaafb434d338545f9027f503c9fa8
            else 0x51a3408f929d38f5bcb6da2110fff3d2
      else
        if x & 0x40 == 0 then
          if x & 0x20 == 0 then
            if x & 0x10 == 0 then 0xcd0c13ec5f974417c4a77e3d645d1973
            else 0x60814fdc222a908846eeb814de5e0bdb
          else
            if x & 0x10 == 0 then 0xe0323a0a4906245cc2d3ac629195e479
            else 0xe7c8376d8dd54ea96c56f4ea657aae08
        else
          if x & 0x20 == 0 then
            if x & 0x10 == 0 then 0xba78252e1ca6b4c6e8dd741f4bbd8b8a
            else 0x703eb5664803f60e613557b986c11d9e
          else
            if x & 0x10 == 0 then 0xe1f8981169d98e949b1e87e9ce5528df
            else 0x8ca1890dbfe6426841992d0fb054bb16;
    ((row >> (120 - ((x & 0x0f) << 3))) & 0xff) as bv8
  }

  function Si(x: bv8): bv8
  {
    var row: bv128 :=
      if x & 0x80 == 0 then
        if x & 0x40 == 0 then
          if x & 0x20 == 0 then
            if x & 0x10 == 0 then 0x52096ad53036a538bf40a39e81f3d7fb
            else 0x7ce339829b2fff87348e4344c4dee9cb
          else
            if x & 0x10 == 0 then 0x547b9432a6c2233dee4c950b42fac34e
            else 0x082ea16628d924b2765ba2496d8bd125
        else
          if x & 0x20 == 0 then
            if x & 0x10 == 0 then 0x72f8f66486689816d4a45ccc5d65b692
            else 0x6c704850fdedb9da5e154657a78d9d84
          else
            if x & 0x10 == 0 then 0x90d8ab008cbcd30af7e45805b8b34506
            else 0xd02c1e8fca3f0f02c1afbd0301138a6b
      else
        if x & 0x40 == 0 then
          if x & 0x20 == 0 then
            if x & 0x10 == 0 then 0x3a9111414f67dcea97f2cfcef0b4e673
            else 0x96ac7422e7ad3585e2f937e81c75df6e
          else
            if x & 0x10 == 0 then 0x47f11a711d29c5896fb7620eaa18be1b
            else 0xfc563e4bc6d279209adbc0fe78cd5af4
        else
          if x & 0x20 == 0 then
            if x & 0x10 == 0 then 0x1fdda8338807c731b11210592780ec5f
            else 0x60517fa919b54a0d2de57a9f93c99cef
          else
            if x & 0x10 == 0 then 0xa0e03b4dae2af5b0c8ebbb3c83539961
            else 0x172b047eba77d626e169146355210c7d;
    ((row >> (120 - ((x & 0x0f) << 3))) & 0xff) as bv8
  }

  lemma SiS(x: bv8)
    ensures Si(S(x)) == x
  {
  }

  // Multiplication in GF(2^8) (section 4.2), by adding up the shifted left factor.
  function Mul(a: bv8, b: bv8): bv8
  {
    var a1 := (a << 1) ^ ((a >> 7) * 0x1b);
    var a2 := (a1 << 1) ^ ((a1 >> 7) * 0x1b);
    var a3 := (a2 << 1) ^ ((a2 >> 7) * 0x1b);
    var a4 := (a3 << 1) ^ ((a3 >> 7) * 0x1b);
    var a5 := (a4 << 1) ^ ((a4 >> 7) * 0x1b);
    var a6 := (a5 << 1) ^ ((a5 >> 7) * 0x1b);
    var a7 := (a6 << 1) ^ ((a6 >> 7) * 0x1b);
    (if b & 0x01 != 0 then a else 0) ^ (if b & 0x02 != 0 then a1 else 0) ^ (if b & 0x04 != 0 then a2 else 0)
    ^ (if b & 0x08 != 0 then a3 else 0) ^ (if b & 0x10 != 0 then a4 else 0) ^ (if b & 0x20 != 0 then a5 else 0)
    ^ (if b & 0x40 != 0 then a6 else 0) ^ (if b & 0x80 != 0 then a7 else 0)
  }

  // The affine transformation of section 5.1.1 and its inverse.
  function Affine(b: bv8): bv8
  {
    b ^ ((b << 1) | (b >> 7)) ^ ((b << 2) | (b >> 6)) ^ ((b << 3) | (b >> 5)) ^ ((b << 4) | (b >> 4)) ^ 0x63
  }

  function InvAffine(b: bv8): bv8
  {
    ((b << 1) | (b >> 7)) ^ ((b << 3) | (b >> 5)) ^ ((b << 6) | (b >> 2)) ^ 0x05
  }

  lemma AffineInv(b: bv8)
    ensures Affine(InvAffine(b)) == b
  {
  }

  // The table is the S-box of the standard: the affine transformation of the multiplicative inverse, with 0 for 0.
  lemma SBox(x: bv8) returns (y: bv8)
    ensures S(x) == Affine(y) && (if x == 0 then y == 0 else Mul(x, y) == 1)
  {
    y := InvAffine(S(x));
    AffineInv(S(x));
    if x != 0 { SBoxInverse(x); }
  }

  lemma SBoxInverse(x: bv8)
    requires x != 0
    ensures Mul(x, InvAffine(S(x))) == 1
  {
  }

  function SubWord(w: bv32): bv32 { Pack(S(B0(w)), S(B1(w)), S(B2(w)), S(B3(w))) }

  function RotWord(w: bv32): bv32 { Pack(B1(w), B2(w), B3(w), B0(w)) }

  // ----- the state: four columns (section 3.4) -----

  datatype State = State(c0: bv32, c1: bv32, c2: bv32, c3: bv32)

  function SubBytes(s: State): State { State(SubWord(s.c0), SubWord(s.c1), SubWord(s.c2), SubWord(s.c3)) }

  function InvSubWord(w: bv32): bv32 { Pack(Si(B0(w)), Si(B1(w)), Si(B2(w)), Si(B3(w))) }

  function InvSubBytes(s: State): State { State(InvSubWord(s.c0), InvSubWord(s.c1), InvSubWord(s.c2),
                                                InvSubWord(s.c3)) }

  // One byte from each of four columns.
  function Diagonal(a: bv32, b: bv32, c: bv32, d: bv32): bv32 { Pack(B0(a), B1(b), B2(c), B3(d)) }

  function ShiftRows(s: State): State
  {
    State(Diagonal(s.c0, s.c1, s.c2, s.c3), Diagonal(s.c1, s.c2, s.c3, s.c0), Diagonal(s.c2, s.c3, s.c0, s.c1),
          Diagonal(s.c3, s.c0, s.c1, s.c2))
  }

  function InvShiftRows(s: State): State
  {
    State(Diagonal(s.c0, s.c3, s.c2, s.c1), Diagonal(s.c1, s.c0, s.c3, s.c2), Diagonal(s.c2, s.c1, s.c0, s.c3),
          Diagonal(s.c3, s.c2, s.c1, s.c0))
  }

  function MixColumns(s: State): State { State(MixWord(s.c0), MixWord(s.c1), MixWord(s.c2), MixWord(s.c3)) }

  function InvMixColumns(s: State): State { State(InvMixWord(s.c0), InvMixWord(s.c1), InvMixWord(s.c2),
                                                  InvMixWord(s.c3)) }

  function AddRoundKey(s: State,
                       k: State): State { State(Xor(s.c0, k.c0), Xor(s.c1, k.c1), Xor(s.c2, k.c2), Xor(s.c3, k.c3)) }

  lemma InvSubSub(w: bv32)
    ensures InvSubWord(SubWord(w)) == w
  {
    hide Pack, B0, B1, B2, B3, S, Si;
    PackBytes(S(B0(w)), S(B1(w)), S(B2(w)), S(B3(w)));
    SiS(B0(w));
    SiS(B1(w));
    SiS(B2(w));
    SiS(B3(w));
    BytesPack(w);
  }

  lemma InvShiftShift(s: State)
    ensures InvShiftRows(ShiftRows(s)) == s
  {
    hide Pack, B0, B1, B2, B3;
    PackBytes(B0(s.c0), B1(s.c1), B2(s.c2), B3(s.c3));
    PackBytes(B0(s.c1), B1(s.c2), B2(s.c3), B3(s.c0));
    PackBytes(B0(s.c2), B1(s.c3), B2(s.c0), B3(s.c1));
    PackBytes(B0(s.c3), B1(s.c0), B2(s.c1), B3(s.c2));
    BytesPack(s.c0);
    BytesPack(s.c1);
    BytesPack(s.c2);
    BytesPack(s.c3);
  }
}

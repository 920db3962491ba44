// encrypt_sectors, and the cipher it gives the disk image.

module SectorCrypt {
  import opened Basics
  import opened Layout
  import opened Rijndael
  import opened Cipher
  import opened Aes
  import opened Cbc
  import opened DiskCrypt

  function SectorOf(s: seq<bv8>, i: nat): (r: seq<bv8>)
    requires SECTOR * i + SECTOR <= |s|
    ensures |r| == SECTOR
  {
    s[SECTOR * i..SECTOR * i + SECTOR]
  }

  function Crypt(bc: BlockCipher, enc: bool, n: nat, x: seq<bv8>): (r: seq<bv8>)
    requires |x| == SECTOR
    ensures |r| == SECTOR
  {
    if enc then SealSector(bc, n, x) else OpenSector(bc, n, x)
  }

  // Each of nb sectors was encrypted (or decrypted) under its own number.
  ghost predicate Crypted(bc: BlockCipher, enc: bool, sn: nat, text: seq<bv8>, result: seq<bv8>, nb: nat)
  {
    |text| == SECTOR * nb == |result| && forall i: nat :: i < nb ==>
      SectorOf(result, i) == Crypt(bc, enc, sn + i, SectorOf(text, i))
  }

  // The schedule encrypt_sectors is given.
  function KeysFor(key: seq<bv8>, enc: bool): seq<State>
    requires KeySize(|key|)
  {
    if enc then RoundKeys(key) else DecryptKeys(RoundKeys(key))
  }

  // ivec for a sector
  method FillIv(sn: nat) returns (iv: array<bv8>)
    ensures fresh(iv) && iv.Length == 16 && iv[..] == SectorIv(sn)
  {
    var s := SectorIv(sn);
    iv := new bv8[16];
    var i := 0;
    while i < 16
      invariant 0 <= i <= 16 && forall j: nat :: j < i ==> iv[j] == s[j]
    {
      iv[i] := s[i];
      i := i + 1;
    }
    assert iv[..] == s;
  }

  // One sector of encrypt_sectors
  method CryptSector(sn: nat, out: array<bv8>, q: nat, inp: array<bv8>, p: nat, enc: bool, k: AesKey,
                     ghost key: seq<bv8>)
    requires KeySize(|key|) && k.Holds(KeysFor(key, enc)) && (inp != out || p == q)
    requires p + SECTOR <= inp.Length && q + SECTOR <= out.Length
    modifies out
    ensures out[q..q + SECTOR] == Crypt(AesCipher(key), enc, sn, old(inp[p..p + SECTOR]))
    ensures forall i: nat :: i < out.Length && !(q <= i < q + SECTOR) ==> out[i] == old(out[i])
  {
    hide RoundKeys, DecryptKeys, CbcEnc, CbcDec, SectorIv, AesCipher;
    var iv := FillIv(sn);
    if enc { CbcEncrypt(inp, p, out, q, SECTOR, k, iv, key); } else { CbcDecrypt(inp, p, out, q, SECTOR, k, iv, key); }
  }

  lemma SliceSector(s: seq<bv8>, p: nat, n: nat, j: nat)
    requires p + n <= |s| && SECTOR * j + SECTOR <= n
    ensures SectorOf(s[p..p + n], j) == s[p + SECTOR * j..p + SECTOR * j + SECTOR]
  {
    var a, b := SectorOf(s[p..p + n], j), s[p + SECTOR * j..p + SECTOR * j + SECTOR];
    forall k: nat | k < SECTOR ensures a[k] == b[k] { assert s[p..p + n][SECTOR * j + k] == s[p + (SECTOR * j + k)]; }
  }

  // One more sector done.
  lemma CryptedStep(bc: BlockCipher, enc: bool, sn: nat, inp: seq<bv8>, was: seq<bv8>, now: seq<bv8>, p: nat, q: nat,
                    i: nat)
    requires p + SECTOR * i + SECTOR <= |inp| && |was| == |now| && q + SECTOR * i + SECTOR <= |now|
    requires Crypted(bc, enc, sn, inp[p..p + SECTOR * i], was[q..q + SECTOR * i], i)
    requires forall j: nat :: j < |now| && !(q + SECTOR * i <= j < q + SECTOR * i + SECTOR) ==> now[j] == was[j]
    requires now[q + SECTOR * i..q + SECTOR * i + SECTOR] ==
      Crypt(bc, enc, sn + i, inp[p + SECTOR * i..p + SECTOR * i + SECTOR])
    ensures Crypted(bc, enc, sn, inp[p..p + SECTOR * (i + 1)], now[q..q + SECTOR * (i + 1)], i + 1)
  {
    hide Crypt;
    var text, result := inp[p..p + SECTOR * (i + 1)], now[q..q + SECTOR * (i + 1)];
    forall j: nat | j < i + 1 ensures SectorOf(result, j) == Crypt(bc, enc, sn + j, SectorOf(text, j)) {
      SliceSector(inp, p, SECTOR * (i + 1), j);
      SliceSector(now, q, SECTOR * (i + 1), j);
      if j < i {
        SliceSector(inp, p, SECTOR * i, j);
        SliceSector(was, q, SECTOR * i, j);
        Untouched(was, now, q + SECTOR * j);
        assert SectorOf(was[q..q + SECTOR * i], j) == Crypt(bc, enc, sn + j, SectorOf(inp[p..p + SECTOR * i], j));
      }
    }
  }

  // Sector i of the run
  method NextSector(sn: nat, out: array<bv8>, q: nat, inp: array<bv8>, p: nat, i: nat, enc: bool, k: AesKey,
                    ghost key: seq<bv8>, ghost text: seq<bv8>)
    requires KeySize(|key|) && k.Holds(KeysFor(key, enc)) && (inp != out || p == q)
    requires |text| == inp.Length && p + SECTOR * i + SECTOR <= inp.Length && q + SECTOR * i + SECTOR <= out.Length
    requires forall j: nat :: p + SECTOR * i <= j < p + SECTOR * i + SECTOR ==> inp[j] == text[j]
    requires Crypted(AesCipher(key), enc, sn, text[p..p + SECTOR * i], out[..][q..q + SECTOR * i], i)
    modifies out
    ensures Crypted(AesCipher(key), enc, sn, text[p..p + SECTOR * (i + 1)], out[..][q..q + SECTOR * (i + 1)], i + 1)
    ensures forall j: nat :: j < out.Length && !(q + SECTOR * i <= j < q + SECTOR * i + SECTOR) ==>
      out[j] == old(out[j])
  {
    hide KeysFor, Crypted, Crypt, AesCipher;
    ghost var was, a, b := out[..], p + SECTOR * i, q + SECTOR * i;
    Untouched(text, inp[..], a);
    assert inp[a..a + SECTOR] == text[a..a + SECTOR];
    CryptSector(sn + i, out, q + SECTOR * i, inp, p + SECTOR * i, enc, k, key);
    assert out[..][b..b + SECTOR] == Crypt(AesCipher(key), enc, sn + i, text[a..a + SECTOR]);
    CryptedStep(AesCipher(key), enc, sn, text, was, out[..], p, q, i);
  }

  // encrypt_sectors
  method EncryptSectors(sn: nat, out: array<bv8>, q: nat, inp: array<bv8>, p: nat, nb: nat, enc: bool, k: AesKey,
                        ghost key: seq<bv8>)
    requires KeySize(|key|) && k.Holds(KeysFor(key, enc)) && (inp != out || p == q)
    requires p + SECTOR * nb <= inp.Length && q + SECTOR * nb <= out.Length
    modifies out
    ensures Crypted(AesCipher(key), enc, sn, old(inp[p..p + SECTOR * nb]), out[q..q + SECTOR * nb], nb)
    ensures forall i: nat :: i < out.Length && !(q <= i < q + SECTOR * nb) ==> out[i] == old(out[i])
  {
    hide KeysFor, Crypted, Crypt, AesCipher;
    ghost var text, bc := inp[..], AesCipher(key);
    CryptedNone(bc, enc, sn, text, out[..], p, q);
    var i := 0;
    while i < nb
      invariant 0 <= i <= nb && Crypted(bc, enc, sn, text[p..p + SECTOR * i], out[..][q..q + SECTOR * i], i)
      invariant forall j: nat :: j < out.Length && !(q <= j < q + SECTOR * i) ==> out[j] == old(out[j])
    {
      NextSector(sn, out, q, inp, p, i, enc, k, key, text);
      i := i + 1;
    }
    assert out[..][q..q + SECTOR * nb] == out[q..q + SECTOR * nb];
    assert text[p..p + SECTOR * nb] == old(inp[p..p + SECTOR * nb]);
  }

  lemma Untouched(was: seq<bv8>, now: seq<bv8>, a: nat)
    requires |was| == |now| && a + SECTOR <= |was| && forall j: nat :: a <= j < a + SECTOR ==> now[j] == was[j]
    ensures now[a..a + SECTOR] == was[a..a + SECTOR]
  {
    var x, y := now[a..a + SECTOR], was[a..a + SECTOR];
    forall k: nat | k < SECTOR ensures x[k] == y[k] { assert now[a + k] == was[a + k]; }
  }

  lemma CryptedNone(bc: BlockCipher, enc: bool, sn: nat, text: seq<bv8>, result: seq<bv8>, p: nat, q: nat)
    requires p <= |text| && q <= |result|
    ensures Crypted(bc, enc, sn, text[p..p + SECTOR * 0], result[q..q + SECTOR * 0], 0)
  {
  }

  lemma SectorOfPart(s: seq<bv8>, a: nat, n: nat, i: nat)
    requires i < n && SECTOR * (a + n) <= |s|
    ensures SectorOf(s[SECTOR * a..SECTOR * (a + n)], i) == SectorOf(s, a + i)
  {
    assert SECTOR * a + SECTOR * n == SECTOR * (a + n);
    SliceSector(s, SECTOR * a, SECTOR * n, i);
  }

  // Encrypting any number of sectors and decrypting any of them at their own numbers gives back exactly
  // those sectors of the plain text.
  lemma SubRange(key: seq<bv8>, sn: nat, text: seq<bv8>, sealed: seq<bv8>, nb: nat, a: nat, n: nat, plain: seq<bv8>)
    requires KeySize(|key|) && a + n <= nb
    requires Crypted(AesCipher(key), true, sn, text, sealed, nb)
    requires Crypted(AesCipher(key), false, sn + a, sealed[SECTOR * a..SECTOR * (a + n)], plain, n)
    ensures plain == text[SECTOR * a..SECTOR * (a + n)]
  {
    hide AesCipher, SealSector, OpenSector;
    var bc := AesCipher(key);
    AesInverts(key);
    var part := sealed[SECTOR * a..SECTOR * (a + n)];
    forall i: nat | i < n ensures SectorOf(plain, i) == SectorOf(text, a + i) {
      SectorOfPart(sealed, a, n, i);
      assert SectorOf(plain, i) == Crypt(bc, false, sn + a + i, SectorOf(part, i));
      assert SectorOf(sealed, a + i) == Crypt(bc, true, sn + (a + i), SectorOf(text, a + i));
      OpenSeal(bc, sn + a + i, SectorOf(text, a + i));
    }
    SameSectors(plain, text[SECTOR * a..SECTOR * (a + n)], text, a, n);
  }

  lemma SameSectors(plain: seq<bv8>, want: seq<bv8>, text: seq<bv8>, a: nat, n: nat)
    requires |plain| == SECTOR * n && SECTOR * (a + n) <= |text| && want == text[SECTOR * a..SECTOR * (a + n)]
    requires forall i: nat :: i < n ==> SectorOf(plain, i) == SectorOf(text, a + i)
    ensures plain == want
  {
    forall j: nat | j < SECTOR * n ensures plain[j] == want[j] {
      var i, k := j / SECTOR, j % SECTOR;
      assert j == SECTOR * i + k && i < n;
      assert SectorOf(plain, i) == SectorOf(text, a + i);
      assert plain[j] == SectorOf(plain, i)[k] && want[j] == SectorOf(text, a + i)[k];
    }
  }

  // The environment of an encrypted image: sectors are sealed under their guest number.
  function AesEnv(key: seq<bv8>, backing: seq<Sector>, inflate: (seq<Sector>, nat, nat) -> Sector): Env
    requires KeySize(|key|)
  {
    Env(backing, inflate, (n: nat, x: Sector) => SealSector(AesCipher(key), n, x),
        (n: nat, x: Sector) => OpenSector(AesCipher(key), n, x))
  }

  // With AES the disk model's assumption about its cipher holds.
  lemma AesLawful(key: seq<bv8>, backing: seq<Sector>, inflate: (seq<Sector>, nat, nat) -> Sector)
    requires KeySize(|key|)
    ensures AesEnv(key, backing, inflate).Lawful()
  {
    hide AesCipher, SealSector, OpenSector;
    AesInverts(key);
    var env := AesEnv(key, backing, inflate);
    forall n: nat, x: Sector ensures env.dec(n, env.enc(n, x)) == x { OpenSeal(AesCipher(key), n, x); }
  }
}

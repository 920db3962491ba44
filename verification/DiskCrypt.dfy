// AES_cbc_encrypt and encrypt_sectors over the caller's buffers, in place or not.

module DiskCrypt {
  import opened Cipher
  import opened Aes
  import opened Cbc

  function AesCipher(key: seq<bv8>): BlockCipher
    requires KeySize(|key|)
  {
    BlockCipher((b: Block) => EncBlock(key, b), (b: Block) => DecBlock(key, b))
  }

  lemma AesInverts(key: seq<bv8>)
    requires KeySize(|key|)
    ensures AesCipher(key).Inverts()
  {
    hide EncBlock, DecBlock;
    forall b: Block ensures AesCipher(key).dec(AesCipher(key).enc(b)) == b { DecEnc(key, b); }
  }

  // Buffers a chaining loop may work on: the text may be read and written in the same place.
  ghost predicate Buffers(inp: array<bv8>, p: nat, out: array<bv8>, q: nat, iv: array<bv8>)
  {
    iv.Length == 16 && iv != inp && iv != out && (inp != out || p == q)
  }

  lemma MaskedAt(a: seq<bv8>, iv: Block, j: nat)
    requires |a| <= 16 && j < 16
    ensures Masked(a, iv)[j] == if j < |a| then a[j] ^ iv[j] else iv[j]
  {
  }

  // One turn of the encrypting loop, on values.
  lemma EncTurn(bc: BlockCipher, target: seq<bv8>, done: seq<bv8>, iv: Block, text: seq<bv8>, d: nat, c: Block)
    requires d <= |text| && target == done + CbcEnc(bc, iv, text[d..])
    requires d + 16 <= |text| && c == bc.enc(Masked(text[d..d + 16], iv))
    ensures target == (done + c) + CbcEnc(bc, c, text[d + 16..])
  {
    hide CbcEnc, Masked;
    EncUnfold(bc, iv, text[d..]);
    assert text[d..][..16] == text[d..d + 16] && text[d..][16..] == text[d + 16..];
  }

  lemma EncLast(bc: BlockCipher, target: seq<bv8>, done: seq<bv8>, iv: Block, text: seq<bv8>, d: nat, c: Block)
    requires d <= |text| && target == done + CbcEnc(bc, iv, text[d..])
    requires d < |text| < d + 16 ==> c == bc.enc(Masked(text[d..], iv))
    ensures d == |text| ==> target == done
    ensures d < |text| < d + 16 ==> target == done + c
  {
    hide CbcEnc, Masked;
    EncUnfold(bc, iv, text[d..]);
  }

  // Only the n bytes at q + d changed.
  lemma Grown(was: seq<bv8>, now: seq<bv8>, q: nat, d: nat, n: nat)
    requires |was| == |now| && q + d + n <= |was|
    requires forall i: nat :: i < |was| && !(q + d <= i < q + d + n) ==> now[i] == was[i]
    ensures now[q..q + d + n] == was[q..q + d] + now[q + d..q + d + n]
  {
  }

  lemma StretchedIs(len: nat, d: nat)
    requires d <= len < d + 16 && d % 16 == 0
    ensures Stretched(len) == if d == len then d else d + 16
  {
  }

  // The part of the text that is still to be read is as it was.
  lemma Unread(was: seq<bv8>, now: seq<bv8>, p: nat, d: nat, len: nat, e: nat)
    requires |was| == |now| && d <= e <= len && p + len <= |was|
    requires forall i: nat :: p + d <= i < p + len ==> now[i] == was[i]
    ensures now[p + d..p + e] == was[p..p + len][d..e]
  {
    var a, b := now[p + d..p + e], was[p..p + len][d..e];
    forall j: nat | j < e - d ensures a[j] == b[j] { assert b[j] == was[p + d + j]; }
  }

  // tmp = in ^ ivec
  method Mix(inp: array<bv8>, p: nat, n: nat, iv: array<bv8>) returns (tmp: array<bv8>)
    requires n <= 16 && p + n <= inp.Length && iv.Length == 16
    ensures fresh(tmp) && tmp.Length == 16 && tmp[..] == Masked(inp[p..p + n], iv[..])
  {
    hide Masked;
    tmp := new bv8[16];
    ghost var m := Masked(inp[p..p + n], iv[..]);
    var i := 0;
    while i < 16
      invariant 0 <= i <= 16 && forall j: nat :: j < i ==> tmp[j] == m[j]
    {
      MaskedAt(inp[p..p + n], iv[..], i);
      tmp[i] := if i < n then inp[p + i] ^ iv[i] else iv[i];
      i := i + 1;
    }
    assert tmp[..] == m;
  }

  // memcpy of a block
  method Copy(src: array<bv8>, p: nat, dst: array<bv8>, q: nat)
    requires p + 16 <= src.Length && q + 16 <= dst.Length && src != dst
    modifies dst
    ensures dst[q..q + 16] == src[p..p + 16]
    ensures forall i: nat :: i < dst.Length && !(q <= i < q + 16) ==> dst[i] == old(dst[i])
  {
    var i := 0;
    while i < 16
      invariant 0 <= i <= 16
      invariant forall j: nat :: j < dst.Length ==> dst[j] == if q <= j < q + i then src[p + j - q] else old(dst[j])
    {
      dst[q + i] := src[p + i];
      i := i + 1;
    }
  }

  // One turn of the encrypting loop of AES_cbc_encrypt, n bytes of text
  method EncryptStep(inp: array<bv8>, p: nat, n: nat, out: array<bv8>, q: nat, k: AesKey, iv: array<bv8>,
                     ghost key: seq<bv8>)
    requires KeySize(|key|) && k.Holds(RoundKeys(key)) && 0 < n <= 16
    requires p + n <= inp.Length && q + 16 <= out.Length && iv.Length == 16 && iv != inp && iv != out
    modifies out, iv
    ensures out[q..q + 16] == EncBlock(key, Masked(old(inp[p..p + n]), old(iv[..]))) && iv[..] == out[q..q + 16]
    ensures forall i: nat :: i < out.Length && !(q <= i < q + 16) ==> out[i] == old(out[i])
  {
    hide RoundKeys, EncBlock, Masked;
    var tmp := Mix(inp, p, n, iv);
    assert tmp[0..16] == tmp[..];
    Encrypt(tmp, 0, out, q, k, key);
    Copy(out, q, iv, 0);
    assert iv[0..16] == iv[..];
  }

  // The result is `done` and what is still to be encrypted from d on.
  ghost predicate EncSoFar(key: seq<bv8>, target: seq<bv8>, done: seq<bv8>, iv: seq<bv8>, text: seq<bv8>, d: nat)
    requires KeySize(|key|)
  {
    |iv| == 16 && d <= |text| && target == done + CbcEnc(AesCipher(key), iv, text[d..])
  }

  // The block at d of a buffer whose first d bytes are done
  method EncryptNext(inp: array<bv8>, p: nat, out: array<bv8>, q: nat, d: nat, k: AesKey, iv: array<bv8>,
                     ghost key: seq<bv8>, ghost text: seq<bv8>, ghost target: seq<bv8>)
    requires KeySize(|key|) && k.Holds(RoundKeys(key)) && Buffers(inp, p, out, q, iv)
    requires p + d + 16 <= inp.Length && q + d + 16 <= out.Length && d + 16 <= |text|
    requires inp[p + d..p + (d + 16)] == text[d..d + 16]
    requires EncSoFar(key, target, out[q..q + d], iv[..], text, d)
    modifies out, iv
    ensures EncSoFar(key, target, out[q..q + (d + 16)], iv[..], text, d + 16)
    ensures forall i: nat :: i < out.Length && !(q + d <= i < q + d + 16) ==> out[i] == old(out[i])
  {
    hide RoundKeys, EncBlock, Masked, CbcEnc, Stretched;
    ghost var was, chain := out[..], iv[..];
    EncryptStep(inp, p + d, 16, out, q + d, k, iv, key);
    ghost var c := out[q + d..q + d + 16];
    EncTurn(AesCipher(key), target, was[q..q + d], chain, text, d, c);
    Grown(was, out[..], q, d, 16);
    assert out[q..q + (d + 16)] == was[q..q + d] + c;
  }

  // The loop over whole blocks, d bytes in the end
  method EncryptBlocks(inp: array<bv8>, p: nat, out: array<bv8>, q: nat, len: nat, k: AesKey, iv: array<bv8>,
                       ghost key: seq<bv8>) returns (d: nat)
    requires KeySize(|key|) && k.Holds(RoundKeys(key)) && Buffers(inp, p, out, q, iv)
    requires p + len <= inp.Length && q + len <= out.Length
    modifies out, iv
    ensures d <= len < d + 16 && d % 16 == 0
    ensures forall i: nat :: p + d <= i < p + len ==> inp[i] == old(inp[i])
    ensures var text := old(inp[p..p + len]);
      EncSoFar(key, CbcEnc(AesCipher(key), old(iv[..]), text), out[q..q + d], iv[..], text, d)
    ensures forall i: nat :: i < out.Length && !(q <= i < q + d) ==> out[i] == old(out[i])
  {
    hide RoundKeys, EncBlock, Masked, CbcEnc, Stretched, AesCipher;
    ghost var text, bc := inp[p..p + len], AesCipher(key);
    ghost var target := CbcEnc(bc, iv[..], text);
    assert text[0..] == text;
    d := 0;
    while d + 16 <= len
      invariant 0 <= d <= len && d % 16 == 0
      invariant forall i: nat :: p + d <= i < p + len ==> inp[i] == old(inp[i])
      invariant EncSoFar(key, target, out[q..q + d], iv[..], text, d)
      invariant forall i: nat :: i < out.Length && !(q <= i < q + d) ==> out[i] == old(out[i])
    {
      Unread(old(inp[..]), inp[..], p, d, len, d + 16);
      EncryptNext(inp, p, out, q, d, k, iv, key, text, target);
      d := d + 16;
    }
  }

  // AES_cbc_encrypt with enc = 1
  method CbcEncrypt(inp: array<bv8>, p: nat, out: array<bv8>, q: nat, len: nat, k: AesKey, iv: array<bv8>,
                    ghost key: seq<bv8>)
    requires KeySize(|key|) && k.Holds(RoundKeys(key)) && Buffers(inp, p, out, q, iv)
    requires p + len <= inp.Length && q + Stretched(len) <= out.Length
    modifies out, iv
    ensures out[q..q + Stretched(len)] == CbcEnc(AesCipher(key), old(iv[..]), old(inp[p..p + len]))
    ensures forall i: nat :: i < out.Length && !(q <= i < q + Stretched(len)) ==> out[i] == old(out[i])
  {
    hide RoundKeys, EncBlock, Masked, CbcEnc, Stretched;
    ghost var text, bc := inp[p..p + len], AesCipher(key);
    ghost var target := CbcEnc(bc, iv[..], text);
    var d := EncryptBlocks(inp, p, out, q, len, k, iv, key);
    StretchedIs(len, d);
    ghost var was, chain := out[..], iv[..];
    if d < len {
      Unread(old(inp[..]), inp[..], p, d, len, len);
      assert inp[p + d..p + d + (len - d)] == text[d..];
      EncryptStep(inp, p + d, len - d, out, q + d, k, iv, key);
      Grown(was, out[..], q, d, 16);
    }
    EncLast(bc, target, was[q..q + d], chain, text, d, iv[..]);
  }

  // ----- decryption -----

  // One turn of the decrypting loop, on values.
  lemma DecTurn(bc: BlockCipher, target: seq<bv8>, done: seq<bv8>, iv: Block, text: seq<bv8>, d: nat, len: nat,
                plain: seq<bv8>)
    requires d + 16 <= len && |text| == Stretched(len) && d % 16 == 0
    requires |text[d..]| == Stretched(len - d) && target == done + CbcDec(bc, iv, text[d..], len - d)
    requires plain == XorBytes(bc.dec(text[d..d + 16]), iv)
    ensures |text[d + 16..]| == Stretched(len - (d + 16))
    ensures target == (done + plain) + CbcDec(bc, text[d..d + 16], text[d + 16..], len - (d + 16))
  {
    hide CbcDec, XorBytes;
    DecUnfold(bc, iv, text[d..], len - d);
    assert text[d..][..16] == text[d..d + 16] && text[d..][16..] == text[d + 16..];
  }

  // out ^= ivec on n bytes
  method XorInto(src: array<bv8>, out: array<bv8>, q: nat, n: nat, iv: array<bv8>, ghost block: seq<bv8>)
    requires n <= 16 && |block| == 16 && q + n <= out.Length && iv.Length == 16 && iv != out && src.Length >= 16
    requires if src == out then q + 16 <= out.Length && out[q..q + 16] == block else src[..16] == block
    modifies out
    ensures out[q..q + n] == XorBytes(block[..n], iv[..])
    ensures forall i: nat :: i < out.Length && !(q <= i < q + n) ==> out[i] == old(out[i])
  {
    hide XorBytes;
    ghost var plain := XorBytes(block[..n], iv[..]);
    assert forall j: nat :: j < n ==> block[j] == if src == out then out[q..q + 16][j] else src[..16][j];
    var i := 0;
    while i < n
      invariant 0 <= i <= n
      invariant forall j: nat :: j < out.Length ==> out[j] == if q <= j < q + i then plain[j - q] else old(out[j])
    {
      assert plain[i] == block[i] ^ iv[i];
      out[q + i] := (if src == out then out[q + i] else src[i]) ^ iv[i];
      i := i + 1;
    }
  }

  // One turn of the decrypting loop of AES_cbc_encrypt on a whole block
  method DecryptStep(inp: array<bv8>, p: nat, out: array<bv8>, q: nat, k: AesKey, iv: array<bv8>, ghost key: seq<bv8>)
    requires KeySize(|key|) && k.Holds(DecryptKeys(RoundKeys(key)))
    requires p + 16 <= inp.Length && q + 16 <= out.Length && iv.Length == 16 && iv != inp && iv != out
    modifies out, iv
    ensures out[q..q + 16] == XorBytes(DecBlock(key, old(inp[p..p + 16])), old(iv[..])) && iv[..] == old(inp[p..p + 16])
    ensures forall i: nat :: i < out.Length && !(q <= i < q + 16) ==> out[i] == old(out[i])
  {
    hide RoundKeys, DecryptKeys, DecBlock, XorBytes;
    var tmp := new bv8[16];
    Copy(inp, p, tmp, 0);
    assert tmp[..] == tmp[0..16];
    ghost var block := DecBlock(key, inp[p..p + 16]);
    assert block[..16] == block;
    Decrypt(inp, p, out, q, k, key);
    XorInto(out, out, q, 16, iv, block);
    Copy(tmp, 0, iv, 0);
    assert iv[..] == iv[0..16];
  }

  // The last, short block of the decrypting branch
  method DecryptTail(inp: array<bv8>, p: nat, out: array<bv8>, q: nat, n: nat, k: AesKey, iv: array<bv8>,
                     ghost key: seq<bv8>)
    requires KeySize(|key|) && k.Holds(DecryptKeys(RoundKeys(key))) && n < 16
    requires p + 16 <= inp.Length && q + n <= out.Length && iv.Length == 16 && iv != inp && iv != out
    modifies out, iv
    ensures out[q..q + n] == XorBytes(DecBlock(key, old(inp[p..p + 16]))[..n], old(iv[..]))
    ensures forall i: nat :: i < out.Length && !(q <= i < q + n) ==> out[i] == old(out[i])
  {
    hide RoundKeys, DecryptKeys, DecBlock, XorBytes;
    var tmp := new bv8[16];
    Copy(inp, p, tmp, 0);
    ghost var block := DecBlock(key, inp[p..p + 16]);
    Decrypt(tmp, 0, tmp, 0, k, key);
    assert tmp[..16] == tmp[0..16];
    XorInto(tmp, out, q, n, iv, block);
    Copy(tmp, 0, iv, 0);
  }

  lemma DecLast(bc: BlockCipher, target: seq<bv8>, done: seq<bv8>, iv: Block, text: seq<bv8>, d: nat, len: nat,
                plain: seq<bv8>)
    requires d <= len < d + 16 && d <= |text| && |text[d..]| == Stretched(len - d)
    requires target == done + CbcDec(bc, iv, text[d..], len - d)
    requires d < len ==> |text| == d + 16 && plain == XorBytes(bc.dec(text[d..d + 16])[..len - d], iv)
    ensures d == len ==> target == done
    ensures d < len ==> target == done + plain
  {
    hide CbcDec, XorBytes;
    DecUnfold(bc, iv, text[d..], len - d);
    if d < len { assert text[d..] == text[d..d + 16]; }
  }

  // The result is `done` and what is still to be decrypted from d on.
  ghost predicate DecSoFar(key: seq<bv8>, target: seq<bv8>, done: seq<bv8>, iv: seq<bv8>, text: seq<bv8>, d: nat,
                           len: nat)
    requires KeySize(|key|)
  {
    && |iv| == 16 && d <= |text| && d <= len && |text[d..]| == Stretched(len - d)
    && target == done + CbcDec(AesCipher(key), iv, text[d..], len - d)
  }

  // The block at d of a buffer whose first d bytes are done
  method DecryptNext(inp: array<bv8>, p: nat, out: array<bv8>, q: nat, d: nat, len: nat, k: AesKey, iv: array<bv8>,
                     ghost key: seq<bv8>, ghost text: seq<bv8>, ghost target: seq<bv8>)
    requires KeySize(|key|) && k.Holds(DecryptKeys(RoundKeys(key))) && Buffers(inp, p, out, q, iv)
    requires p + d + 16 <= inp.Length && q + d + 16 <= out.Length && d + 16 <= len && |text| == Stretched(len)
    requires d % 16 == 0 && inp[p + d..p + (d + 16)] == text[d..d + 16]
    requires DecSoFar(key, target, out[q..q + d], iv[..], text, d, len)
    modifies out, iv
    ensures DecSoFar(key, target, out[q..q + (d + 16)], iv[..], text, d + 16, len)
    ensures forall i: nat :: i < out.Length && !(q + d <= i < q + d + 16) ==> out[i] == old(out[i])
  {
    hide RoundKeys, DecryptKeys, DecBlock, XorBytes, CbcDec, Stretched;
    ghost var was, chain := out[..], iv[..];
    DecryptStep(inp, p + d, out, q + d, k, iv, key);
    DecTurn(AesCipher(key), target, was[q..q + d], chain, text, d, len, out[q + d..q + d + 16]);
    Grown(was, out[..], q, d, 16);
  }

  // The loop over whole blocks
  method DecryptBlocks(inp: array<bv8>, p: nat, out: array<bv8>, q: nat, len: nat, k: AesKey, iv: array<bv8>,
                       ghost key: seq<bv8>) returns (d: nat)
    requires KeySize(|key|) && k.Holds(DecryptKeys(RoundKeys(key))) && Buffers(inp, p, out, q, iv)
    requires p + Stretched(len) <= inp.Length && q + len <= out.Length
    modifies out, iv
    ensures d <= len < d + 16 && d % 16 == 0
    ensures forall i: nat :: p + d <= i < p + Stretched(len) ==> inp[i] == old(inp[i])
    ensures var text := old(inp[p..p + Stretched(len)]);
      DecSoFar(key, CbcDec(AesCipher(key), old(iv[..]), text, len), out[q..q + d], iv[..], text, d, len)
    ensures forall i: nat :: i < out.Length && !(q <= i < q + d) ==> out[i] == old(out[i])
  {
    hide RoundKeys, DecryptKeys, DecBlock, XorBytes, CbcDec, Stretched, AesCipher;
    ghost var n := Stretched(len);
    ghost var text, bc := inp[p..p + n], AesCipher(key);
    ghost var target := CbcDec(bc, iv[..], text, len);
    assert text[0..] == text;
    d := 0;
    while d + 16 <= len
      invariant 0 <= d <= len && d % 16 == 0 && DecSoFar(key, target, out[q..q + d], iv[..], text, d, len)
      invariant forall i: nat :: p + d <= i < p + n ==> inp[i] == old(inp[i])
      invariant forall i: nat :: i < out.Length && !(q <= i < q + d) ==> out[i] == old(out[i])
    {
      Unread(old(inp[..]), inp[..], p, d, n, d + 16);
      DecryptNext(inp, p, out, q, d, len, k, iv, key, text, target);
      d := d + 16;
    }
  }

  // AES_cbc_encrypt with enc = 0
  method CbcDecrypt(inp: array<bv8>, p: nat, out: array<bv8>, q: nat, len: nat, k: AesKey, iv: array<bv8>,
                    ghost key: seq<bv8>)
    requires KeySize(|key|) && k.Holds(DecryptKeys(RoundKeys(key))) && Buffers(inp, p, out, q, iv)
    requires p + Stretched(len) <= inp.Length && q + len <= out.Length
    modifies out, iv
    ensures out[q..q + len] == CbcDec(AesCipher(key), old(iv[..]), old(inp[p..p + Stretched(len)]), len)
    ensures forall i: nat :: i < out.Length && !(q <= i < q + len) ==> out[i] == old(out[i])
  {
    hide RoundKeys, DecryptKeys, DecBlock, XorBytes, CbcDec, Stretched;
    ghost var n := Stretched(len);
    ghost var text, bc := inp[p..p + n], AesCipher(key);
    ghost var target := CbcDec(bc, iv[..], text, len);
    var d := DecryptBlocks(inp, p, out, q, len, k, iv, key);
    StretchedIs(len, d);
    ghost var was, chain := out[..], iv[..];
    if d < len {
      Unread(old(inp[..]), inp[..], p, d, n, d + 16);
      DecryptTail(inp, p + d, out, q + d, len - d, k, iv, key);
      Grown(was, out[..], q, d, len - d);
    }
    DecLast(bc, target, was[q..q + d], chain, text, d, len, out[q + d..q + len]);
  }
}

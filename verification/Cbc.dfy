// Cipher block chaining (section 6.2 of NIST SP 800-38A) over any invertible block cipher, and the
// per-sector encryption of disk images built on it.

module Cbc {
  import opened Basics
  type Block = b: seq<bv8> | |b| == 16 witness seq(16, _ => 0)

  datatype BlockCipher = BlockCipher(enc: Block -> Block, dec: Block -> Block)
  {
    ghost predicate Inverts() { forall b: Block :: dec(enc(b)) == b }
  }

  function XorBytes(a: seq<bv8>, b: seq<bv8>): (r: seq<bv8>)
    requires |a| <= |b|
    ensures |r| == |a| && forall n: nat :: n < |a| ==> r[n] == a[n] ^ b[n]
  {
    seq(|a|, n requires 0 <= n < |a| => a[n] ^ b[n])
  }

  // A short last block is filled up with zeros, that is with the chaining value after the exclusive-or.
  function Masked(a: seq<bv8>, iv: Block): Block
    requires |a| <= 16
  {
    XorBytes(a, iv) + iv[|a|..]
  }

  // The length of the encryption of a text.
  function Stretched(len: nat): (r: nat)
    ensures len <= r < len + 16 && r % 16 == 0
  {
    (len + 15) / 16 * 16
  }

  function CbcEnc(bc: BlockCipher, iv: Block, s: seq<bv8>): (r: seq<bv8>)
    ensures |r| == Stretched(|s|)
    decreases |s|
  {
    if |s| == 0 then []
    else if |s| < 16 then bc.enc(Masked(s, iv))
    else
      var c := bc.enc(Masked(s[..16], iv));
      c + CbcEnc(bc, c, s[16..])
  }

  function CbcDec(bc: BlockCipher, iv: Block, c: seq<bv8>, len: nat): (r: seq<bv8>)
    requires |c| == Stretched(len)
    ensures |r| == len
    decreases len
  {
    if len == 0 then []
    else if len < 16 then XorBytes(bc.dec(c)[..len], iv)
    else XorBytes(bc.dec(c[..16]), iv) + CbcDec(bc, c[..16], c[16..], len - 16)
  }

  lemma Unmask(a: seq<bv8>, iv: Block)
    requires |a| <= 16
    ensures XorBytes(Masked(a, iv)[..|a|], iv) == a
  {
    var m := Masked(a, iv);
    forall n: nat | n < |a| ensures XorBytes(m[..|a|], iv)[n] == a[n] {
      assert m[..|a|][n] == a[n] ^ iv[n];
      assert (a[n] ^ iv[n]) ^ iv[n] == a[n];
    }
  }

  // Decryption recovers every text of every length.
  lemma {:induction false} CbcRoundTrip(bc: BlockCipher, iv: Block, s: seq<bv8>)
    requires bc.Inverts()
    ensures CbcDec(bc, iv, CbcEnc(bc, iv, s), |s|) == s
    decreases |s|
  {
    hide Masked, XorBytes;
    if 0 < |s| < 16 {
      Unmask(s, iv);
    } else if 16 <= |s| {
      var x := Masked(s[..16], iv);
      var c: seq<bv8> := bc.enc(x);
      var rest := CbcEnc(bc, c, s[16..]);
      Unmask(s[..16], iv);
      assert x[..16] == x;
      assert (c + rest)[..16] == c && (c + rest)[16..] == rest;
      CbcRoundTrip(bc, c, s[16..]);
      assert s[..16] + s[16..] == s;
    }
  }

  // The chaining loops, seen from what is left to do.
  lemma EncUnfold(bc: BlockCipher, iv: Block, s: seq<bv8>)
    ensures |s| >= 16 ==>
      CbcEnc(bc, iv, s) == bc.enc(Masked(s[..16], iv)) + CbcEnc(bc, bc.enc(Masked(s[..16], iv)), s[16..])
    ensures 0 < |s| < 16 ==> CbcEnc(bc, iv, s) == bc.enc(Masked(s, iv))
    ensures |s| == 0 ==> CbcEnc(bc, iv, s) == []
  {
  }

  lemma DecUnfold(bc: BlockCipher, iv: Block, c: seq<bv8>, len: nat)
    requires |c| == Stretched(len)
    ensures len >= 16 ==>
      CbcDec(bc, iv, c, len) == XorBytes(bc.dec(c[..16]), iv) + CbcDec(bc, c[..16], c[16..], len - 16)
    ensures 0 < len < 16 ==> CbcDec(bc, iv, c, len) == XorBytes(bc.dec(c)[..len], iv)
    ensures len == 0 ==> CbcDec(bc, iv, c, len) == []
  {
  }

  // ----- sectors -----

  function Byte(n: nat, d: nat): bv8
    requires d > 0
  {
    (n / d % 256) as bv8
  }

  // The 64-bit sector number, little-endian, then zeros.
  function SectorIv(n: nat): Block
  {
    [Byte(n, 1), Byte(n, 0x100), Byte(n, 0x1_0000), Byte(n, 0x100_0000), Byte(n, 0x1_0000_0000),
     Byte(n, 0x100_0000_0000), Byte(n, 0x1_0000_0000_0000), Byte(n, 0x100_0000_0000_0000), 0, 0, 0, 0, 0, 0, 0, 0]
  }

  function SealSector(bc: BlockCipher, n: nat, x: seq<bv8>): (r: seq<bv8>)
    requires |x| == SECTOR
    ensures |r| == SECTOR
  {
    CbcEnc(bc, SectorIv(n), x)
  }

  function OpenSector(bc: BlockCipher, n: nat, x: seq<bv8>): (r: seq<bv8>)
    requires |x| == SECTOR
    ensures |r| == SECTOR
  {
    CbcDec(bc, SectorIv(n), x, SECTOR)
  }

  // A sector decrypted under its own number is the plain text.
  lemma OpenSeal(bc: BlockCipher, n: nat, x: seq<bv8>)
    requires bc.Inverts() && |x| == SECTOR
    ensures OpenSector(bc, n, SealSector(bc, n, x)) == x
  {
    CbcRoundTrip(bc, SectorIv(n), x);
  }
}

/**
 The MAC of the vTPM disk against AES-CMAC of RFC 4493: the generation of subkeys of section 2.3 and the
 algorithm of section 2.4.
 */
module Cmac {
  import opened Bytes

  /* Doubling. */

  /** Twice the number that s spells, plus carry, in as many bytes. */
  function Shifted(s: seq<Byte>, carry: nat): (r: seq<Byte>)
    requires carry < 2
    ensures |r| == |s|
  {
    if s == [] then []
    else
      var n := |s| - 1;
      Shifted(s[..n], s[n] / 128) + [(2 * s[n] + carry) % 256]
  }

  lemma {:induction false} ShiftedDoubles(s: seq<Byte>, carry: nat)
    requires carry < 2
    ensures Shifted(s, carry) == BigEndian(2 * FromBigEndian(s) + carry, |s|)
  {
    if s != [] {
      var n := |s| - 1;
      ShiftedDoubles(s[..n], s[n] / 128);
      CarryOut(FromBigEndian(s[..n]), s[n], carry);
    }
  }

  lemma CarryOut(a: nat, x: Byte, carry: nat)
    requires carry < 2
    ensures (2 * (a * 256 + x) + carry) / 256 == 2 * a + x / 128
    ensures (2 * (a * 256 + x) + carry) % 256 == (2 * x + carry) % 256
  {
  }

  /** A byte moved left by one, with the top bit of its neighbour coming in. */
  function ShiftByte(x: nat, next: nat): (r: nat)
    ensures x < 256 && next < 256 ==> r < 256
  {
    (2 * x) % 256 + next / 128
  }

  /** Byte i of the shift. */
  lemma {:induction false} ShiftedAt(s: seq<Byte>, carry: nat, i: nat)
    requires carry < 2 && i < |s|
    ensures Shifted(s, carry)[i] == if i + 1 < |s| then ShiftByte(s[i], s[i + 1]) else ShiftByte(s[i], 0) + carry
  {
    var n := |s| - 1;
    if i < n {
      ShiftedAt(s[..n], s[n] / 128, i);
      assert Shifted(s, carry)[i] == Shifted(s[..n], s[n] / 128)[i];
    } else {
      LastShift(s[n], carry);
    }
  }

  lemma LastShift(x: Byte, carry: nat)
    requires carry < 2
    ensures (2 * x + carry) % 256 == ShiftByte(x, 0) + carry
  {
  }

  /** The top bit. */
  lemma {:induction false} TopBit(s: seq<Byte>)
    requires s != []
    ensures FromBigEndian(s) >= 128 * Pow256(|s| - 1) <==> s[0] >= 128
    ensures FromBigEndian(s) < Pow256(|s|)
  {
    var n := |s| - 1;
    if n == 0 {
      assert FromBigEndian(s[..0]) == 0;
    } else {
      TopBit(s[..n]);
    }
  }

  /** Doubling in GF(2^128): the big-endian number shifted left, reduced if its top bit was set. */
  function Doubled(b: Block): (r: Block) {
    var v := FromBigEndian(b);
    var shifted := BigEndian(2 * v, 16);
    if v >= 128 * Pow256(15) then shifted[15 := Xor(shifted[15], 0x87)] else shifted
  }

  /** shl_128_mod_hex87. */
  method ShiftMod(src: Block) returns (dst: Block)
    ensures dst == Doubled(src)
  {
    hide Doubled, Xor, ShiftByte;
    var out: seq<Byte> := Zeros(16);
    for i := 0 to 15
      invariant |out| == 16
      invariant forall j :: 0 <= j < i ==> out[j] == ShiftByte(src[j], src[j + 1])
    {
      out := out[i := ShiftByte(src[i], src[i + 1])];
    }
    var last: Byte := ShiftByte(src[15], 0);
    out := out[15 := Xor(last, if src[0] / 128 % 2 == 1 then 0x87 else 0)];
    DoubledBytes(src, out);
    dst := out;
  }

  lemma DoubledBytes(src: Block, out: Block)
    requires forall j :: 0 <= j < 15 ==> out[j] == ShiftByte(src[j], src[j + 1])
    requires out[15] == Xor(ShiftByte(src[15], 0), if src[0] / 128 % 2 == 1 then 0x87 else 0)
    ensures out == Doubled(src)
  {
    hide FromBigEndian, BigEndian, Pow256, Shifted, Xor, ShiftByte;
    XorZero(ShiftByte(src[15], 0));
    ShiftedDoubles(src, 0);
    TopBit(src);
    var shifted := Shifted(src, 0);
    forall j | 0 <= j < 15 ensures out[j] == shifted[j] {
      ShiftedAt(src, 0, j);
    }
    ShiftedAt(src, 0, 15);
    assert out == shifted[15 := out[15]];
    assert shifted == BigEndian(2 * FromBigEndian(src), 16);
    assert shifted == shifted[15 := shifted[15]];
  }

  lemma XorZero(a: Byte)
    ensures Xor(a, 0) == a
  {
    XorLaws(a, 0, 0);
  }

  /* The MAC. */

  /** The CBC chain over the first n blocks. */
  function Chain(key: Cipher, m: seq<Byte>, n: nat): (r: Block)
    requires 16 * n <= |m|
  {
    if n == 0 then ZERO_BLOCK else key(XorSeq(Chain(key, m, n - 1), m[16 * (n - 1)..16 * n]))
  }

  function Padded(last: seq<Byte>): (r: Block)
    requires |last| < 16
  {
    last + [0x80] + Zeros(15 - |last|)
  }

  /** The number of blocks of a message, at least one. */
  function Blocks(size: nat): (n: nat)
    ensures n > 0 && 16 * (n - 1) <= size <= 16 * n
    ensures size > 0 ==> (size % 16 == 0 <==> size == 16 * n) && n == (size - 1) / 16 + 1
  {
    if size == 0 then 1 else (size + 15) / 16
  }

  /** The last block under its subkey. */
  function Final(l: Block, last: seq<Byte>): (r: Block)
    requires |last| <= 16
  {
    var k1 := Doubled(l);
    if |last| == 16 then XorSeq(last, k1) else XorSeq(Padded(last), Doubled(k1))
  }

  /** AES-CMAC. */
  function Rfc4493(key: Cipher, m: seq<Byte>): (r: Block) {
    var n := Blocks(|m|);
    key(XorSeq(Final(key(ZERO_BLOCK), m[16 * (n - 1)..]), Chain(key, m, n - 1)))
  }

  ghost predicate Injective(key: Cipher) {
    forall a: Block, b: Block :: key(a) == key(b) ==> a == b
  }

  /** aes_cmac, for a message that is not empty: it is AES-CMAC exactly when the message is made of whole
      blocks, because a partial block is padded with zeros only. */
  method Mac(key: Cipher, m: seq<Byte>) returns (tag: Block)
    requires |m| > 0
    ensures |m| % 16 == 0 ==> tag == Rfc4493(key, m)
    ensures |m| % 16 != 0 ==>
      var last: Block := m[|m| - |m| % 16..] + Zeros(16 - |m| % 16);
      tag == key(XorSeq(XorSeq(last, Doubled(Doubled(key(ZERO_BLOCK)))), Chain(key, m, |m| / 16)))
    ensures Injective(key) ==> (tag == Rfc4493(key, m) <==> |m| % 16 == 0)
  {
    hide Doubled, Injective, Blocks, Chain;
    var bsize := (|m| - 1) / 16;
    var l := key(ZERO_BLOCK);
    var k1 := ShiftMod(l);
    var k2 := ShiftMod(k1);
    var x := ZERO_BLOCK;
    assert Blocks(|m|) == bsize + 1;
    ChainStart(key, m);
    for i := 0 to bsize
      invariant x == Chain(key, m, i)
    {
      var y := XorSeq(x, m[16 * i..16 * i + 16]);
      x := key(y);
      ChainNext(key, m, i);
    }
    var last := m[16 * bsize..];
    if |m| % 16 != 0 {
      var z: Block := last + Zeros(16 - |last|);
      var y := XorSeq(x, k2);
      tag := key(XorSeq(y, z));
      PaddingDiffers(key, x, k2, last);
      XorSwap(x, k2, z);
    } else {
      var y := XorSeq(x, k1);
      tag := key(XorSeq(y, last));
      XorSwap(x, k1, last);
    }
  }

  lemma ChainStart(key: Cipher, m: seq<Byte>)
    ensures Chain(key, m, 0) == ZERO_BLOCK
  {
  }

  lemma ChainNext(key: Cipher, m: seq<Byte>, n: nat)
    requires 16 * n + 16 <= |m|
    ensures Chain(key, m, n + 1) == key(XorSeq(Chain(key, m, n), m[16 * n..16 * n + 16]))
  {
  }

  lemma XorSwap(x: Block, k: Block, z: Block)
    ensures XorSeq(XorSeq(x, k), z) == XorSeq(XorSeq(z, k), x)
  {
    XorSeqLaws(x, k, z);
    XorSeqLaws(z, k, x);
    XorSeqLaws(x, XorSeq(k, z), z);
    XorSeqLaws(k, z, x);
  }

  lemma PaddingDiffers(key: Cipher, x: Block, k: Block, last: seq<Byte>)
    requires 0 < |last| < 16
    ensures var z: Block := last + Zeros(16 - |last|);
      Injective(key) ==> key(XorSeq(XorSeq(x, k), z)) != key(XorSeq(XorSeq(Padded(last), k), x))
  {
    var z: Block := last + Zeros(16 - |last|);
    XorSwap(x, k, Padded(last));
    var mask := XorSeq(x, k);
    var a: Block, b: Block := XorSeq(mask, z), XorSeq(mask, Padded(last));
    var i := |last|;
    XorCancels(mask[i], z[i], Padded(last)[i]);
    assert a[i] != b[i];
  }

  lemma XorCancels(p: Byte, a: Byte, b: Byte)
    requires a != b
    ensures Xor(p, a) != Xor(p, b)
  {
    XorLaws(a, p, 0);
    XorLaws(b, p, 0);
  }
}

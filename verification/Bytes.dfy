/**
 Bytes, 16-byte blocks and the fixed-width integers that the ciphers and disk formats store.
 A byte is a number below 256, so that counters and shifts are ordinary arithmetic.
 */
module Bytes {

  type Byte = b: nat | b < 256
  type Block = b: seq<Byte> | |b| == 16 witness seq(16, _ => 0)

  /** A block cipher with its key fixed. */
  type Cipher = Block -> Block

  /** One more than the largest 32-bit number. */
  const WORD: nat := 0x1_0000_0000

  const ZERO_BLOCK: Block := [0, 0, 0, 0, 0, 0, 0, 0, 0, 0, 0, 0, 0, 0, 0, 0]

  function Pow2(n: nat): (p: nat)
    ensures p > 0
  {
    if n == 0 then 1 else 2 * Pow2(n - 1)
  }

  /** Exclusive or of two numbers, bit by bit. */
  function XorNat(a: nat, b: nat): (r: nat)
    ensures r % 2 == (a + b) % 2
    ensures a == 0 ==> r == b
    decreases a + b
  {
    if a == 0 && b == 0 then 0
    else
      assert a / 2 + b / 2 < a + b;
      (a + b) % 2 + 2 * XorNat(a / 2, b / 2)
  }

  lemma {:induction false} XorNatBound(a: nat, b: nat, n: nat)
    requires a < Pow2(n) && b < Pow2(n)
    ensures XorNat(a, b) < Pow2(n)
  {
    if n > 0 {
      XorNatBound(a / 2, b / 2, n - 1);
    }
  }

  lemma XorNatHalf(a: nat, b: nat)
    ensures XorNat(a, b) / 2 == XorNat(a / 2, b / 2)
  {
  }

  lemma {:induction false} XorNatCommutes(a: nat, b: nat)
    ensures XorNat(a, b) == XorNat(b, a)
    decreases a + b
  {
    if a + b > 0 {
      XorNatCommutes(a / 2, b / 2);
    }
  }

  lemma {:induction false} XorNatSelf(a: nat)
    ensures XorNat(a, a) == 0
  {
    if a > 0 {
      XorNatSelf(a / 2);
    }
  }

  lemma {:induction false} XorNatAssociates(a: nat, b: nat, c: nat)
    ensures XorNat(XorNat(a, b), c) == XorNat(a, XorNat(b, c))
    decreases a + b + c
  {
    if a + b + c > 0 {
      var ab, bc := XorNat(a, b), XorNat(b, c);
      var left, right := XorNat(ab, c), XorNat(a, bc);
      assert left / 2 == right / 2 by {
        XorNatHalf(a, b);
        XorNatHalf(b, c);
        XorNatHalf(ab, c);
        XorNatHalf(a, bc);
        XorNatAssociates(a / 2, b / 2, c / 2);
      }
      SameHalves(a, b, c, ab, bc, left, right);
    }
  }

  lemma SameHalves(a: nat, b: nat, c: nat, ab: nat, bc: nat, left: nat, right: nat)
    requires ab % 2 == (a + b) % 2 && bc % 2 == (b + c) % 2
    requires left % 2 == (ab + c) % 2 && right % 2 == (a + bc) % 2
    requires left / 2 == right / 2
    ensures left == right
  {
  }

  function Xor(a: Byte, b: Byte): (r: Byte) {
    assert Pow2(8) == 256;
    XorNatBound(a, b, 8);
    XorNat(a, b)
  }

  lemma XorLaws(a: Byte, b: Byte, c: Byte)
    ensures Xor(a, b) == Xor(b, a)
    ensures Xor(Xor(a, b), c) == Xor(a, Xor(b, c))
    ensures Xor(Xor(a, b), b) == a
  {
    XorNatCommutes(a, b);
    XorNatAssociates(a, b, c);
    XorNatAssociates(a, b, b);
    XorNatSelf(b);
    XorNatCommutes(a, 0);
  }

  /** The bytes of x combined with the leading bytes of key. */
  function XorSeq(x: seq<Byte>, key: seq<Byte>): (r: seq<Byte>)
    requires |x| <= |key|
    ensures |r| == |x|
  {
    seq(|x|, i requires 0 <= i < |x| => Xor(x[i], key[i]))
  }

  lemma XorSeqTwice(x: seq<Byte>, key: seq<Byte>)
    requires |x| <= |key|
    ensures XorSeq(XorSeq(x, key), key) == x
  {
    forall i | 0 <= i < |x| ensures Xor(Xor(x[i], key[i]), key[i]) == x[i] {
      XorLaws(x[i], key[i], 0);
    }
  }

  lemma XorSeqLaws(a: seq<Byte>, b: seq<Byte>, c: seq<Byte>)
    requires |a| == |b| == |c|
    ensures XorSeq(a, b) == XorSeq(b, a)
    ensures XorSeq(XorSeq(a, b), c) == XorSeq(a, XorSeq(b, c))
  {
    forall i | 0 <= i < |a|
      ensures Xor(a[i], b[i]) == Xor(b[i], a[i])
      ensures Xor(Xor(a[i], b[i]), c[i]) == Xor(a[i], Xor(b[i], c[i]))
    {
      XorLaws(a[i], b[i], c[i]);
    }
  }

  /** n modulo 256^k, most significant byte first. */
  function BigEndian(n: nat, k: nat): (r: seq<Byte>)
    ensures |r| == k
    decreases k
  {
    if k == 0 then [] else BigEndian(n / 256, k - 1) + [n % 256]
  }

  /** n modulo 256^k, least significant byte first. */
  function LittleEndian(n: nat, k: nat): (r: seq<Byte>)
    ensures |r| == k
    decreases k
  {
    if k == 0 then [] else [n % 256] + LittleEndian(n / 256, k - 1)
  }

  function FromBigEndian(s: seq<Byte>): (n: nat) {
    if s == [] then 0 else FromBigEndian(s[..|s| - 1]) * 256 + s[|s| - 1]
  }

  function FromLittleEndian(s: seq<Byte>): (n: nat) {
    if s == [] then 0 else s[0] + FromLittleEndian(s[1..]) * 256
  }

  function Pow256(k: nat): (p: nat)
    ensures p > 0
  {
    if k == 0 then 1 else 256 * Pow256(k - 1)
  }

  lemma {:induction false} BigEndianRoundTrip(n: nat, k: nat)
    requires n < Pow256(k)
    ensures FromBigEndian(BigEndian(n, k)) == n
  {
    if k > 0 {
      BigEndianRoundTrip(n / 256, k - 1);
      assert BigEndian(n, k)[..k - 1] == BigEndian(n / 256, k - 1);
    }
  }

  /** The bytes hold n modulo 256^k. */
  lemma {:induction false} BigEndianHolds(n: nat, k: nat)
    ensures FromBigEndian(BigEndian(n, k)) == n % Pow256(k)
  {
    if k > 0 {
      BigEndianHolds(n / 256, k - 1);
      assert BigEndian(n, k)[..k - 1] == BigEndian(n / 256, k - 1);
      RemainderStep(n, Pow256(k - 1));
    }
  }

  lemma RemainderStep(n: nat, p: nat)
    requires p > 0
    ensures n / 256 % p * 256 + n % 256 == n % (256 * p)
  {
    var q := n / 256;
    var m, r := q / p, q % p;
    assert q == p * m + r;
    assert n == 256 * (p * m + r) + n % 256;
    assert 256 * (p * m) == 256 * p * m;
    RemainderIs(n, 256 * p, m, 256 * r + n % 256);
  }

  lemma RemainderIs(n: nat, d: nat, m: nat, e: nat)
    requires d > 0 && n == d * m + e && e < d
    ensures n % d == e
  {
    var q := n / d;
    assert n == d * q + n % d;
    if q < m {
      Larger(d, q + 1, m);
    } else if q > m {
      Larger(d, m + 1, q);
    }
  }

  lemma Larger(d: nat, a: nat, b: nat)
    requires a <= b
    ensures d * a <= d * b && d * a == d * (a - 1) + d
  {
  }

  lemma {:induction false} FromBigEndianRoundTrip(s: seq<Byte>)
    ensures FromBigEndian(s) < Pow256(|s|)
    ensures BigEndian(FromBigEndian(s), |s|) == s
  {
    if s != [] {
      FromBigEndianRoundTrip(s[..|s| - 1]);
    }
  }

  lemma {:induction false} LittleEndianRoundTrip(n: nat, k: nat)
    requires n < Pow256(k)
    ensures FromLittleEndian(LittleEndian(n, k)) == n
  {
    if k > 0 {
      LittleEndianRoundTrip(n / 256, k - 1);
      assert LittleEndian(n, k)[1..] == LittleEndian(n / 256, k - 1);
    }
  }

  lemma {:induction false} FromLittleEndianRoundTrip(s: seq<Byte>)
    ensures FromLittleEndian(s) < Pow256(|s|)
    ensures LittleEndian(FromLittleEndian(s), |s|) == s
  {
    if s != [] {
      FromLittleEndianRoundTrip(s[1..]);
      var n, rest := FromLittleEndian(s), FromLittleEndian(s[1..]);
      assert n % 256 == s[0] && n / 256 == rest;
      assert LittleEndian(n, |s|) == [s[0]] + LittleEndian(rest, |s| - 1);
    }
  }

  function Reverse(s: seq<Byte>): (r: seq<Byte>)
    ensures |r| == |s|
  {
    if s == [] then [] else Reverse(s[1..]) + [s[0]]
  }

  lemma {:induction false} ReverseConcat(a: seq<Byte>, b: seq<Byte>)
    ensures Reverse(a + b) == Reverse(b) + Reverse(a)
  {
    if a == [] {
      assert a + b == b;
    } else {
      ReverseConcat(a[1..], b);
      assert (a + b)[1..] == a[1..] + b;
    }
  }

  lemma {:induction false} ReverseLittleEndian(n: nat, k: nat)
    ensures Reverse(LittleEndian(n, k)) == BigEndian(n, k)
  {
    if k > 0 {
      ReverseLittleEndian(n / 256, k - 1);
      assert LittleEndian(n, k)[1..] == LittleEndian(n / 256, k - 1);
    }
  }

  function Flatten(chunks: seq<seq<Byte>>): (r: seq<Byte>) {
    if chunks == [] then [] else Flatten(chunks[..|chunks| - 1]) + chunks[|chunks| - 1]
  }

  /** s with the elements from `at` on replaced by data. */
  function Overwritten<T>(s: seq<T>, at: nat, data: seq<T>): (r: seq<T>)
    requires at + |data| <= |s|
    ensures |r| == |s|
  {
    s[..at] + data + s[at + |data|..]
  }

  lemma OverwrittenNone<T>(s: seq<T>, at: nat)
    requires at <= |s|
    ensures Overwritten(s, at, []) == s
  {
  }

  function Zeros(n: nat): (r: seq<Byte>)
    ensures |r| == n
  {
    seq(n, _ => 0)
  }
}

/**
 Counter mode as NIST SP 800-38D defines it (the 32-bit increment of section 6.2 and GCTR of
 section 6.5), and the laws that streaming implementations rely on.
 */
module CounterMode {
  import opened Bytes

  function Counter(cb: Block): (c: nat) {
    FromBigEndian(cb[12..])
  }

  /** The block whose rightmost 32 bits are replaced by the counter c. */
  function WithCounter(cb: Block, c: nat): (r: Block)
    ensures r[..12] == cb[..12]
  {
    cb[..12] + BigEndian(c, 4)
  }

  function Add32(cb: Block, k: nat): (r: Block) {
    WithCounter(cb, (Counter(cb) + k) % WORD)
  }

  /** inc32 of section 6.2. */
  function Inc32(cb: Block): (r: Block) {
    Add32(cb, 1)
  }

  lemma CounterOf(cb: Block, c: nat)
    requires c < WORD
    ensures Counter(WithCounter(cb, c)) == c
    ensures Counter(cb) < WORD && WithCounter(cb, Counter(cb)) == cb
  {
    assert Pow256(4) == WORD;
    BigEndianRoundTrip(c, 4);
    assert WithCounter(cb, c)[12..] == BigEndian(c, 4);
    FromBigEndianRoundTrip(cb[12..]);
    assert cb == cb[..12] + cb[12..];
  }

  lemma WrapAdds(a: nat, k: nat)
    ensures (a % WORD + k) % WORD == (a + k) % WORD
  {
  }

  lemma WithCounterTwice(cb: Block, b: nat, c: nat)
    ensures WithCounter(WithCounter(cb, b), c) == WithCounter(cb, c)
  {
  }

  /** Advancing by j and then by k is advancing by j + k, also across the wrap-around. */
  lemma Add32Adds(cb: Block, j: nat, k: nat)
    ensures Add32(cb, 0) == cb
    ensures Add32(Add32(cb, j), k) == Add32(cb, j + k)
  {
    hide Counter, WithCounter;
    var a := Counter(cb);
    CounterOf(cb, (a + j) % WORD);
    WrapAdds(a + j, k);
    WithCounterTwice(cb, (a + j) % WORD, (a + j + k) % WORD);
  }

  /** GCTR of section 6.5: the last block may be short. */
  function Gctr(cipher: Cipher, icb: Block, x: seq<Byte>): (y: seq<Byte>)
    ensures |y| == |x|
    decreases |x|
  {
    if |x| <= 16 then XorSeq(x, cipher(icb))
    else XorSeq(x[..16], cipher(icb)) + Gctr(cipher, Inc32(icb), x[16..])
  }

  lemma GctrEmpty(cipher: Cipher, icb: Block)
    ensures Gctr(cipher, icb, []) == []
  {
  }

  /** Input cut at a block boundary can be processed piece by piece. */
  lemma {:induction false} GctrSplit(cipher: Cipher, icb: Block, x: seq<Byte>, y: seq<Byte>)
    requires |x| % 16 == 0
    ensures Gctr(cipher, icb, x + y) == Gctr(cipher, icb, x) + Gctr(cipher, Add32(icb, |x| / 16), y)
    decreases |x|
  {
    hide Add32, Gctr, XorSeq;
    if |x| == 0 {
      Add32Adds(icb, 0, 0);
      GctrEmpty(cipher, icb);
      assert x + y == y;
    } else {
      var rest := x[16..];
      calc {
        Gctr(cipher, icb, x + y);
        {
          GctrFirst(cipher, icb, x + y);
          assert (x + y)[..16] == x[..16];
          assert (x + y)[16..] == rest + y;
        }
        XorSeq(x[..16], cipher(icb)) + Gctr(cipher, Inc32(icb), rest + y);
        {
          GctrSplit(cipher, Inc32(icb), rest, y);
          Add32Adds(icb, 1, |rest| / 16);
          assert 1 + |rest| / 16 == |x| / 16;
        }
        XorSeq(x[..16], cipher(icb)) + (Gctr(cipher, Inc32(icb), rest) + Gctr(cipher, Add32(icb, |x| / 16), y));
        { GctrFirst(cipher, icb, x); }
        Gctr(cipher, icb, x) + Gctr(cipher, Add32(icb, |x| / 16), y);
      }
    }
  }

  /** Blocks from `from` to `to`, encrypted with the counter advanced by `from`, continue the output
      for the blocks before. */
  lemma GctrContinue(cipher: Cipher, icb: Block, x: seq<Byte>, from: nat, to: nat)
    requires from <= to && 16 * to <= |x|
    ensures Gctr(cipher, icb, x[..16 * to])
         == Gctr(cipher, icb, x[..16 * from]) + Gctr(cipher, Add32(icb, from), x[16 * from..16 * to])
  {
    hide Gctr, Add32;
    GctrSplit(cipher, icb, x[..16 * from], x[16 * from..16 * to]);
    assert x[..16 * to] == x[..16 * from] + x[16 * from..16 * to];
  }

  /** The recursion step also describes input that is exactly one block long. */
  lemma GctrFirst(cipher: Cipher, icb: Block, x: seq<Byte>)
    requires |x| >= 16
    ensures Gctr(cipher, icb, x) == XorSeq(x[..16], cipher(icb)) + Gctr(cipher, Inc32(icb), x[16..])
  {
    if |x| == 16 {
      assert x[..16] == x;
    }
  }

  /** A prefix of the output depends only on the same prefix of the input. */
  lemma {:induction false} GctrPrefix(cipher: Cipher, icb: Block, x: seq<Byte>, n: nat)
    requires n <= |x|
    ensures Gctr(cipher, icb, x)[..n] == Gctr(cipher, icb, x[..n])
    decreases |x|
  {
    if |x| > 16 && n > 16 {
      GctrPrefix(cipher, Inc32(icb), x[16..], n - 16);
      assert x[..n][..16] == x[..16];
      assert x[..n][16..] == x[16..][..n - 16];
    }
  }

  /** Counter mode is its own inverse. */
  lemma {:induction false} GctrTwice(cipher: Cipher, icb: Block, x: seq<Byte>)
    ensures Gctr(cipher, icb, Gctr(cipher, icb, x)) == x
    decreases |x|
  {
    if |x| <= 16 {
      XorSeqTwice(x, cipher(icb));
    } else {
      var y := Gctr(cipher, icb, x);
      assert y[..16] == XorSeq(x[..16], cipher(icb));
      assert y[16..] == Gctr(cipher, Inc32(icb), x[16..]);
      XorSeqTwice(x[..16], cipher(icb));
      GctrTwice(cipher, Inc32(icb), x[16..]);
      assert x == x[..16] + x[16..];
    }
  }

  /* What counter mode means, without the functions above. */

  /** cb is icb with its last word advanced by k, as section 6.2 counts. */
  ghost predicate CountsFrom(icb: Block, k: nat, cb: Block) {
    cb[..12] == icb[..12] && FromBigEndian(cb[12..]) == (FromBigEndian(icb[12..]) + k) % 0x1_0000_0000
  }

  /** There is exactly one such block. */
  lemma Add32Counts(icb: Block, k: nat, cb: Block)
    ensures CountsFrom(icb, k, cb) <==> cb == Add32(icb, k)
  {
    hide BigEndian, FromBigEndian;
    var c := (Counter(icb) + k) % WORD;
    CounterOf(icb, c);
    CounterOf(cb, 0);
    assert cb == cb[..12] + cb[12..];
    if CountsFrom(icb, k, cb) {
      assert WithCounter(cb, Counter(cb)) == WithCounter(icb, c);
    }
  }

  /** Counters that are less than 2^32 apart give different blocks. */
  lemma CountersDiffer(icb: Block, m: nat, n: nat)
    requires m < n < m + WORD
    ensures Add32(icb, m) != Add32(icb, n)
  {
    hide Add32, FromBigEndian;
    var a := FromBigEndian(icb[12..]);
    Add32Counts(icb, m, Add32(icb, m));
    Add32Counts(icb, n, Add32(icb, n));
    Apart(a + m, n - m);
  }

  lemma Apart(a: nat, d: nat)
    requires 0 < d < WORD
    ensures a % WORD != (a + d) % WORD
  {
  }

  /** Byte b is byte a combined with byte j of the k-th key stream block. */
  ghost predicate Combined(cipher: Cipher, icb: Block, k: nat, j: nat, a: Byte, b: Byte)
    requires j < 16
  {
    forall cb: Block :: CountsFrom(icb, k, cb) ==> b == Xor(a, cipher(cb)[j])
  }

  /** y is x in counter mode, block by block, the first of them with the counter advanced by `first`. */
  ghost predicate Enciphers(cipher: Cipher, icb: Block, first: nat, x: seq<Byte>, y: seq<Byte>) {
    |y| == |x| && forall i :: 0 <= i < |x| ==> Combined(cipher, icb, first + i / 16, i % 16, x[i], y[i])
  }

  lemma CombinedIff(cipher: Cipher, icb: Block, k: nat, j: nat, a: Byte, b: Byte)
    requires j < 16
    ensures Combined(cipher, icb, k, j, a, b) <==> b == Xor(a, cipher(Add32(icb, k))[j])
  {
    hide Add32, CountsFrom, Xor;
    Add32Counts(icb, k, Add32(icb, k));
    forall cb: Block | CountsFrom(icb, k, cb) ensures cb == Add32(icb, k) {
      Add32Counts(icb, k, cb);
    }
  }

  lemma {:induction false} GctrAt(cipher: Cipher, icb: Block, x: seq<Byte>, i: nat)
    requires i < |x|
    ensures Gctr(cipher, icb, x)[i] == Xor(x[i], cipher(Add32(icb, i / 16))[i % 16])
    decreases |x|
  {
    hide Add32, Xor;
    Add32Adds(icb, 0, 0);
    if i >= 16 {
      GctrAt(cipher, Inc32(icb), x[16..], i - 16);
      Add32Adds(icb, 1, (i - 16) / 16);
      assert i / 16 == 1 + (i - 16) / 16 && i % 16 == (i - 16) % 16;
    }
  }

  /** GCTR is that, and nothing else is. */
  lemma GctrIff(cipher: Cipher, icb: Block, first: nat, x: seq<Byte>, y: seq<Byte>)
    ensures Enciphers(cipher, icb, first, x, y) <==> y == Gctr(cipher, Add32(icb, first), x)
  {
    hide Add32, Gctr, Combined, Xor;
    var z := Gctr(cipher, Add32(icb, first), x);
    if |y| == |x| {
      forall i | 0 <= i < |x|
        ensures Combined(cipher, icb, first + i / 16, i % 16, x[i], y[i]) <==> y[i] == z[i]
      {
        GctrAt(cipher, Add32(icb, first), x, i);
        Add32Adds(icb, first, i / 16);
        CombinedIff(cipher, icb, first + i / 16, i % 16, x[i], y[i]);
      }
    }
  }
}

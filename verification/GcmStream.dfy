/**
 The OpenSSL provider's streaming AES-128-GCM for 96-bit IVs.  The first update carries the
 additional data when it is shorter than a block; everything after it is text.

 Multiplication by the hash subkey is a parameter: GHASH only matters here as a left fold.
 */
module GcmStream {
  import opened Bytes
  import opened CounterMode
  import opened XomStream

  const CHUNK_BLOCKS: nat := 0x800

  /** GHASH of section 6.4 of NIST SP 800-38D, continued from the state y. */
  function Ghash(mul: Cipher, y: Block, x: seq<Byte>): (r: Block)
    decreases |x|
  {
    if |x| < 16 then y else Ghash(mul, mul(XorSeq(y, x[..16])), x[16..])
  }

  lemma {:induction false} GhashSplit(mul: Cipher, y: Block, a: seq<Byte>, b: seq<Byte>)
    requires |a| % 16 == 0
    ensures Ghash(mul, y, a + b) == Ghash(mul, Ghash(mul, y, a), b)
    decreases |a|
  {
    if |a| == 0 {
      assert a + b == b;
    } else {
      assert (a + b)[..16] == a[..16];
      assert (a + b)[16..] == a[16..] + b;
      GhashSplit(mul, mul(XorSeq(y, a[..16])), a[16..], b);
    }
  }

  /** x followed by the fewest zeros that complete its last block. */
  function Padded(x: seq<Byte>): (r: seq<Byte>)
    ensures |r| % 16 == 0 && |x| <= |r| < |x| + 16 && r[..|x|] == x
    ensures forall i :: |x| <= i < |r| ==> r[i] == 0
  {
    x + Zeros((16 - |x| % 16) % 16)
  }

  /** The pre-counter block of section 7.1 for a 96-bit IV. */
  function PreCounter(iv: seq<Byte>): (j0: Block)
    requires |iv| == 12
  {
    iv + [0, 0, 0, 1]
  }

  /** Steps 5 and 6 of section 7.1: the tag of additional data and ciphertext. */
  function Tag(cipher: Cipher, mul: Cipher, j0: Block, aad: seq<Byte>, c: seq<Byte>): (t: Block) {
    Gctr(cipher, j0, Ghash(mul, ZERO_BLOCK,
      Padded(aad) + Padded(c) + (BigEndian(8 * |aad|, 8) + BigEndian(8 * |c|, 8))))
  }

  /** Steps 3 of section 7.1 and 5 of section 7.2: both directions apply GCTR from inc32(J0). */
  function Text(cipher: Cipher, j0: Block, x: seq<Byte>): (y: seq<Byte>)
    ensures |y| == |x|
  {
    Gctr(cipher, Inc32(j0), x)
  }

  /* What a tag means, without the functions above. */

  /** The states of section 6.4 from the zero block on, one more for each block of x. */
  ghost predicate HashChain(mul: Cipher, x: seq<Byte>, ys: seq<Block>) {
    && |ys| == |x| / 16 + 1 && (forall i :: 0 <= i < 16 ==> ys[0][i] == 0)
    && forall k :: 0 <= k < |x| / 16 ==> HashStep(mul, x, ys, k)
  }

  ghost predicate HashStep(mul: Cipher, x: seq<Byte>, ys: seq<Block>, k: nat)
    requires 16 * k + 16 <= |x| && k + 1 < |ys|
  {
    ys[k + 1] == mul(XorSeq(ys[k], x[16 * k..16 * k + 16]))
  }

  /** What is hashed: additional data and ciphertext, each filled up with zeros to whole blocks, and their lengths
      in bits as 64-bit numbers. */
  ghost predicate HashInput(aad: seq<Byte>, c: seq<Byte>, x: seq<Byte>) {
    exists a, b ::
      && x == Padded(aad) + Padded(c) + (a + b) && |a| == |b| == 8
      && FromBigEndian(a) == 8 * |aad| % 0x1_0000_0000_0000_0000
      && FromBigEndian(b) == 8 * |c| % 0x1_0000_0000_0000_0000
  }

  /** The tag is the last state, masked with the encrypted pre-counter block. */
  ghost predicate Tags(cipher: Cipher, mul: Cipher, iv: seq<Byte>, aad: seq<Byte>, c: seq<Byte>, tag: Block)
    requires |iv| == 12
  {
    forall x, ys :: HashInput(aad, c, x) && HashChain(mul, x, ys) ==>
      tag == XorSeq(ys[|x| / 16], cipher(iv + [0, 0, 0, 1]))
  }

  lemma LengthsOnly(n: nat, a: seq<Byte>)
    requires |a| == 8
    ensures FromBigEndian(a) == n % 0x1_0000_0000_0000_0000 <==> a == BigEndian(n, 8)
  {
    LongPower();
    hide FromBigEndian, BigEndian, Pow256;
    FromBigEndianRoundTrip(a);
    BigEndianHolds(n, 8);
    FromBigEndianRoundTrip(BigEndian(n, 8));
  }

  lemma LongPower()
    ensures Pow256(8) == 0x1_0000_0000_0000_0000
  {
  }

  /** A chain ends in GHASH. */
  lemma {:induction false} ChainIs(mul: Cipher, x: seq<Byte>, ys: seq<Block>, k: nat)
    requires HashChain(mul, x, ys) && k <= |x| / 16
    ensures ys[k] == Ghash(mul, ZERO_BLOCK, x[..16 * k])
  {
    if k == 0 {
      assert ys[0] == ZERO_BLOCK;
    } else {
      hide Ghash, XorSeq;
      ChainIs(mul, x, ys, k - 1);
      assert HashStep(mul, x, ys, k - 1);
      var done, b := x[..16 * (k - 1)], x[16 * (k - 1)..16 * k];
      assert x[..16 * k] == done + b;
      hide HashChain;
      GhashSplit(mul, ZERO_BLOCK, done, b);
      GhashOne(mul, ys[k - 1], b);
    }
  }

  lemma GhashOne(mul: Cipher, y: Block, b: seq<Byte>)
    requires |b| == 16
    ensures Ghash(mul, y, b) == mul(XorSeq(y, b))
  {
    assert b[..16] == b && b[16..] == [];
  }

  /** And there is one. */
  lemma ChainExists(mul: Cipher, x: seq<Byte>) returns (ys: seq<Block>)
    ensures HashChain(mul, x, ys)
  {
    ys := [ZERO_BLOCK];
    for k := 0 to |x| / 16
      invariant |ys| == k + 1 && ys[0] == ZERO_BLOCK
      invariant forall i :: 0 <= i < k ==> HashStep(mul, x, ys, i)
    {
      var next: Block := mul(XorSeq(ys[k], x[16 * k..16 * k + 16]));
      var more := ys + [next];
      assert forall i :: 0 <= i < k ==> HashStep(mul, x, ys, i) ==> HashStep(mul, x, more, i);
      ys := more;
    }
  }

  lemma OneBlockGctr(cipher: Cipher, j0: Block, b: Block)
    ensures Gctr(cipher, j0, b) == XorSeq(b, cipher(j0))
  {
  }

  /** There is one input. */
  lemma InputIs(aad: seq<Byte>, c: seq<Byte>, x: seq<Byte>)
    ensures HashInput(aad, c, x) <==> x == Padded(aad) + Padded(c) + (BigEndian(8 * |aad|, 8) + BigEndian(8 * |c|, 8))
  {
    hide Padded, FromBigEndian, BigEndian;
    LengthsOnly(8 * |aad|, BigEndian(8 * |aad|, 8));
    LengthsOnly(8 * |c|, BigEndian(8 * |c|, 8));
    if HashInput(aad, c, x) {
      var a, b :| && x == Padded(aad) + Padded(c) + (a + b) && |a| == |b| == 8
                  && FromBigEndian(a) == 8 * |aad| % 0x1_0000_0000_0000_0000
                  && FromBigEndian(b) == 8 * |c| % 0x1_0000_0000_0000_0000;
      LengthsOnly(8 * |aad|, a);
      LengthsOnly(8 * |c|, b);
    }
  }

  lemma ChainEnd(mul: Cipher, x: seq<Byte>, ys: seq<Block>)
    requires HashChain(mul, x, ys) && |x| % 16 == 0
    ensures |ys| == |x| / 16 + 1 && ys[|x| / 16] == Ghash(mul, ZERO_BLOCK, x)
  {
    hide Ghash;
    ChainIs(mul, x, ys, |x| / 16);
    assert x[..16 * (|x| / 16)] == x;
  }

  /** The function above gives the tag, and nothing else is one. */
  lemma TagIff(cipher: Cipher, mul: Cipher, iv: seq<Byte>, aad: seq<Byte>, c: seq<Byte>, tag: Block)
    requires |iv| == 12
    ensures Tags(cipher, mul, iv, aad, c, tag) <==> tag == Tag(cipher, mul, PreCounter(iv), aad, c)
  {
    hide Ghash, Gctr, Padded, BigEndian, HashChain, HashInput;
    var x := Padded(aad) + Padded(c) + (BigEndian(8 * |aad|, 8) + BigEndian(8 * |c|, 8));
    InputIs(aad, c, x);
    var ys := ChainExists(mul, x);
    ChainEnd(mul, x, ys);
    OneBlockGctr(cipher, PreCounter(iv), Ghash(mul, ZERO_BLOCK, x));
    forall x', zs | HashInput(aad, c, x') && HashChain(mul, x', zs)
      ensures x' == x && |zs| == |x| / 16 + 1 && zs[|x| / 16] == ys[|x| / 16]
    {
      InputIs(aad, c, x');
      ChainEnd(mul, x', zs);
    }
  }

  class Context {
    const aes: Routine
    const mul: Cipher
    const decrypt: bool
    const j: array<Byte>
    const block: array<Byte>
    const j0: Block
    var ctr: nat
    var hashState: Block
    var numBlocks: nat
    var aadLen: nat
    var blockOffset: nat
    var firstUpdate: bool
    var tag: Block

    ghost predicate Valid()
      reads this, j, block
    {
      && j.Length == 16 && block.Length == 16 && j != block
      && blockOffset < 16
      && ctr < WORD && ctr == Counter(j[..])
    }

    ghost function J(): (b: Block)
      reads this, j
      requires j.Length == 16
    {
      j[..]
    }

    ghost function Buffered(): (s: seq<Byte>)
      reads this, block
      requires block.Length == 16 && blockOffset < 16
    {
      block[..blockOffset]
    }

    /** aes_128_gcm_einit and aes_128_gcm_dinit on a new context. */
    constructor (aes: Routine, mul: Cipher, decrypt: bool, iv: seq<Byte>, tag: Block)
      requires |iv| == 12
      ensures Valid() && Buffered() == [] && !firstUpdate
      ensures this.aes == aes && this.mul == mul && this.decrypt == decrypt && this.tag == tag
      ensures j0 == PreCounter(iv) && J() == Inc32(j0)
      ensures hashState == ZERO_BLOCK && numBlocks == 0 && aadLen == 0
      ensures fresh(j) && fresh(block)
    {
      hide FromBigEndian, BigEndian, Ghash, Gctr, LittleEndian;
      this.aes, this.mul, this.decrypt, this.tag := aes, mul, decrypt, tag;
      var pre: Block := iv + [0, 0, 0, 1];
      j0 := pre;
      var v := new Byte[16](i requires 0 <= i < 16 => pre[i]);
      j := v;
      block := new Byte[16](_ => 0);
      hashState, numBlocks, aadLen := ZERO_BLOCK, 0, 0;
      blockOffset, firstUpdate := 0, false;
      ctr := (FromBigEndian(pre[12..]) + 1) % WORD;
      new;
      assert pre == PreCounter(iv);
      assert j[..] == pre;
      StoreCounter(j, ctr);
    }

    /** aes_128_gcm_cipher: whole blocks, hashed in pieces of at most CHUNK_BLOCKS as they come. */
    method CipherWhole(inp: seq<Byte>, outsize: nat) returns (out: seq<Byte>)
      requires Valid()
      modifies this`ctr, this`hashState, this`numBlocks, aes, j
      ensures Valid()
      ensures var n := CipherBlocks(|inp|, outsize);
        && |out| == ByteLength(n) && J() == Add32(old(J()), n) && numBlocks == old(numBlocks) + n
        && (n < WORD / 16 ==>
            && out == Gctr(aes.cipher, old(J()), inp[..16 * n])
            && hashState == Ghash(mul, old(hashState), if decrypt then inp[..16 * n] else out))
    {
      hide Gctr, Ghash, Add32, Counter, CipherBlocks, ByteLength, Overwritten, Ciphered;
      var total := CipherBlocks(|inp|, outsize);
      var remaining := total;
      var buf: seq<Byte> := Zeros(outsize);
      ghost var icb, state, count := J(), hashState, numBlocks;
      Add32Adds(icb, 0, 0);
      CipheredNone(aes.cipher, mul, icb, state, decrypt, inp, buf);
      while remaining > 0
        invariant 0 <= remaining <= total && |buf| == outsize
        invariant Valid()
        invariant J() == Add32(icb, total - remaining)
        invariant numBlocks == count + total - remaining
        invariant total < WORD / 16 ==>
          Ciphered(aes.cipher, mul, icb, state, decrypt, inp, total - remaining, buf, hashState)
        decreases remaining, |aes.schedule|
      {
        var done := total - remaining;
        var at := ByteLength(done);
        var piece := Min(remaining, CHUNK_BLOCKS);
        var left, y := aes.Call(j[..], inp[at..at + 16 * piece], piece);
        var processed := piece - left;
        assert inp[at..at + 16 * piece][..16 * processed] == inp[at..at + 16 * processed];
        if total < WORD / 16 {
          CipheredNext(aes.cipher, mul, icb, state, decrypt, inp, done, processed, buf, hashState, y);
        }
        buf := Overwritten(buf, at, y);
        numBlocks := numBlocks + processed;
        hashState := Ghash(mul, hashState, if decrypt then inp[at..at + 16 * processed] else y);
        remaining := remaining - processed;
        AdvanceCounter(processed);
        Add32Adds(icb, done, processed);
      }
      out := buf[..ByteLength(total)];
      if total < WORD / 16 {
        CipheredAll(aes.cipher, mul, icb, state, decrypt, inp, total, buf, hashState);
      }
    }

    method AdvanceCounter(processed: nat)
      requires Valid()
      modifies this`ctr, j
      ensures Valid() && J() == Add32(old(J()), processed)
    {
      hide Counter, WithCounter;
      ctr := (ctr + processed) % WORD;
      StoreCounter(j, ctr);
    }

    /** aes_128_gcm_stream_update: the first short update is the additional data. */
    method Update(inp: seq<Byte>, outsize: nat) returns (ok: bool, out: seq<Byte>)
      requires Valid()
      modifies this, aes, j, block
      ensures Valid() && firstUpdate && tag == old(tag)
      ensures !old(firstUpdate) && |inp| < 16 ==>
        && ok && out == [] && Buffered() == old(Buffered()) && J() == old(J()) && numBlocks == old(numBlocks)
        && aadLen == (if inp == [] then old(aadLen) else |inp|)
        && hashState == Ghash(mul, old(hashState), Padded(inp))
      ensures old(firstUpdate) || |inp| >= 16 ==>
        && aadLen == old(aadLen)
        && (ok <==> !Refused(old(blockOffset), |inp|, outsize))
        && (!ok ==> out == [])
        && (ok ==>
            && UpdateStep(aes.cipher, old(J()), old(Buffered()), inp, outsize, out, J(), Buffered())
            && var n := UpdateBlocks(old(blockOffset), |inp|, outsize);
               && numBlocks == old(numBlocks) + n
               && (TailBlocks(old(blockOffset), |inp|, outsize) < WORD / 16 ==>
                   hashState == Ghash(mul, old(hashState),
                                      if decrypt then (old(Buffered()) + inp)[..16 * n] else out)))
    {
      hide Gctr, Ghash, Add32, Counter, CipherBlocks, ByteLength;
      GhashEmpty(mul, hashState);
      if !firstUpdate {
        firstUpdate := true;
        if inp == [] {
          return true, [];
        }
        if |inp| < 16 {
          aadLen := |inp|;
          hashState := Ghash(mul, hashState, inp + Zeros(16 - |inp|));
          return true, [];
        }
      }
      ok, out := UpdateText(inp, outsize);
    }

    /** The rest of an update, once the additional data is out of the way. */
    method UpdateText(inp: seq<Byte>, outsize: nat) returns (ok: bool, out: seq<Byte>)
      requires Valid()
      modifies this`ctr, this`hashState, this`numBlocks, this`blockOffset, aes, j, block
      ensures Valid()
      ensures ok <==> !Refused(old(blockOffset), |inp|, outsize)
      ensures !ok ==> out == []
      ensures ok ==>
            && UpdateStep(aes.cipher, old(J()), old(Buffered()), inp, outsize, out, J(), Buffered())
            && var n := UpdateBlocks(old(blockOffset), |inp|, outsize);
               && numBlocks == old(numBlocks) + n
               && (TailBlocks(old(blockOffset), |inp|, outsize) < WORD / 16 ==>
                   hashState == Ghash(mul, old(hashState),
                                      if decrypt then (old(Buffered()) + inp)[..16 * n] else out))
    {
      hide Gctr, Ghash, Add32, Counter, CipherBlocks, ByteLength;
      if blockOffset + |inp| < 16 {
        Add32Adds(J(), 0, 0);
        GctrEmpty(aes.cipher, J());
        GhashEmpty(mul, hashState);
        Save(block, blockOffset, inp);
        blockOffset := blockOffset + |inp|;
        return true, [];
      }
      if blockOffset > 0 && outsize < 16 {
        return false, [];
      }
      out := UpdateWhole(inp, outsize);
      ok := true;
    }

    /** The buffered block, completed with the first bytes of the input. */
    method CipherFirst(inp: seq<Byte>) returns (out: seq<Byte>, rest: seq<Byte>)
      requires Valid() && blockOffset > 0 && blockOffset + |inp| >= 16
      modifies this`ctr, this`hashState, this`numBlocks, aes, j
      ensures Valid() && J() == Add32(old(J()), 1) && numBlocks == old(numBlocks) + 1 && |out| == 16
      ensures out == Gctr(aes.cipher, old(J()), (Buffered() + inp)[..16]) && rest == (Buffered() + inp)[16..]
      ensures hashState == Ghash(mul, old(hashState), if decrypt then (Buffered() + inp)[..16] else out)
    {
      hide Gctr, Ghash, Add32, Counter, CipherBlocks, ByteLength;
      ghost var data := Buffered() + inp;
      var first := block[..blockOffset] + inp[..16 - blockOffset];
      OneBlock();
      assert first[..16] == first == data[..16];
      out := CipherWhole(first, 16);
      rest := inp[16 - blockOffset..];
    }

    /** An update that completes at least one block: the buffered one first, then the others. */
    method UpdateWhole(inp: seq<Byte>, outsize: nat) returns (out: seq<Byte>)
      requires Valid() && blockOffset + |inp| >= 16 && !Refused(blockOffset, |inp|, outsize)
      modifies this`ctr, this`hashState, this`numBlocks, this`blockOffset, aes, j, block
      ensures Valid()
      ensures UpdateStep(aes.cipher, old(J()), old(Buffered()), inp, outsize, out, J(), Buffered())
      ensures var n := UpdateBlocks(old(blockOffset), |inp|, outsize);
        && numBlocks == old(numBlocks) + n
        && (TailBlocks(old(blockOffset), |inp|, outsize) < WORD / 16 ==>
            hashState == Ghash(mul, old(hashState), if decrypt then (old(Buffered()) + inp)[..16 * n] else out))
    {
      hide Gctr, Ghash, Add32, Counter, CipherBlocks, Leftover, ByteLength, UpdateStep, UpdateBlocks, TailBlocks;
      ghost var buffered, icb, state := Buffered(), J(), hashState;
      BlocksOf(blockOffset, |inp|, outsize);
      ghost var data := buffered + inp;
      out := [];
      Add32Adds(icb, 0, 0);
      GctrEmpty(aes.cipher, icb);
      GhashEmpty(mul, state);
      assert data[..0] == [];
      var rest := inp;
      var room := outsize;
      ghost var done := 0;
      if blockOffset > 0 {
        out, rest := CipherFirst(inp);
        room := outsize - 16;
        done := 1;
      }
      assert rest == data[16 * done..];
      ghost var n := CipherBlocks(|rest|, room);
      var more := CipherWhole(rest, room);
      Add32Adds(icb, done, n);
      if n < WORD / 16 {
        TwoPieces(aes.cipher, mul, icb, state, decrypt, data, done, n, out, more);
      }
      Keep(rest);
      LeftoverOfTail(data, done);
      StepDone(aes.cipher, icb, buffered, inp, outsize, done, n, out, more, J(), Buffered());
      out := out + more;
    }

    /** The bytes of a block that is not complete wait for the next call. */
    method Keep(rest: seq<Byte>)
      requires Valid()
      modifies this`blockOffset, block
      ensures Valid() && Buffered() == rest[|rest| - |rest| % 16..] && J() == old(J())
    {
      var keep := |rest| - |rest| % 16;
      Save(block, 0, rest[keep..]);
      blockOffset := |rest| - keep;
    }

    /** The last partial block: its output, and what GHASH sees of it. */
    method LastBlock() returns (out: seq<Byte>, hashed: seq<Byte>)
      requires Valid()
      modifies aes
      ensures out == Gctr(aes.cipher, J(), Buffered())
      ensures hashed == Padded(if decrypt then Buffered() else out)
    {
      hide Gctr;
      GctrEmpty(aes.cipher, J());
      if blockOffset == 0 {
        return [], [];
      }
      hashed := block[..blockOffset] + Zeros(16 - blockOffset);
      var outbuf := aes.CallOne(j[..], hashed);
      GctrPrefix(aes.cipher, J(), hashed, blockOffset);
      assert hashed[..blockOffset] == block[..blockOffset];
      out := outbuf[..blockOffset];
      if !decrypt {
        hashed := out + Zeros(16 - blockOffset);
      }
    }

    /** aes_128_gcm_stream_final: the last partial block, then the tag.  When decrypting, the result
        says whether the tag given beforehand matches.  The length that is reported does not regard the
        caller's room. */
    method Final(outsize: nat) returns (accepted: bool, out: seq<Byte>, reported: nat)
      requires Valid()
      modifies this, aes, block
      ensures reported == old(blockOffset)
      ensures out == Gctr(aes.cipher, J(), old(Buffered()))[..Min(outsize, old(blockOffset))]
      ensures J() == old(J())
      ensures aadLen == 0 && blockOffset == 0 && numBlocks == 0 && ctr == 0 && !firstUpdate
      ensures hashState == ZERO_BLOCK && block[..] == ZERO_BLOCK
      ensures var expected := FinalTag(aes.cipher, mul, decrypt, j0, old(J()), old(hashState), old(aadLen),
                                       old(numBlocks), old(Buffered()));
        if decrypt then tag == old(tag) && (accepted <==> tag == expected)
        else accepted && tag == expected
    {
      hide Gctr, Ghash, BigEndian, LittleEndian, Reverse, Padded, Counter;
      var lengths := Reverse(LittleEndian(128 * numBlocks + 8 * blockOffset, 8) + LittleEndian(8 * aadLen, 8));
      LengthBlock(8 * aadLen, 128 * numBlocks + 8 * blockOffset);
      var last, hashed := LastBlock();
      out := last[..Min(outsize, blockOffset)];
      hashState := Ghash(mul, hashState, hashed + lengths);
      var tagBuf := aes.CallOne(j0, hashState);
      accepted := true;
      if decrypt {
        accepted := tagBuf == tag;
      } else {
        tag := tagBuf;
      }
      reported := blockOffset;
      aadLen, blockOffset, numBlocks, firstUpdate, ctr, hashState := 0, 0, 0, false, 0, ZERO_BLOCK;
      label hashed:
      forall i | 0 <= i < 16 {
        block[i] := 0;
      }
      assert j[..] == old@hashed(j[..]);
    }
  }

  /** The first blocks are in the caller's buffer, and their ciphertext has been hashed. */
  ghost predicate Ciphered(cipher: Cipher, mul: Cipher, icb: Block, state: Block, decrypt: bool, inp: seq<Byte>,
                           done: nat, buf: seq<Byte>, hashState: Block)
  {
    && 16 * done <= |inp| && 16 * done <= |buf|
    && buf[..16 * done] == Gctr(cipher, icb, inp[..16 * done])
    && hashState == Ghash(mul, state, if decrypt then inp[..16 * done] else buf[..16 * done])
  }

  lemma CipheredNone(cipher: Cipher, mul: Cipher, icb: Block, state: Block, decrypt: bool, inp: seq<Byte>,
                     buf: seq<Byte>)
    ensures Ciphered(cipher, mul, icb, state, decrypt, inp, 0, buf, state)
  {
    GctrEmpty(cipher, icb);
    GhashEmpty(mul, state);
    assert inp[..0] == [] && buf[..0] == [];
  }

  lemma CipheredNext(cipher: Cipher, mul: Cipher, icb: Block, state: Block, decrypt: bool, inp: seq<Byte>, done: nat,
                     n: nat, buf: seq<Byte>, hashState: Block, y: seq<Byte>)
    requires Ciphered(cipher, mul, icb, state, decrypt, inp, done, buf, hashState)
    requires 16 * (done + n) <= |inp| && 16 * (done + n) <= |buf|
    requires y == Gctr(cipher, Add32(icb, done), inp[16 * done..16 * done + 16 * n])
    ensures Ciphered(cipher, mul, icb, state, decrypt, inp, done + n, Overwritten(buf, 16 * done, y),
                     Ghash(mul, hashState, if decrypt then inp[16 * done..16 * done + 16 * n] else y))
  {
    hide Gctr, Ghash, Add32, Overwritten;
    GctrContinue(cipher, icb, inp, done, done + n);
    PrefixGrows(buf, 16 * done, y);
    var x := inp[16 * done..16 * done + 16 * n];
    assert inp[..16 * (done + n)] == inp[..16 * done] + x;
    GhashSplit(mul, state, inp[..16 * done], x);
    GhashSplit(mul, state, buf[..16 * done], y);
  }

  lemma CipheredAll(cipher: Cipher, mul: Cipher, icb: Block, state: Block, decrypt: bool, inp: seq<Byte>, n: nat,
                    buf: seq<Byte>, hashState: Block)
    requires Ciphered(cipher, mul, icb, state, decrypt, inp, n, buf, hashState)
    ensures 16 * n <= |inp| && 16 * n <= |buf| && buf[..16 * n] == Gctr(cipher, icb, inp[..16 * n])
    ensures hashState == Ghash(mul, state, if decrypt then inp[..16 * n] else buf[..16 * n])
  {
  }

  /** The tag that final computes from the context. */
  ghost function FinalTag(cipher: Cipher, mul: Cipher, decrypt: bool, j0: Block, j: Block, hashState: Block,
                          aadLen: nat, numBlocks: nat, buffered: seq<Byte>): (t: Block)
  {
    var last := if decrypt then buffered else Gctr(cipher, j, buffered);
    var lengths := BigEndian(8 * aadLen, 8) + BigEndian(128 * numBlocks + 8 * |buffered|, 8);
    Gctr(cipher, j0, Ghash(mul, hashState, Padded(last) + lengths))
  }

  /** Encrypting and hashing two adjacent runs of blocks is encrypting and hashing both at once. */
  lemma TwoPieces(cipher: Cipher, mul: Cipher, icb: Block, state: Block, decrypt: bool,
                  data: seq<Byte>, done: nat, n: nat, first: seq<Byte>, second: seq<Byte>)
    requires 16 * (done + n) <= |data|
    requires first == Gctr(cipher, icb, data[..16 * done])
    requires second == Gctr(cipher, Add32(icb, done), data[16 * done..][..16 * n])
    ensures first + second == Gctr(cipher, icb, data[..16 * (done + n)])
    ensures Ghash(mul, Ghash(mul, state, if decrypt then data[..16 * done] else first),
                  if decrypt then data[16 * done..][..16 * n] else second)
         == Ghash(mul, state, if decrypt then data[..16 * (done + n)] else first + second)
  {
    hide Gctr, Ghash, Add32;
    assert data[16 * done..][..16 * n] == data[16 * done..16 * (done + n)];
    GctrContinue(cipher, icb, data, done, done + n);
    GhashSplit(mul, state, first, second);
    GhashSplit(mul, state, data[..16 * done], data[16 * done..16 * (done + n)]);
    assert data[..16 * (done + n)] == data[..16 * done] + data[16 * done..16 * (done + n)];
  }

  /** The first update is taken as additional data when it is shorter than a block. */
  function AadUpdates(chunks: seq<seq<Byte>>): (n: nat)
    ensures n <= |chunks|
  {
    if chunks != [] && |chunks[0]| < 16 then 1 else 0
  }

  function Aad(chunks: seq<seq<Byte>>): (a: seq<Byte>)
    ensures |a| < 16
  {
    if AadUpdates(chunks) == 1 then chunks[0] else []
  }

  /** The hash and block count that belong to a stream whose updates have all been served. */
  ghost predicate Authenticated(mul: Cipher, decrypt: bool, aad: seq<Byte>, text: seq<Byte>, out: seq<Byte>,
                                hashState: Block, numBlocks: nat)
  {
    && numBlocks == |text| / 16
    && hashState == Ghash(mul, Ghash(mul, ZERO_BLOCK, Padded(aad)), if decrypt then Whole(text) else out)
  }

  lemma BlockSum(text: nat, chunk: nat)
    ensures text / 16 + (text % 16 + chunk) / 16 == (text + chunk) / 16
  {
  }

  lemma AuthenticatedStep(cipher: Cipher, mul: Cipher, decrypt: bool, icb: Block, aad: seq<Byte>,
                          text: seq<Byte>, iv: Block, buffered: seq<Byte>, out: seq<Byte>,
                          hashState: Block, numBlocks: nat, chunk: seq<Byte>, room: nat, more: seq<Byte>,
                          iv': Block, buffered': seq<Byte>, hashState': Block)
    requires Progress(cipher, icb, text, true, iv, buffered, out)
    requires Authenticated(mul, decrypt, aad, text, out, hashState, numBlocks)
    requires UpdateStep(cipher, iv, buffered, chunk, room, more, iv', buffered')
    requires Served(|buffered|, |chunk|, room)
    requires TailBlocks(|buffered|, |chunk|, room) < WORD / 16
    requires hashState' == Ghash(mul, hashState,
      if decrypt then (buffered + chunk)[..16 * UpdateBlocks(|buffered|, |chunk|, room)] else more)
    ensures Authenticated(mul, decrypt, aad, text + chunk, out + more, hashState',
                          numBlocks + UpdateBlocks(|buffered|, |chunk|, room))
  {
    hide Gctr, Ghash, Add32, UpdateBlocks, TailBlocks, Reported, Refused, Served;
    assert buffered == Leftover(text) && |out| == |Whole(text)| && |Whole(text)| % 16 == 0;
    var n := UpdateBlocks(|buffered|, |chunk|, room);
    var data := buffered + chunk;
    assert |more| == 16 * n;
    hide Progress, UpdateStep, Whole, Leftover, Padded;
    CountServed(text, chunk, room);
    WholeAppend(text, chunk);
    BlockSum(|text|, |chunk|);
    var start := Ghash(mul, ZERO_BLOCK, Padded(aad));
    GhashSplit(mul, start, Whole(text), data[..16 * n]);
    GhashSplit(mul, start, out, more);
  }

  /** When everything has been served, final's tag is the one of section 7.1. */
  lemma AuthenticatedEnd(cipher: Cipher, mul: Cipher, decrypt: bool, j0: Block, aad: seq<Byte>,
                         text: seq<Byte>, iv: Block, buffered: seq<Byte>, out: seq<Byte>,
                         hashState: Block, numBlocks: nat)
    requires Progress(cipher, Inc32(j0), text, true, iv, buffered, out)
    requires Authenticated(mul, decrypt, aad, text, out, hashState, numBlocks)
    ensures FinalTag(cipher, mul, decrypt, j0, iv, hashState, |aad|, numBlocks, buffered)
         == Tag(cipher, mul, j0, aad, if decrypt then text else Text(cipher, j0, text))
  {
    hide Gctr, Ghash, Add32, Inc32, BigEndian;
    var c := if decrypt then text else Text(cipher, j0, text);
    var last := if decrypt then buffered else Gctr(cipher, iv, buffered);
    var whole := if decrypt then Whole(text) else out;
    GctrSplit(cipher, Inc32(j0), Whole(text), Leftover(text));
    assert c == whole + last;
    PadLast(whole, last);
    var lengths := BigEndian(8 * |aad|, 8) + BigEndian(8 * |c|, 8);
    assert 128 * numBlocks + 8 * |buffered| == 8 * |c|;
    GhashParts(mul, Padded(aad), whole, Padded(last), lengths);
    assert Padded(aad) + Padded(c) + lengths == Padded(aad) + (whole + (Padded(last) + lengths));
  }

  lemma PadLast(whole: seq<Byte>, last: seq<Byte>)
    requires |whole| % 16 == 0
    ensures Padded(whole + last) == whole + Padded(last)
  {
    assert |whole + last| % 16 == |last| % 16;
    var zeros := Zeros((16 - |last| % 16) % 16);
    assert whole + last + zeros == whole + (last + zeros);
  }

  lemma GhashParts(mul: Cipher, a: seq<Byte>, whole: seq<Byte>, last: seq<Byte>, lengths: seq<Byte>)
    requires |a| % 16 == 0 && |whole| % 16 == 0
    ensures Ghash(mul, ZERO_BLOCK, a + (whole + (last + lengths)))
         == Ghash(mul, Ghash(mul, Ghash(mul, ZERO_BLOCK, a), whole), last + lengths)
  {
    hide Ghash;
    GhashSplit(mul, ZERO_BLOCK, a, whole + (last + lengths));
    GhashSplit(mul, Ghash(mul, ZERO_BLOCK, a), whole, last + lengths);
  }

  /** The context after `text` has been fed to it and `out` has come back. */
  ghost predicate Streaming(context: Context, aad: seq<Byte>, text: seq<Byte>, served: bool, out: seq<Byte>)
    reads context, context.j, context.block
  {
    && context.Valid()
    && context.aadLen == |aad|
    && |text| % 16 == context.blockOffset
    && Progress(context.aes.cipher, Inc32(context.j0), text, served, context.J(), context.Buffered(), out)
    && (served ==>
        Authenticated(context.mul, context.decrypt, aad, text, out, context.hashState, context.numBlocks))
  }

  /** A new context, and the update that carries the additional data if there is one. */
  method Begin(aes: Routine, mul: Cipher, decrypt: bool, iv: seq<Byte>, tag: Block, chunks: seq<seq<Byte>>)
    returns (context: Context)
    requires |iv| == 12
    modifies aes
    ensures fresh(context) && fresh(context.j) && fresh(context.block)
    ensures context.aes == aes && context.mul == mul && context.decrypt == decrypt
    ensures context.j0 == PreCounter(iv) && context.tag == tag
    ensures context.firstUpdate || AadUpdates(chunks) == 0
    ensures Streaming(context, Aad(chunks), [], true, [])
  {
    hide Progress, Authenticated, Gctr, Ghash, Add32, Inc32, Padded;
    context := new Context(aes, mul, decrypt, iv, tag);
    RunStart(aes.cipher, mul, decrypt, Inc32(context.j0));
    if AadUpdates(chunks) == 1 {
      var _, _ := context.Update(chunks[0], 0);
      AadStart(mul, decrypt, chunks[0]);
    }
  }

  /** One update of text. */
  method Feed(context: Context, chunk: seq<Byte>, room: nat, out: seq<Byte>, ghost aad: seq<Byte>,
              ghost text: seq<Byte>, ghost served: bool)
    returns (ok: bool, out': seq<Byte>)
    requires Streaming(context, aad, text, served, out)
    requires context.firstUpdate || |chunk| >= 16
    modifies context, context.aes, context.j, context.block
    ensures ok <==> !Refused(|text| % 16, |chunk|, room)
    ensures context.firstUpdate && context.tag == old(context.tag)
    ensures ok ==> Streaming(context, aad, text + chunk, served && Served(|text| % 16, |chunk|, room), out')
  {
    hide Progress, Authenticated, Gctr, Ghash, Add32, Inc32, Served, UpdateBlocks, TailBlocks, Reported, Refused;
    ghost var cipher, icb := context.aes.cipher, Inc32(context.j0);
    ghost var j, buffered, hashState, numBlocks :=
      context.J(), context.Buffered(), context.hashState, context.numBlocks;
    var more;
    ok, more := context.Update(chunk, room);
    out' := out + more;
    if ok {
      ProgressStep(cipher, icb, text, served, j, buffered, out,
                   chunk, room, more, context.J(), context.Buffered());
      if served && Served(|text| % 16, |chunk|, room) {
        ServedShort(|text| % 16, |chunk|, room);
        AuthenticatedStep(cipher, context.mul, context.decrypt, icb, aad, text, j, buffered, out, hashState,
                          numBlocks, chunk, room, more, context.J(), context.Buffered(), context.hashState);
      }
      ProgressOffset(cipher, icb, text + chunk, served && Served(|text| % 16, |chunk|, room),
                     context.J(), context.Buffered(), out');
    }
  }

  /** final, after everything has been fed. */
  method End(context: Context, lastRoom: nat, out: seq<Byte>, ghost aad: seq<Byte>, ghost text: seq<Byte>,
             ghost served: bool)
    returns (accepted: bool, out': seq<Byte>, reported: nat)
    requires Streaming(context, aad, text, served, out)
    modifies context, context.aes, context.block
    ensures reported == |out| + |text| % 16
    ensures var cipher, mul, j0 := context.aes.cipher, context.mul, context.j0;
      && (out' == Text(cipher, j0, text) <==> served && |text| % 16 <= lastRoom)
      && (served && |text| % 16 <= lastRoom && !context.decrypt ==>
            accepted && context.tag == Tag(cipher, mul, j0, aad, out'))
      && (served && context.decrypt ==>
            (accepted <==> old(context.tag) == Tag(cipher, mul, j0, aad, text)))
  {
    hide Progress, Authenticated, FinalTag, Tag, Gctr, Ghash, Add32, Inc32;
    ghost var cipher, j0 := context.aes.cipher, context.j0;
    ghost var j, buffered := context.J(), context.Buffered();
    if served {
      AuthenticatedEnd(cipher, context.mul, context.decrypt, j0, aad, text, j, buffered, out,
                       context.hashState, context.numBlocks);
    }
    var last;
    accepted, last, reported := context.Final(lastRoom);
    reported := reported + |out|;
    ProgressEnd(cipher, Inc32(j0), text, served, j, buffered, out, lastRoom, last);
    out' := out + last;
  }

  /** A whole operation on a new context: one update per chunk, then final.  For every chunking and
      every schedule of early returns it computes the text and tag of sections 7.1 and 7.2 exactly
      when every update is served and final has room; a decryption then accepts exactly that tag.  The
      lengths reported add up to that of the text already when every update is served. */
  method Run(cipher: Cipher, mul: Cipher, decrypt: bool, iv: seq<Byte>, givenTag: Block,
             chunks: seq<seq<Byte>>, rooms: seq<nat>, lastRoom: nat, schedule: seq<nat>)
    returns (ok: bool, accepted: bool, out: seq<Byte>, tag: Block, reported: nat)
    requires |iv| == 12 && |rooms| == |chunks|
    ensures var skip := AadUpdates(chunks);
      var data, text := chunks[skip..], Flatten(chunks[skip..]);
      var served := AllServed(data, rooms[skip..], |data|) && |text| % 16 <= lastRoom;
      && (ok && Enciphers(cipher, iv + [0, 0, 0, 1], 1, text, out) <==> served)
      && (ok && reported == |text| <==> AllServed(data, rooms[skip..], |data|))
      && (served && !decrypt ==> accepted && Tags(cipher, mul, iv, Aad(chunks), out, tag))
      && (served && decrypt ==> (accepted <==> Tags(cipher, mul, iv, Aad(chunks), text, givenTag)))
  {
    hide Streaming, Tag, AllServed, Flatten, Aad, Tags, Enciphers, Add32, Gctr;
    var aes := new Routine(cipher, schedule);
    var context := Begin(aes, mul, decrypt, iv, givenTag, chunks);
    var skip := AadUpdates(chunks);
    ghost var aad, text := Aad(chunks), Flatten(chunks[skip..]);
    ghost var served := AllServed(chunks[skip..], rooms[skip..], |chunks[skip..]|);
    ok, out := FeedAll(context, chunks[skip..], rooms[skip..], aad);
    if !ok {
      return false, false, [], givenTag, 0;
    }
    StreamingLength(context, aad, text, served, out);
    accepted, out, reported := End(context, lastRoom, out, aad, text, served);
    tag := context.tag;
    GctrIff(cipher, PreCounter(iv), 1, text, out);
    TagIff(cipher, mul, iv, aad, out, tag);
    TagIff(cipher, mul, iv, aad, text, givenTag);
  }

  /** One update per chunk of text, until one is refused. */
  method FeedAll(context: Context, chunks: seq<seq<Byte>>, rooms: seq<nat>, ghost aad: seq<Byte>)
    returns (ok: bool, out: seq<Byte>)
    requires |rooms| == |chunks| && Streaming(context, aad, [], true, [])
    requires context.firstUpdate || chunks == [] || |chunks[0]| >= 16
    modifies context, context.aes, context.j, context.block
    ensures context.tag == old(context.tag)
    ensures !ok ==> !AllServed(chunks, rooms, |chunks|)
    ensures ok ==> Streaming(context, aad, Flatten(chunks), AllServed(chunks, rooms, |chunks|), out)
  {
    hide Streaming, AllServed, Flatten, Served, Refused;
    out := [];
    ghost var text, served := [], true;
    StreamStart(context.aes.cipher, ZERO_BLOCK, chunks, rooms);
    for i := 0 to |chunks|
      invariant context.tag == old(context.tag)
      invariant context.firstUpdate || chunks == [] || (i == 0 && |chunks[0]| >= 16)
      invariant text == Flatten(chunks[..i]) && served == AllServed(chunks, rooms, i)
      invariant Streaming(context, aad, text, served, out)
    {
      FlattenNext(chunks, i);
      AllServedNext(chunks, rooms, i);
      ok, out := Feed(context, chunks[i], rooms[i], out, aad, text, served);
      if !ok {
        NeverServed(chunks, rooms, i);
        return;
      }
      served := served && Served(|text| % 16, |chunks[i]|, rooms[i]);
      text := text + chunks[i];
    }
    assert chunks[..|chunks|] == chunks;
    ok := true;
  }

  lemma RunStart(cipher: Cipher, mul: Cipher, decrypt: bool, icb: Block)
    ensures Progress(cipher, icb, [], true, icb, [], [])
    ensures Authenticated(mul, decrypt, [], [], [], ZERO_BLOCK, 0)
  {
    Add32Adds(icb, 0, 0);
  }

  lemma AadStart(mul: Cipher, decrypt: bool, aad: seq<Byte>)
    ensures Authenticated(mul, decrypt, aad, [], [], Ghash(mul, ZERO_BLOCK, Padded(aad)), 0)
  {
    GhashEmpty(mul, Ghash(mul, ZERO_BLOCK, Padded(aad)));
  }

  lemma StreamingLength(context: Context, aad: seq<Byte>, text: seq<Byte>, served: bool, out: seq<Byte>)
    requires Streaming(context, aad, text, served, out)
    ensures |out| + |text| % 16 == |text| <==> served
  {
    hide Gctr, Authenticated;
  }

  /** Both directions apply the same key stream. */
  lemma TextTwice(cipher: Cipher, j0: Block, p: seq<Byte>)
    ensures Text(cipher, j0, Text(cipher, j0, p)) == p
  {
    GctrTwice(cipher, Inc32(j0), p);
  }

  /** A way to feed a text to the cipher: its chunks and the room for each. */
  datatype Feeding = Feeding(chunks: seq<seq<Byte>>, rooms: seq<nat>)

  /** The feeding covers the text, and every update is served. */
  ghost predicate Feeds(f: Feeding, text: seq<Byte>) {
    |f.rooms| == |f.chunks| && Flatten(f.chunks) == text && AllServed(f.chunks, f.rooms, |f.chunks|)
  }

  /** Encryption, and decryption of what came out, with any two chunkings and schedules: the plaintext comes
      back and the tag that was produced is accepted; another tag is not. */
  method SealThenOpen(cipher: Cipher, mul: Cipher, iv: seq<Byte>, aad: seq<Byte>, plain: seq<Byte>,
                      seal: Feeding, sealSchedule: seq<nat>, open: seq<Byte> -> Feeding, openSchedule: seq<nat>,
                      forged: Block -> Block)
    returns (back: seq<Byte>, accepted: bool, acceptedForged: bool, tag: Block)
    requires |iv| == 12 && |aad| < 16 && Feeds(seal, plain)
    requires forall c :: |c| == |plain| ==> Feeds(open(c), c)
    ensures back == plain && accepted
    ensures acceptedForged <==> forged(tag) == tag
  {
    hide AllServed, Tag, Flatten, Tags, Enciphers, Gctr, Add32;
    Prefixed(aad, [0], seal);
    var ok, c, len;
    ok, accepted, c, tag, len :=
      Run(cipher, mul, false, iv, ZERO_BLOCK, [aad] + seal.chunks, [0] + seal.rooms, 16, sealSchedule);
    GctrIff(cipher, PreCounter(iv), 1, plain, c);
    var f := open(c);
    assert Feeds(f, c);
    Prefixed(aad, [0], f);
    var again, kept;
    ok, accepted, back, kept, len := Run(cipher, mul, true, iv, tag, [aad] + f.chunks, [0] + f.rooms, 16, openSchedule);
    GctrIff(cipher, PreCounter(iv), 1, c, back);
    TextTwice(cipher, PreCounter(iv), plain);
    TagIff(cipher, mul, iv, aad, c, tag);
    TagIff(cipher, mul, iv, aad, c, forged(tag));
    ok, acceptedForged, again, kept, len :=
      Run(cipher, mul, true, iv, forged(tag), [aad] + f.chunks, [0] + f.rooms, 16, openSchedule);
  }

  /** The additional data goes first. */
  lemma Prefixed(aad: seq<Byte>, room: seq<nat>, f: Feeding)
    requires |aad| < 16 && |room| == 1 && |f.rooms| == |f.chunks|
    ensures AadUpdates([aad] + f.chunks) == 1 && Aad([aad] + f.chunks) == aad
    ensures ([aad] + f.chunks)[1..] == f.chunks && (room + f.rooms)[1..] == f.rooms
  {
  }

  lemma GhashEmpty(mul: Cipher, y: Block)
    ensures Ghash(mul, y, []) == y
  {
  }

  /** Two little-endian words with their 16 bytes reversed are the two lengths, big-endian. */
  lemma LengthBlock(aadBits: nat, textBits: nat)
    ensures Reverse(LittleEndian(textBits, 8) + LittleEndian(aadBits, 8))
         == BigEndian(aadBits, 8) + BigEndian(textBits, 8)
  {
    ReverseConcat(LittleEndian(textBits, 8), LittleEndian(aadBits, 8));
    ReverseLittleEndian(textBits, 8);
    ReverseLittleEndian(aadBits, 8);
  }
}

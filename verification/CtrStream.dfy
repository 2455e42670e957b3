/**
 The OpenSSL provider's streaming AES-128-CTR: partial blocks are buffered in the context, and the
 cipher routine that runs from execute-only memory may return before it has finished.
 */
module CtrStream {
  import opened Bytes
  import opened CounterMode
  import opened XomStream

  class Context {
    const aes: Routine
    const iv: array<Byte>
    const block: array<Byte>
    var blockOffset: nat
    var ctr: nat

    ghost predicate Valid()
      reads this, iv, block
    {
      && iv.Length == 16 && block.Length == 16 && iv != block
      && blockOffset < 16
      && ctr < WORD && ctr == Counter(iv[..])
    }

    ghost function Iv(): (b: Block)
      reads this, iv
      requires iv.Length == 16
    {
      iv[..]
    }

    ghost function Buffered(): (s: seq<Byte>)
      reads this, block
      requires block.Length == 16 && blockOffset < 16
    {
      block[..blockOffset]
    }

    constructor (aes: Routine, icb: Block)
      ensures Valid() && Buffered() == [] && Iv() == icb
      ensures this.aes == aes && fresh(iv) && fresh(block)
    {
      this.aes := aes;
      var v := new Byte[16](i requires 0 <= i < 16 => icb[i]);
      iv := v;
      block := new Byte[16](_ => 0);
      blockOffset := 0;
      ctr := FromBigEndian(icb[12..]);
      new;
      CounterOf(icb, 0);
      assert iv[..] == icb;
    }

    /** aes_128_ctr_cipher: whole blocks only, restarted until the routine has finished them.  The bytes that
        the caller is told of are those at the start of its buffer. */
    method CipherWhole(inp: seq<Byte>, outsize: nat) returns (out: seq<Byte>)
      requires Valid()
      modifies this`ctr, aes, iv
      ensures Valid()
      ensures var n := CipherBlocks(|inp|, outsize);
        && |out| == ByteLength(n) && Iv() == Add32(old(Iv()), n)
        && (n < WORD / 16 ==> out == Gctr(aes.cipher, old(Iv()), inp[..16 * n]))
    {
      hide Gctr, Add32, Counter, CipherBlocks, ByteLength, Overwritten;
      var total := CipherBlocks(|inp|, outsize);
      var remaining := total;
      var buf: seq<Byte> := Zeros(outsize);
      ghost var icb := Iv();
      Add32Adds(icb, 0, 0);
      GctrEmpty(aes.cipher, icb);
      assert inp[..0] == [] && buf[..0] == [];
      while remaining > 0
        invariant 0 <= remaining <= total && |buf| == outsize
        invariant Valid()
        invariant Iv() == Add32(icb, total - remaining)
        invariant total < WORD / 16 ==>
          buf[..16 * (total - remaining)] == Gctr(aes.cipher, icb, inp[..16 * (total - remaining)])
        decreases remaining, |aes.schedule|
      {
        var done := total - remaining;
        var at := ByteLength(done);
        var left, y := aes.Call(iv[..], inp[at..at + 16 * remaining], remaining);
        var processed := remaining - left;
        if total < WORD / 16 {
          assert inp[at..at + 16 * remaining][..16 * processed] == inp[16 * done..16 * (done + processed)];
          GctrContinue(aes.cipher, icb, inp, done, done + processed);
          PrefixGrows(buf, 16 * done, y);
        }
        buf := Overwritten(buf, at, y);
        remaining := left;
        AdvanceCounter(processed);
        Add32Adds(icb, done, processed);
      }
      out := buf[..ByteLength(total)];
    }

    method AdvanceCounter(processed: nat)
      requires Valid()
      modifies this`ctr, iv
      ensures Valid() && Iv() == Add32(old(Iv()), processed)
    {
      hide Counter, WithCounter;
      ctr := (ctr + processed) % WORD;
      StoreCounter(iv, ctr);
    }

    /** aes_128_ctr_stream_update. */
    method Update(inp: seq<Byte>, outsize: nat) returns (ok: bool, out: seq<Byte>)
      requires Valid()
      modifies this, aes, iv, block
      ensures Valid()
      ensures ok <==> !Refused(old(blockOffset), |inp|, outsize)
      ensures !ok ==> out == [] && Buffered() == old(Buffered()) && Iv() == old(Iv())
      ensures ok ==> UpdateStep(aes.cipher, old(Iv()), old(Buffered()), inp, outsize, out, Iv(), Buffered())
    {
      hide Gctr, Add32, Counter, CipherBlocks, ByteLength;
      ghost var data := Buffered() + inp;
      if blockOffset + |inp| < 16 {
        Add32Adds(Iv(), 0, 0);
        GctrEmpty(aes.cipher, Iv());
        assert data[..0] == [];
        Save(block, blockOffset, inp);
        blockOffset := blockOffset + |inp|;
        return true, [];
      }
      if blockOffset > 0 && outsize < 16 {
        return false, [];
      }
      out := UpdateWhole(inp, outsize);
      return true, out;
    }

    /** The buffered block, completed with the first bytes of the input. */
    method CipherFirst(inp: seq<Byte>) returns (out: seq<Byte>, rest: seq<Byte>)
      requires Valid() && blockOffset > 0 && blockOffset + |inp| >= 16
      modifies this`ctr, aes, iv
      ensures Valid() && Iv() == Add32(old(Iv()), 1) && |out| == 16
      ensures out == Gctr(aes.cipher, old(Iv()), (Buffered() + inp)[..16]) && rest == (Buffered() + inp)[16..]
    {
      hide Gctr, Add32, Counter, CipherBlocks, FromBigEndian, ByteLength;
      ghost var data := Buffered() + inp;
      var first := block[..blockOffset] + inp[..16 - blockOffset];
      OneBlock();
      assert first[..16] == first == data[..16];
      out := CipherWhole(first, 16);
      rest := inp[16 - blockOffset..];
    }

    /** An update that completes at least one block. */
    method UpdateWhole(inp: seq<Byte>, outsize: nat) returns (out: seq<Byte>)
      requires Valid() && blockOffset + |inp| >= 16 && !Refused(blockOffset, |inp|, outsize)
      modifies this`ctr, this`blockOffset, aes, iv, block
      ensures Valid()
      ensures UpdateStep(aes.cipher, old(Iv()), old(Buffered()), inp, outsize, out, Iv(), Buffered())
    {
      hide Gctr, Add32, Counter, CipherBlocks, FromBigEndian, ByteLength, UpdateStep, Leftover, UpdateBlocks,
           TailBlocks;
      ghost var buffered, icb := Buffered(), Iv();
      BlocksOf(blockOffset, |inp|, outsize);
      ghost var data := buffered + inp;
      out := [];
      Add32Adds(icb, 0, 0);
      GctrEmpty(aes.cipher, icb);
      assert data[..0] == [];
      var rest := inp;
      var room := outsize;
      ghost var done := 0;
      if blockOffset > 0 {
        out, rest := CipherFirst(inp);
        room := outsize - 16;
        done := 1;
      }
      ghost var n := CipherBlocks(|rest|, room);
      assert rest == data[16 * done..] && n == TailBlocks(|buffered|, |inp|, outsize);
      hide Refused;
      var more := CipherWhole(rest, room);
      Add32Adds(icb, done, n);
      if n < WORD / 16 {
        TailPieces(aes.cipher, icb, data, done, n, out, more);
      }
      Keep(rest);
      LeftoverOfTail(data, done);
      StepDone(aes.cipher, icb, buffered, inp, outsize, done, n, out, more, Iv(), Buffered());
      out := out + more;
    }

    /** The bytes of a block that is not complete wait for the next call. */
    method Keep(rest: seq<Byte>)
      requires Valid()
      modifies this`blockOffset, block
      ensures Valid() && Buffered() == rest[|rest| - |rest| % 16..] && Iv() == old(Iv())
    {
      var keep := |rest| - |rest| % 16;
      Save(block, 0, rest[keep..]);
      blockOffset := |rest| - keep;
    }

    /** aes_128_ctr_stream_final: the padded last block, cut to what the caller has room for. */
    method Final(outsize: nat) returns (out: seq<Byte>)
      requires Valid()
      modifies aes
      ensures Valid()
      ensures out == Gctr(aes.cipher, Iv(), Buffered())[..Min(outsize, blockOffset)]
    {
      hide Gctr;
      GctrEmpty(aes.cipher, Iv());
      if blockOffset == 0 {
        return [];
      }
      var padded := block[..blockOffset] + Zeros(16 - blockOffset);
      var outbuf := aes.CallOne(iv[..], padded);
      GctrPrefix(aes.cipher, Iv(), padded, blockOffset);
      assert padded[..blockOffset] == block[..blockOffset];
      assert outbuf[..blockOffset][..Min(outsize, blockOffset)] == outbuf[..Min(outsize, blockOffset)];
      out := outbuf[..Min(outsize, blockOffset)];
    }
  }

  /** A whole encryption: one update per chunk with the given output room, then final.  It yields
      the one-shot GCTR of the concatenated input for every chunking and every schedule of early
      returns exactly when each call is given what ServedIff asks for and final has room. */
  method Stream(cipher: Cipher, icb: Block, chunks: seq<seq<Byte>>, rooms: seq<nat>, lastRoom: nat,
                schedule: seq<nat>)
    returns (ok: bool, out: seq<Byte>)
    requires |rooms| == |chunks|
    ensures ok && Enciphers(cipher, icb, 0, Flatten(chunks), out)
       <==> AllServed(chunks, rooms, |chunks|) && |Flatten(chunks)| % 16 <= lastRoom
  {
    hide Progress, AllServed, Flatten, Gctr, Add32, Served, UpdateBlocks, Refused, Leftover, Counter, FromBigEndian,
         Min, UpdateStep, TailBlocks, Reported, Enciphers;
    var aes := new Routine(cipher, schedule);
    var context := new Context(aes, icb);
    out := [];
    ghost var text, served := [], true;
    StreamStart(cipher, icb, chunks, rooms);
    for i := 0 to |chunks|
      invariant context.Valid() && context.aes == aes && aes.cipher == cipher
      invariant fresh(context) && fresh(aes) && fresh(context.iv) && fresh(context.block)
      invariant text == Flatten(chunks[..i]) && served == AllServed(chunks, rooms, i)
      invariant |text| % 16 == context.blockOffset
      invariant Progress(cipher, icb, text, served, context.Iv(), context.Buffered(), out)
    {
      FlattenNext(chunks, i);
      AllServedNext(chunks, rooms, i);
      ghost var iv, buffered := context.Iv(), context.Buffered();
      var done, more := context.Update(chunks[i], rooms[i]);
      if !done {
        NeverServed(chunks, rooms, i);
        return false, [];
      }
      ProgressStep(cipher, icb, text, served, iv, buffered, out,
                   chunks[i], rooms[i], more, context.Iv(), context.Buffered());
      out := out + more;
      served := served && Served(|text| % 16, |chunks[i]|, rooms[i]);
      text := text + chunks[i];
      ProgressOffset(cipher, icb, text, served, context.Iv(), context.Buffered(), out);
    }
    assert chunks[..|chunks|] == chunks;
    var last := context.Final(lastRoom);
    ProgressEnd(cipher, icb, text, served, context.Iv(), context.Buffered(), out, lastRoom, last);
    ok, out := true, out + last;
    Add32Adds(icb, 0, 0);
    GctrIff(cipher, icb, 0, text, out);
  }

  /** The first block and the rest together. */
  lemma TailPieces(cipher: Cipher, icb: Block, data: seq<Byte>, done: nat, n: nat, first: seq<Byte>, second: seq<Byte>)
    requires 16 * (done + n) <= |data|
    requires first == Gctr(cipher, icb, data[..16 * done])
    requires second == Gctr(cipher, Add32(icb, done), data[16 * done..][..16 * n])
    ensures first + second == Gctr(cipher, icb, data[..16 * (done + n)])
  {
    hide Gctr, Add32;
    assert data[16 * done..][..16 * n] == data[16 * done..16 * (done + n)];
    GctrContinue(cipher, icb, data, done, done + n);
  }
}

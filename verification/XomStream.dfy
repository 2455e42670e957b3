/**
 What the provider's two streaming ciphers share: the restartable routine in execute-only memory,
 the counter block, the buffer for a partial block, and which updates process all they are given.
 */
module XomStream {
  import opened Bytes
  import opened CounterMode

  function Min(a: nat, b: nat): (m: nat) {
    if a <= b then a else b
  }

  /** Blocks that one call of the raw cipher processes; both counts are C unsigned ints. */
  function CipherBlocks(inl: nat, outsize: nat): (n: nat)
    ensures 16 * n <= inl && 16 * n <= outsize
  {
    Min(inl / 16 % WORD, outsize / 16 % WORD)
  }

  /** The length of n blocks in bytes, as a product of C unsigned ints: offsets into the caller's buffers
      and the length that is reported to it wrap. */
  function ByteLength(n: nat): (r: nat)
    ensures r <= 16 * n && (n < WORD / 16 ==> r == 16 * n) && (n >= WORD / 16 ==> r < 16 * n)
  {
    16 * n % WORD
  }

  /** An update that has a whole block but no room for the buffered one is refused. */
  predicate Refused(offset: nat, inl: nat, outsize: nat) {
    offset + inl >= 16 && offset > 0 && outsize < 16
  }

  /** Blocks that an update processes after the buffered one. */
  function TailBlocks(offset: nat, inl: nat, outsize: nat): (n: nat)
    requires offset < 16 && !Refused(offset, inl, outsize)
  {
    if offset + inl < 16 then 0
    else if offset == 0 then CipherBlocks(inl, outsize)
    else CipherBlocks(inl - (16 - offset), outsize - 16)
  }

  /** Blocks that an update processes when `offset` bytes are buffered. */
  function UpdateBlocks(offset: nat, inl: nat, outsize: nat): (n: nat)
    requires offset < 16 && !Refused(offset, inl, outsize)
  {
    TailBlocks(offset, inl, outsize) + if offset + inl >= 16 && offset > 0 then 1 else 0
  }

  /** The update processes every whole block it has been given, and few enough that no length wraps: the
      caller's side of the bargain. */
  predicate Served(offset: nat, inl: nat, outsize: nat)
    requires offset < 16
  {
    && !Refused(offset, inl, outsize)
    && UpdateBlocks(offset, inl, outsize) == (offset + inl) / 16
    && TailBlocks(offset, inl, outsize) < WORD / 16
  }

  /** What the caller has to provide: room for every whole block, counted modulo 2^32, and fewer than 2^28
      blocks of input (the buffered block aside). */
  lemma ServedIff(offset: nat, inl: nat, outsize: nat)
    requires offset < 16
    ensures Served(offset, inl, outsize) <==>
      || offset + inl < 16
      || (&& (offset > 0 ==> outsize >= 16)
          && var extra := if offset > 0 then 1 else 0;
             (offset + inl) / 16 - extra < WORD / 16
             && (offset + inl) / 16 - extra <= (outsize / 16 - extra) % WORD)
  {
    if offset > 0 && offset + inl >= 16 && outsize >= 16 {
      assert (inl - (16 - offset)) / 16 == (offset + inl) / 16 - 1;
      assert (outsize - 16) / 16 == outsize / 16 - 1;
    }
  }

  lemma ServedShort(offset: nat, inl: nat, outsize: nat)
    requires offset < 16 && Served(offset, inl, outsize)
    ensures !Refused(offset, inl, outsize) && TailBlocks(offset, inl, outsize) < WORD / 16
  {
  }

  /** A call that is too long: all blocks are processed, but the caller is told of fewer bytes. */
  lemma LongCallNotServed()
    ensures !Served(0, WORD + 16, WORD + 16) && UpdateBlocks(0, WORD + 16, WORD + 16) == (WORD + 16) / 16
    ensures ByteLength(UpdateBlocks(0, WORD + 16, WORD + 16)) == 16
  {
  }

  lemma UpdateBlocksBound(offset: nat, inl: nat, outsize: nat)
    requires offset < 16 && !Refused(offset, inl, outsize)
    ensures UpdateBlocks(offset, inl, outsize) <= (offset + inl) / 16
  {
    if offset > 0 && offset + inl >= 16 {
      assert (inl - (16 - offset)) / 16 == (offset + inl) / 16 - 1;
    }
  }

  /** The bytes that wait in the buffer after an update. */
  function Leftover(data: seq<Byte>): (r: seq<Byte>)
    ensures |r| == |data| % 16
  {
    data[|data| - |data| % 16..]
  }

  /** The AES routine that runs from execute-only memory.  It may be interrupted: `schedule` says how
      many blocks it finishes before each early return still to come; afterwards it always
      finishes.  Any finite schedule is possible, zero progress included. */
  class Routine {
    const cipher: Cipher
    var schedule: seq<nat>

    constructor (cipher: Cipher, schedule: seq<nat>)
      ensures this.cipher == cipher && this.schedule == schedule
    {
      this.cipher := cipher;
      this.schedule := schedule;
    }

    /** Returns n - k when k of the n blocks of x are done. */
    method Call(icb: Block, x: seq<Byte>, n: nat) returns (left: nat, y: seq<Byte>)
      requires |x| == 16 * n
      modifies this
      ensures left == if old(schedule) == [] then 0 else n - Min(n, old(schedule)[0])
      ensures schedule == if old(schedule) == [] then [] else old(schedule)[1..]
      ensures y == Gctr(cipher, icb, x[..16 * (n - left)])
    {
      left := 0;
      if schedule != [] {
        left := n - Min(n, schedule[0]);
        schedule := schedule[1..];
      }
      y := Gctr(cipher, icb, x[..16 * (n - left)]);
    }

    /** Repeats the call for one block until it succeeds. */
    method CallOne(icb: Block, x: Block) returns (y: Block)
      modifies this
      ensures y == Gctr(cipher, icb, x)
    {
      hide Gctr;
      var left, out := Call(icb, x, 1);
      while left != 0
        invariant left <= 1
        invariant out == Gctr(cipher, icb, x[..16 * (1 - left)])
        decreases |schedule| + left
      {
        left, out := Call(icb, x, 1);
      }
      assert x[..16] == x;
      y := out;
    }
  }

  /** Copies the counter into the last four bytes of the counter block. */
  method StoreCounter(iv: array<Byte>, ctr: nat)
    requires iv.Length == 16 && ctr < WORD
    modifies iv
    ensures iv[..] == WithCounter(old(iv[..]), ctr)
    ensures Counter(iv[..]) == ctr
  {
    ghost var before := iv[..];
    var bytes := LittleEndian(ctr, 4);
    for i := 0 to 4
      invariant iv[..12] == before[..12]
      invariant forall j :: 0 <= j < i ==> iv[15 - j] == bytes[j]
    {
      iv[15 - i] := bytes[i];
    }
    ReverseLittleEndian(ctr, 4);
    ReverseFour(bytes);
    assert iv[..] == iv[..12] + [iv[12], iv[13], iv[14], iv[15]];
    CounterOf(before, ctr);
  }

  /** The memcpy into a partial block. */
  method Save(block: array<Byte>, at: nat, bytes: seq<Byte>)
    requires block.Length == 16 && at + |bytes| < 16
    modifies block
    ensures block[..at + |bytes|] == old(block[..at]) + bytes
  {
    for i := 0 to |bytes|
      invariant block[..at] == old(block[..at])
      invariant forall j :: 0 <= j < i ==> block[at + j] == bytes[j]
    {
      block[at + i] := bytes[i];
    }
    assert block[..at + |bytes|] == block[..at] + block[at..at + |bytes|];
    assert block[at..at + |bytes|] == bytes;
  }

  /** The whole blocks of a text. */
  function Whole(text: seq<Byte>): (r: seq<Byte>)
    ensures |r| == |text| / 16 * 16 && text == r + Leftover(text)
  {
    text[..|text| - |text| % 16]
  }

  /** Every update up to the n-th is served; the buffer then holds the remainder modulo 16. */
  ghost predicate AllServed(chunks: seq<seq<Byte>>, rooms: seq<nat>, n: nat)
    requires n <= |chunks| <= |rooms|
  {
    forall i :: 0 <= i < n ==> Served(|Flatten(chunks[..i])| % 16, |chunks[i]|, rooms[i])
  }

  lemma FlattenNext(chunks: seq<seq<Byte>>, i: nat)
    requires i < |chunks|
    ensures Flatten(chunks[..i + 1]) == Flatten(chunks[..i]) + chunks[i]
  {
    assert chunks[..i + 1][..i] == chunks[..i];
  }

  lemma AllServedNext(chunks: seq<seq<Byte>>, rooms: seq<nat>, i: nat)
    requires i < |chunks| <= |rooms|
    ensures AllServed(chunks, rooms, i + 1)
       <==> AllServed(chunks, rooms, i) && Served(|Flatten(chunks[..i])| % 16, |chunks[i]|, rooms[i])
  {
    hide Served, Flatten;
  }

  lemma NeverServed(chunks: seq<seq<Byte>>, rooms: seq<nat>, i: nat)
    requires i < |chunks| <= |rooms|
    requires Refused(|Flatten(chunks[..i])| % 16, |chunks[i]|, rooms[i])
    ensures !AllServed(chunks, rooms, |chunks|)
  {
    hide Flatten;
    RefusedNotServed(|Flatten(chunks[..i])| % 16, |chunks[i]|, rooms[i]);
  }

  lemma RefusedNotServed(offset: nat, inl: nat, outsize: nat)
    requires offset < 16 && Refused(offset, inl, outsize)
    ensures !Served(offset, inl, outsize)
  {
  }

  /** The bytes that an update reports to its caller. */
  function Reported(offset: nat, inl: nat, outsize: nat): (r: nat)
    requires offset < 16 && !Refused(offset, inl, outsize)
  {
    ByteLength(TailBlocks(offset, inl, outsize)) + if offset + inl >= 16 && offset > 0 then 16 else 0
  }

  /** An update that is not served reports less than the whole blocks of the text. */
  lemma CountServed(text: seq<Byte>, chunk: seq<Byte>, outsize: nat)
    requires !Refused(|text| % 16, |chunk|, outsize)
    ensures var n, r := UpdateBlocks(|text| % 16, |chunk|, outsize), Reported(|text| % 16, |chunk|, outsize);
      if Served(|text| % 16, |chunk|, outsize) then n == (|text| % 16 + |chunk|) / 16 && r == 16 * n
      else r + |text + chunk| % 16 < |text| % 16 + |chunk|
    ensures Reported(|text| % 16, |chunk|, outsize) + |text + chunk| % 16 <= |text| % 16 + |chunk|
  {
    hide CipherBlocks, ByteLength;
    UpdateBlocksBound(|text| % 16, |chunk|, outsize);
  }

  lemma OneBlock()
    ensures CipherBlocks(16, 16) == 1 && ByteLength(1) == 16
  {
  }

  /** Writing just behind a prefix of the caller's buffer extends it. */
  lemma PrefixGrows(buf: seq<Byte>, at: nat, y: seq<Byte>)
    requires at + |y| <= |buf|
    ensures Overwritten(buf, at, y)[..at + |y|] == buf[..at] + y
  {
  }

  /** What is left over does not depend on whole blocks in front. */
  lemma LeftoverOfTail(data: seq<Byte>, done: nat)
    requires 16 * done <= |data|
    ensures var rest := data[16 * done..];
      rest[|rest| - |rest| % 16..] == Leftover(data)
  {
    var rest := data[16 * done..];
    assert |rest| % 16 == |data| % 16;
  }

  lemma ReverseStep(s: seq<Byte>)
    requires s != []
    ensures Reverse(s) == Reverse(s[1..]) + [s[0]] && Reverse([]) == []
  {
  }

  lemma ReverseFour(s: seq<Byte>)
    requires |s| == 4
    ensures Reverse(s) == [s[3], s[2], s[1], s[0]]
  {
    ReverseStep(s);
    ReverseStep(s[1..]);
    ReverseStep(s[2..]);
    ReverseStep(s[3..]);
    hide Reverse;
    assert s[1..][1..] == s[2..] && s[2..][1..] == s[3..] && s[3..][1..] == [];
  }

  /** The whole blocks of a longer text. */
  lemma WholeAppend(text: seq<Byte>, chunk: seq<Byte>)
    ensures var data := Leftover(text) + chunk;
      && text + chunk == Whole(text) + data
      && Whole(text + chunk) == Whole(text) + data[..16 * (|data| / 16)]
      && Leftover(data) == Leftover(text + chunk)
  {
    var data := Leftover(text) + chunk;
    var q, n := |text| / 16, |data| / 16;
    assert text + chunk == Whole(text) + data;
    WholeOffset(q, |data|);
    assert |text + chunk| == 16 * q + |data| && |Whole(text)| == 16 * q;
    assert (text + chunk)[..16 * (q + n)] == Whole(text) + data[..16 * n];
  }

  lemma WholeOffset(q: nat, d: nat)
    ensures (16 * q + d) / 16 == q + d / 16 && (16 * q + d) % 16 == d % 16
  {
  }

  /** A served update extends the encrypted prefix by exactly the whole blocks it completes. */
  lemma ServedStep(cipher: Cipher, icb: Block, text: seq<Byte>, chunk: seq<Byte>)
    ensures var data := Leftover(text) + chunk;
      var n := |data| / 16;
      && Gctr(cipher, icb, Whole(text)) + Gctr(cipher, Add32(icb, |text| / 16), data[..16 * n])
         == Gctr(cipher, icb, Whole(text + chunk))
      && Add32(Add32(icb, |text| / 16), n) == Add32(icb, |text + chunk| / 16)
      && Leftover(data) == Leftover(text + chunk)
  {
    hide Gctr, Add32, Leftover, Whole;
    var data := Leftover(text) + chunk;
    var n := |data| / 16;
    WholeAppend(text, chunk);
    WholeOffset(|text| / 16, |data|);
    GctrSplit(cipher, icb, Whole(text), data[..16 * n]);
    Add32Adds(icb, |text| / 16, n);
  }

  /** How far a stream has come: what has been output for the text given so far. */
  ghost predicate Progress(cipher: Cipher, icb: Block, text: seq<Byte>, served: bool,
                           iv: Block, buffered: seq<Byte>, out: seq<Byte>)
  {
    && |buffered| == |text| % 16
    && (served ==> out == Gctr(cipher, icb, Whole(text)) && iv == Add32(icb, |text| / 16)
                   && buffered == Leftover(text))
    && (!served ==> |out| + |text| % 16 < |text|)
  }

  /** What one accepted update does to the context. */
  ghost predicate UpdateStep(cipher: Cipher, iv: Block, buffered: seq<Byte>, chunk: seq<Byte>, room: nat,
                             more: seq<Byte>, iv': Block, buffered': seq<Byte>)
    requires |buffered| < 16
  {
    && !Refused(|buffered|, |chunk|, room)
    && var data, n := buffered + chunk, UpdateBlocks(|buffered|, |chunk|, room);
       && 16 * n <= |data|
       && |more| == Reported(|buffered|, |chunk|, room)
       && (TailBlocks(|buffered|, |chunk|, room) < WORD / 16 ==> more == Gctr(cipher, iv, data[..16 * n]))
       && iv' == Add32(iv, n)
       && buffered' == Leftover(data)
  }

  /** The blocks of an update that completes at least one: the buffered one, and those of the rest. */
  lemma BlocksOf(offset: nat, inl: nat, outsize: nat)
    requires offset < 16 <= offset + inl && !Refused(offset, inl, outsize)
    ensures var done := if offset > 0 then 1 else 0;
      && 16 * done <= offset + inl
      && TailBlocks(offset, inl, outsize) == CipherBlocks(offset + inl - 16 * done, outsize - 16 * done)
      && UpdateBlocks(offset, inl, outsize) == done + TailBlocks(offset, inl, outsize)
  {
    hide CipherBlocks;
  }

  /** The buffered block, if there is one, and the whole blocks after it make the step. */
  lemma StepDone(cipher: Cipher, icb: Block, buffered: seq<Byte>, inp: seq<Byte>, outsize: nat, done: nat, n: nat,
                 first: seq<Byte>, second: seq<Byte>, iv: Block, kept: seq<Byte>)
    requires |buffered| < 16 <= |buffered| + |inp| && !Refused(|buffered|, |inp|, outsize)
    requires done == if buffered == [] then 0 else 1
    requires n == TailBlocks(|buffered|, |inp|, outsize) && |first| == 16 * done && |second| == ByteLength(n)
    requires 16 * (done + n) <= |buffered + inp| && iv == Add32(icb, done + n) && kept == Leftover(buffered + inp)
    requires n < WORD / 16 ==> first + second == Gctr(cipher, icb, (buffered + inp)[..16 * (done + n)])
    ensures UpdateStep(cipher, icb, buffered, inp, outsize, first + second, iv, kept)
  {
    hide Gctr, Add32, TailBlocks, ByteLength, Leftover;
  }

  lemma ProgressStep(cipher: Cipher, icb: Block, text: seq<Byte>, served: bool, iv: Block,
                     buffered: seq<Byte>, out: seq<Byte>, chunk: seq<Byte>, room: nat,
                     more: seq<Byte>, iv': Block, buffered': seq<Byte>)
    requires Progress(cipher, icb, text, served, iv, buffered, out)
    requires UpdateStep(cipher, iv, buffered, chunk, room, more, iv', buffered')
    ensures Progress(cipher, icb, text + chunk, served && Served(|text| % 16, |chunk|, room),
                     iv', buffered', out + more)
  {
    hide Gctr, Add32, UpdateBlocks, Refused, TailBlocks, Reported;
    ServedStep(cipher, icb, text, chunk);
    CountServed(text, chunk, room);
  }

  lemma ProgressOffset(cipher: Cipher, icb: Block, text: seq<Byte>, served: bool,
                       iv: Block, buffered: seq<Byte>, out: seq<Byte>)
    requires Progress(cipher, icb, text, served, iv, buffered, out)
    ensures |buffered| == |text| % 16
  {
  }

  lemma ProgressEnd(cipher: Cipher, icb: Block, text: seq<Byte>, served: bool, iv: Block,
                    buffered: seq<Byte>, out: seq<Byte>, lastRoom: nat, last: seq<Byte>)
    requires Progress(cipher, icb, text, served, iv, buffered, out)
    requires last == Gctr(cipher, iv, buffered)[..Min(lastRoom, |buffered|)]
    ensures out + last == Gctr(cipher, icb, text) <==> served && |text| % 16 <= lastRoom
  {
    hide Gctr, Add32;
    GctrSplit(cipher, icb, Whole(text), Leftover(text));
  }

  lemma StreamStart(cipher: Cipher, icb: Block, chunks: seq<seq<Byte>>, rooms: seq<nat>)
    requires |chunks| <= |rooms|
    ensures AllServed(chunks, rooms, 0) && Flatten(chunks[..0]) == []
    ensures Progress(cipher, icb, [], true, icb, [], [])
  {
    Add32Adds(icb, 0, 0);
  }
}

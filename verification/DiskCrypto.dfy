/**
 The cipher modes of the vTPM disk: a counter mode with a 64-bit little-endian counter, on buffers in
 one memory that may overlap, and CMAC.
 */
module DiskCrypto {
  import opened Bytes

  const LONG: nat := 0x1_0000_0000_0000_0000

  /* Counter mode. */

  /** The n-th counter block: the second 64-bit word counts, in the machine's byte order. */
  function CounterBlock(iv: Block, n: nat): (r: Block) {
    iv[..8] + LittleEndian((FromLittleEndian(iv[8..]) + n) % LONG, 8)
  }

  lemma LongIs()
    ensures Pow256(8) == LONG
  {
  }

  lemma CounterFirst(iv: Block)
    ensures CounterBlock(iv, 0) == iv
  {
    LongIs();
    hide Pow256, LittleEndian, FromLittleEndian;
    FromLittleEndianRoundTrip(iv[8..]);
    assert iv == iv[..8] + iv[8..];
  }

  lemma CounterNext(iv: Block, n: nat)
    ensures CounterBlock(CounterBlock(iv, n), 1) == CounterBlock(iv, n + 1)
  {
    LongIs();
    hide Pow256, LittleEndian, FromLittleEndian;
    var x := FromLittleEndian(iv[8..]) + n;
    LittleEndianRoundTrip(x % LONG, 8);
    assert CounterBlock(iv, n)[8..] == LittleEndian(x % LONG, 8);
    assert CounterBlock(iv, n)[..8] == iv[..8];
    WrapNext(x);
  }

  lemma WrapNext(x: nat)
    ensures (x % LONG + 1) % LONG == (x + 1) % LONG
  {
  }

  /** cb is iv with its second 64-bit word, in the machine's byte order, advanced by n. */
  ghost predicate CountsFrom(iv: Block, n: nat, cb: Block) {
    && cb[..8] == iv[..8]
    && FromLittleEndian(cb[8..]) == (FromLittleEndian(iv[8..]) + n) % 0x1_0000_0000_0000_0000
  }

  /** There is exactly one such block. */
  lemma CounterCounts(iv: Block, n: nat, cb: Block)
    ensures CountsFrom(iv, n, cb) <==> cb == CounterBlock(iv, n)
  {
    LongIs();
    hide Pow256, LittleEndian, FromLittleEndian;
    var r := CounterBlock(iv, n);
    LittleEndianRoundTrip((FromLittleEndian(iv[8..]) + n) % LONG, 8);
    assert r[..8] == iv[..8] && r[8..] == LittleEndian((FromLittleEndian(iv[8..]) + n) % LONG, 8);
    FromLittleEndianRoundTrip(cb[8..]);
    assert cb == cb[..8] + cb[8..];
  }

  /** Counters that are less than 2^64 apart give different blocks. */
  lemma CountersDiffer(iv: Block, m: nat, n: nat)
    requires m < n < m + LONG
    ensures CounterBlock(iv, m) != CounterBlock(iv, n)
  {
    hide CounterBlock, FromLittleEndian;
    CounterCounts(iv, m, CounterBlock(iv, m));
    CounterCounts(iv, n, CounterBlock(iv, n));
    Apart(FromLittleEndian(iv[8..]) + m, n - m);
  }

  lemma Apart(a: nat, d: nat)
    requires 0 < d < LONG
    ensures a % LONG != (a + d) % LONG
  {
  }

  function KeyByte(key: Cipher, iv: Block, i: nat): (r: Byte) {
    key(CounterBlock(iv, i / 16))[i % 16]
  }

  /** Counter mode: every byte is combined with its byte of the key stream. */
  function Ctr(key: Cipher, iv: Block, data: seq<Byte>): (r: seq<Byte>)
    ensures |r| == |data|
  {
    seq(|data|, i requires 0 <= i < |data| => Xor(data[i], KeyByte(key, iv, i)))
  }

  /** y is x in counter mode: byte i is combined with byte i % 16 of the enciphered counter i / 16. */
  ghost predicate Enciphers(key: Cipher, iv: Block, x: seq<Byte>, y: seq<Byte>) {
    |y| == |x| && forall i :: 0 <= i < |x| ==> Combined(key, iv, i / 16, i % 16, x[i], y[i])
  }

  ghost predicate Combined(key: Cipher, iv: Block, n: nat, j: nat, a: Byte, b: Byte)
    requires j < 16
  {
    forall cb: Block :: CountsFrom(iv, n, cb) ==> b == Xor(a, key(cb)[j])
  }

  lemma CombinedIff(key: Cipher, iv: Block, n: nat, j: nat, a: Byte, b: Byte)
    requires j < 16
    ensures Combined(key, iv, n, j, a, b) <==> b == Xor(a, key(CounterBlock(iv, n))[j])
  {
    hide CounterBlock, CountsFrom, Xor;
    CounterCounts(iv, n, CounterBlock(iv, n));
    forall cb: Block | CountsFrom(iv, n, cb) ensures cb == CounterBlock(iv, n) {
      CounterCounts(iv, n, cb);
    }
  }

  /** The function is that, and nothing else is. */
  lemma CtrIff(key: Cipher, iv: Block, x: seq<Byte>, y: seq<Byte>)
    ensures Enciphers(key, iv, x, y) <==> y == Ctr(key, iv, x)
  {
    hide CounterBlock, Combined, Xor;
    var z := Ctr(key, iv, x);
    if |y| == |x| {
      forall i | 0 <= i < |x| ensures Combined(key, iv, i / 16, i % 16, x[i], y[i]) <==> y[i] == z[i] {
        CombinedIff(key, iv, i / 16, i % 16, x[i], y[i]);
      }
    }
  }

  lemma CtrTwice(key: Cipher, iv: Block, data: seq<Byte>)
    ensures Ctr(key, iv, Ctr(key, iv, data)) == data
  {
    var once := Ctr(key, iv, data);
    forall i | 0 <= i < |data| ensures Xor(once[i], KeyByte(key, iv, i)) == data[i] {
      XorLaws(data[i], KeyByte(key, iv, i), 0);
    }
  }

  /** The ranges do not overlap, or the data lies just behind the room for the IV. */
  predicate Compatible(target: nat, targetSize: nat, src: nat, size: nat) {
    || src + size <= target
    || target + targetSize <= src
    || src == target + 16
  }

  /** memcpy, from a buffer of its own. */
  method Put(mem: array<Byte>, dst: nat, data: seq<Byte>)
    requires dst + |data| <= mem.Length
    modifies mem
    ensures mem[..] == Overwritten(old(mem[..]), dst, data)
  {
    for j := 0 to |data|
      invariant forall i :: 0 <= i < j ==> mem[dst + i] == data[i]
      invariant forall i :: 0 <= i < mem.Length && !(dst <= i < dst + j) ==> mem[i] == old(mem[i])
    {
      mem[dst + j] := data[j];
    }
  }

  /** When aes_encrypt_ctr does not abort. */
  predicate Fits(targetSize: nat, size: nat)
    requires targetSize >= 16
  {
    var t := targetSize - 16;
    size <= t && (t % 16 == 0 || size > t / 16 * 16)
  }

  /** The first `done` bytes have been enciphered into memory m, which was m0. */
  ghost predicate Enciphered(m0: seq<Byte>, m: seq<Byte>, target: nat, targetSize: nat, src: nat, size: nat,
                             key: Cipher, iv: Block, data: seq<Byte>, done: nat)
  {
    && |m| == |m0| && targetSize == 16 + |data| && target + targetSize <= |m| && src + size <= |m|
    && done <= |data| && size <= |data| && done % 16 == 0
    && m[target..target + 16] == iv
    && (forall i :: 0 <= i < done ==> m[target + 16 + i] == Xor(data[i], KeyByte(key, iv, i)))
    && (forall i :: done <= i < size ==> m[src + i] == data[i])
    && (forall i :: 0 <= i < |m| && !(target <= i < target + targetSize) ==> m[i] == m0[i])
  }

  lemma OverwrittenAt(m: seq<Byte>, at: nat, data: seq<Byte>, i: nat)
    requires at + |data| <= |m| && i < |m|
    ensures Overwritten(m, at, data)[i] == if at <= i < at + |data| then data[i - at] else m[i]
  {
  }

  /** One more block, or the end of the data. */
  lemma EncipheredNext(m0: seq<Byte>, m: seq<Byte>, target: nat, targetSize: nat, src: nat, size: nat, key: Cipher,
                       iv: Block, data: seq<Byte>, done: nat, block: seq<Byte>)
    requires Enciphered(m0, m, target, targetSize, src, size, key, iv, data, done)
    requires Compatible(target, targetSize, src, size) && |block| <= 16 && done + |block| <= |data|
    requires forall i :: 0 <= i < |block| ==> block[i] == Xor(data[done + i], key(CounterBlock(iv, done / 16))[i])
    ensures var m' := Overwritten(m, target + 16 + done, block);
      && (|block| == 16 ==> Enciphered(m0, m', target, targetSize, src, size, key, iv, data, done + 16))
      && (done + |block| == |data| ==> m'[target..target + targetSize] == iv + Ctr(key, iv, data))
      && (forall i :: 0 <= i < |m| && !(target <= i < target + targetSize) ==> m'[i] == m0[i])
  {
    hide CounterBlock, Overwritten, Ctr, Xor;
    var out := target + 16;
    var m' := Overwritten(m, out + done, block);
    forall i | 0 <= i < |m|
      ensures m'[i] == if out + done <= i < out + done + |block| then block[i - out - done] else m[i]
    {
      OverwrittenAt(m, out + done, block, i);
    }
    forall i | 0 <= i < done + |block| ensures m'[out + i] == Xor(data[i], KeyByte(key, iv, i)) {
      if i >= done {
        KeyBytes(key, iv, done, i - done);
        assert data[i] == data[done + (i - done)];
      }
    }
    forall i | 0 <= i < 16 ensures m'[target + i] == iv[i] {
      assert m[target..target + 16][i] == iv[i];
    }
    if done + |block| == |data| {
      EncipheredAll(m', target, key, iv, data);
    }
    assert m'[target..target + 16] == iv;
  }

  lemma EncipheredAll(m: seq<Byte>, target: nat, key: Cipher, iv: Block, data: seq<Byte>)
    requires target + 16 + |data| <= |m| && forall i :: 0 <= i < 16 ==> m[target + i] == iv[i]
    requires forall i :: 0 <= i < |data| ==> m[target + 16 + i] == Xor(data[i], KeyByte(key, iv, i))
    ensures m[target..target + 16 + |data|] == iv + Ctr(key, iv, data)
  {
    hide KeyByte, Xor;
    var s := m[target..target + 16 + |data|];
    forall i | 0 <= i < |s| ensures s[i] == (iv + Ctr(key, iv, data))[i] {
      if i >= 16 {
        assert s[i] == m[target + 16 + (i - 16)];
      }
    }
  }

  /** The key stream, block by block. */
  lemma KeyBytes(key: Cipher, iv: Block, done: nat, i: nat)
    requires done % 16 == 0 && i < 16
    ensures KeyByte(key, iv, done + i) == key(CounterBlock(iv, done / 16))[i]
  {
    hide CounterBlock;
    assert (done + i) / 16 == done / 16 && (done + i) % 16 == i;
  }

  /** aes_encrypt_ctr: the IV, then the plaintext padded with zeros to the size of the target, enciphered.
      ok is false where the C code aborts. */
  method EncryptCtr(mem: array<Byte>, target: nat, targetSize: nat, src: nat, size: nat, key: Cipher, iv: Block)
    returns (ok: bool)
    requires targetSize >= 16 && target + targetSize <= mem.Length && src + size <= mem.Length
    requires Compatible(target, targetSize, src, size)
    modifies mem
    ensures ok <==> Fits(targetSize, size)
    ensures ok ==>
      && mem[target..target + 16] == iv
      && Enciphers(key, iv, old(mem[src..src + size]) + Zeros(targetSize - 16 - size),
                   mem[target + 16..target + targetSize])
    ensures forall i :: 0 <= i < mem.Length && !(target <= i < target + targetSize) ==> mem[i] == old(mem[i])
  {
    hide Ctr, CounterBlock, Overwritten, Enciphered, Compatible, Fits, Enciphers;
    ghost var m0 := mem[..];
    var room := targetSize - 16;
    ghost var data := mem[src..src + size] + Zeros(if size <= room then room - size else 0);
    Put(mem, target, iv);
    if size > room {
      IvOnly(m0, target, iv);
      TooLarge(targetSize, size);
      return false;
    }
    EncipheredFirst(m0, target, targetSize, src, size, key, iv, data);
    var ctr, done := EncryptBlocks(mem, target, targetSize, src, size, key, iv, m0, data);
    if done < size {
      var complete;
      ctr, done, complete := EncryptPartial(mem, target, targetSize, src, size, key, iv, ctr, done, m0, data);
      if complete {
        FitsPartial(targetSize, size);
        Layout(mem[..], target, targetSize, key, iv, data);
        return true;
      }
    }
    ghost var start := done;
    WithinTarget(m0, mem[..], target, targetSize, src, size, key, iv, data, done);
    done := EncryptPadding(mem, target, targetSize, src, size, key, iv, ctr, done, m0, data);
    ok := room == done;
    FitsWhole(targetSize, size, start, done);
    EncipheredNext(m0, mem[..], target, targetSize, src, size, key, iv, data, done, []);
    assert Overwritten(mem[..], target + 16 + done, []) == mem[..] by { OverwrittenNone(mem[..], target + 16 + done); }
    if ok {
      Layout(mem[..], target, targetSize, key, iv, data);
    }
  }

  /** The IV, and behind it the ciphertext. */
  lemma Layout(m: seq<Byte>, target: nat, targetSize: nat, key: Cipher, iv: Block, data: seq<Byte>)
    requires targetSize == 16 + |data| && target + targetSize <= |m|
    requires m[target..target + targetSize] == iv + Ctr(key, iv, data)
    ensures m[target..target + 16] == iv
    ensures m[target + 16..target + targetSize] == Ctr(key, iv, data)
    ensures Enciphers(key, iv, data, m[target + 16..target + targetSize])
  {
    hide Ctr;
    var all := m[target..target + targetSize];
    assert m[target..target + 16] == all[..16] && m[target + 16..target + targetSize] == all[16..];
    CtrIff(key, iv, data, m[target + 16..target + targetSize]);
  }

  /** The loop over the whole blocks of the plaintext. */
  method EncryptBlocks(mem: array<Byte>, target: nat, targetSize: nat, src: nat, size: nat, key: Cipher, iv: Block,
                       ghost m0: seq<Byte>, ghost data: seq<Byte>)
    returns (ctr: Block, done: nat)
    requires Enciphered(m0, mem[..], target, targetSize, src, size, key, iv, data, 0)
    requires Compatible(target, targetSize, src, size)
    modifies mem
    ensures done == size / 16 * 16 && ctr == CounterBlock(iv, done / 16)
    ensures Enciphered(m0, mem[..], target, targetSize, src, size, key, iv, data, done)
  {
    hide Ctr, CounterBlock, Overwritten, Compatible, Xor;
    ctr, done := iv, 0;
    CounterFirst(iv);
    assert target + targetSize <= mem.Length && targetSize == 16 + |data| && size <= |data| && src + size <= mem.Length;
    hide Enciphered;
    while size - done >= 16
      invariant 0 <= done <= size && done % 16 == 0 && ctr == CounterBlock(iv, done / 16)
      invariant Enciphered(m0, mem[..], target, targetSize, src, size, key, iv, data, done)
    {
      ghost var m := mem[..];
      SourceIntact(m0, m, target, targetSize, src, size, key, iv, data, done);
      var block := XorSeq(mem[src + done..src + done + 16], key(ctr));
      assert m[src + done..src + done + 16] == mem[src + done..src + done + 16];
      Put(mem, target + 16 + done, block);
      EncipheredNext(m0, m, target, targetSize, src, size, key, iv, data, done, block);
      CounterNext(iv, done / 16);
      ctr, done := CounterBlock(ctr, 1), done + 16;
    }
  }

  /** The last, partial block of the plaintext; complete if it also ends the target. */
  method EncryptPartial(mem: array<Byte>, target: nat, targetSize: nat, src: nat, size: nat, key: Cipher, iv: Block,
                        ctr: Block, done: nat, ghost m0: seq<Byte>, ghost data: seq<Byte>)
    returns (ctr': Block, done': nat, complete: bool)
    requires Enciphered(m0, mem[..], target, targetSize, src, size, key, iv, data, done) && done < size < done + 16
    requires Compatible(target, targetSize, src, size) && ctr == CounterBlock(iv, done / 16)
    requires forall i :: size <= i < |data| ==> data[i] == 0
    modifies mem
    ensures complete <==> targetSize - 16 - done < 16
    ensures complete ==>
      && mem[target..target + targetSize] == iv + Ctr(key, iv, data)
      && forall i :: 0 <= i < mem.Length && !(target <= i < target + targetSize) ==> mem[i] == m0[i]
    ensures !complete ==>
      && done' == done + 16 && ctr' == CounterBlock(iv, done' / 16)
      && Enciphered(m0, mem[..], target, targetSize, src, size, key, iv, data, done')
  {
    hide Ctr, CounterBlock, Overwritten, Compatible;
    ghost var m := mem[..];
    var room := targetSize - 16;
    SourceIntact(m0, m, target, targetSize, src, size, key, iv, data, done);
    assert target + targetSize <= mem.Length && room == |data| && size <= |data| && done % 16 == 0;
    hide Enciphered;
    var last := mem[src + done..src + size] + Zeros(16 - (size - done));
    var block := XorSeq(last, key(ctr));
    assert forall i :: 0 <= i < 16 && done + i < room ==> last[i] == data[done + i];
    if room - done < 16 {
      Put(mem, target + 16 + done, block[..room - done]);
      EncipheredNext(m0, m, target, targetSize, src, size, key, iv, data, done, block[..room - done]);
      return ctr, done, true;
    }
    Put(mem, target + 16 + done, block);
    EncipheredNext(m0, m, target, targetSize, src, size, key, iv, data, done, block);
    CounterNext(iv, done / 16);
    return CounterBlock(ctr, 1), done + 16, false;
  }

  /** The loop that fills the rest of the target with key stream. */
  method EncryptPadding(mem: array<Byte>, target: nat, targetSize: nat, src: nat, size: nat, key: Cipher, iv: Block,
                        ctr: Block, done: nat, ghost m0: seq<Byte>, ghost data: seq<Byte>)
    returns (done': nat)
    requires Enciphered(m0, mem[..], target, targetSize, src, size, key, iv, data, done) && size <= done
    requires Compatible(target, targetSize, src, size) && ctr == CounterBlock(iv, done / 16)
    requires forall i :: size <= i < |data| ==> data[i] == 0
    modifies mem
    ensures done' == done + (targetSize - 16 - done) / 16 * 16
    ensures Enciphered(m0, mem[..], target, targetSize, src, size, key, iv, data, done')
  {
    hide Ctr, CounterBlock, Overwritten, Compatible;
    assert target + targetSize <= mem.Length && targetSize == 16 + |data| && done <= |data| && done % 16 == 0;
    hide Enciphered;
    var c := ctr;
    done' := done;
    while targetSize - 16 - done' >= 16
      invariant done <= done' <= |data| && done' % 16 == 0 && c == CounterBlock(iv, done' / 16)
      invariant Enciphered(m0, mem[..], target, targetSize, src, size, key, iv, data, done')
    {
      ghost var m := mem[..];
      Put(mem, target + 16 + done', key(c));
      ZeroXor(data, done', key(c));
      EncipheredNext(m0, m, target, targetSize, src, size, key, iv, data, done', key(c));
      CounterNext(iv, done' / 16);
      c, done' := CounterBlock(c, 1), done' + 16;
    }
  }

  /** The first `done` bytes have been deciphered into memory m, which was m0. */
  ghost predicate Deciphered(m0: seq<Byte>, m: seq<Byte>, target: nat, size: nat, body: nat, key: Cipher, iv: Block,
                             data: seq<Byte>, done: nat)
  {
    && |m| == |m0| && |data| == size && target + size <= |m| && body + size <= |m| && done <= size
    && (forall i :: 0 <= i < done ==> m[target + i] == Xor(data[i], KeyByte(key, iv, i)))
    && (forall i :: done <= i < size ==> m[body + i] == data[i])
    && (forall i :: 0 <= i < |m| && !(target <= i < target + size) ==> m[i] == m0[i])
  }

  lemma DecipheredNext(m0: seq<Byte>, m: seq<Byte>, target: nat, size: nat, body: nat, key: Cipher, iv: Block,
                       data: seq<Byte>, done: nat, block: seq<Byte>)
    requires Deciphered(m0, m, target, size, body, key, iv, data, done) && done % 16 == 0
    requires body == target || body + size <= target || target + size <= body
    requires |block| <= 16 && done + |block| <= size
    requires forall i :: 0 <= i < |block| ==> block[i] == Xor(data[done + i], key(CounterBlock(iv, done / 16))[i])
    ensures Deciphered(m0, Overwritten(m, target + done, block), target, size, body, key, iv, data, done + |block|)
  {
    hide CounterBlock, Overwritten;
    var m' := Overwritten(m, target + done, block);
    forall i | 0 <= i < |m|
      ensures m'[i] == if target + done <= i < target + done + |block| then block[i - target - done] else m[i]
    {
      OverwrittenAt(m, target + done, block, i);
    }
    forall i | 0 <= i < done + |block| ensures m'[target + i] == Xor(data[i], KeyByte(key, iv, i)) {
      if i >= done {
        KeyBytes(key, iv, done, i - done);
        assert data[i] == data[done + (i - done)];
      }
    }
  }

  lemma CipherIntact(m0: seq<Byte>, m: seq<Byte>, target: nat, size: nat, body: nat, key: Cipher, iv: Block,
                     data: seq<Byte>, done: nat)
    requires Deciphered(m0, m, target, size, body, key, iv, data, done)
    ensures |data| == size && body + size <= |m| && m[body + done..body + size] == data[done..]
    ensures done + 16 <= size ==> m[body + done..body + done + 16] == data[done..done + 16]
  {
  }

  lemma DecipheredAll(m0: seq<Byte>, m: seq<Byte>, target: nat, size: nat, body: nat, key: Cipher, iv: Block,
                      data: seq<Byte>)
    requires Deciphered(m0, m, target, size, body, key, iv, data, size)
    ensures m[target..target + size] == Ctr(key, iv, data)
    ensures forall i :: 0 <= i < |m| && !(target <= i < target + size) ==> m[i] == m0[i]
  {
  }

  /** aes_decrypt_ctr: the source is the IV and then the ciphertext.  ok is false where the C code aborts. */
  method DecryptCtr(mem: array<Byte>, target: nat, size: nat, src: nat, srcSize: nat, key: Cipher) returns (ok: bool)
    requires srcSize >= 16 && src + srcSize <= mem.Length && target + size <= mem.Length
    requires target == src + 16 || target + size <= src || src + srcSize <= target
    modifies mem
    ensures ok <==> size <= srcSize - 16
    ensures ok ==>
      Enciphers(key, old(mem[src..src + 16]), old(mem[src + 16..src + 16 + size]), mem[target..target + size])
    ensures forall i :: 0 <= i < mem.Length && !(target <= i < target + size) ==> mem[i] == old(mem[i])
  {
    hide Ctr, CounterBlock, Overwritten, Deciphered, Enciphers;
    ghost var m0 := mem[..];
    var body := src + 16;
    var iv: Block := mem[src..body];
    if size > srcSize - 16 {
      return false;
    }
    ghost var data := mem[body..body + size];
    NothingDeciphered(m0, target, size, body, key, iv);
    assert Deciphered(m0, mem[..], target, size, body, key, iv, data, 0);
    var ctr, done := DecryptBlocks(mem, target, size, body, key, iv, m0, data);
    if done < size {
      ghost var m := mem[..];
      CipherIntact(m0, m, target, size, body, key, iv, data, done);
      var last := mem[body + done..body + size] + Zeros(16 - (size - done));
      var block := XorSeq(last, key(ctr))[..size - done];
      Put(mem, target + done, block);
      DecipheredNext(m0, m, target, size, body, key, iv, data, done, block);
    }
    DecipheredAll(m0, mem[..], target, size, body, key, iv, data);
    assert mem[..][target..target + size] == mem[target..target + size];
    CtrIff(key, iv, data, mem[target..target + size]);
    ok := true;
  }

  /** The whole blocks of the source. */
  method DecryptBlocks(mem: array<Byte>, target: nat, size: nat, body: nat, key: Cipher, iv: Block, ghost m0: seq<Byte>,
                       ghost data: seq<Byte>)
    returns (ctr: Block, done: nat)
    requires target + size <= mem.Length && body + size <= mem.Length
    requires target == body || target + size <= body || body + size <= target
    requires Deciphered(m0, mem[..], target, size, body, key, iv, data, 0)
    modifies mem
    ensures done == size / 16 * 16 && ctr == CounterBlock(iv, done / 16)
    ensures Deciphered(m0, mem[..], target, size, body, key, iv, data, done)
  {
    hide Ctr, CounterBlock, Overwritten, Deciphered;
    ctr, done := iv, 0;
    CounterFirst(iv);
    while size - done >= 16
      invariant 0 <= done <= size && done % 16 == 0 && ctr == CounterBlock(iv, done / 16)
      invariant Deciphered(m0, mem[..], target, size, body, key, iv, data, done)
    {
      ghost var m := mem[..];
      CipherIntact(m0, m, target, size, body, key, iv, data, done);
      assert m[body + done..body + done + 16] == mem[body + done..body + done + 16];
      var block := XorSeq(mem[body + done..body + done + 16], key(ctr));
      Put(mem, target + done, block);
      DecipheredNext(m0, m, target, size, body, key, iv, data, done, block);
      CounterNext(iv, done / 16);
      ctr, done := CounterBlock(ctr, 1), done + 16;
    }
  }

  lemma NothingDeciphered(m: seq<Byte>, target: nat, size: nat, body: nat, key: Cipher, iv: Block)
    requires target + size <= |m| && body + size <= |m|
    ensures Deciphered(m, m, target, size, body, key, iv, m[body..body + size], 0)
  {
  }

  /** Deciphering what was enciphered gives the plaintext back, whatever the padding behind it. */
  lemma CtrRoundTrip(key: Cipher, iv: Block, plain: seq<Byte>, padding: nat)
    ensures Ctr(key, iv, Ctr(key, iv, plain + Zeros(padding))[..|plain|]) == plain
  {
    hide KeyByte;
    assert Ctr(key, iv, plain + Zeros(padding))[..|plain|] == Ctr(key, iv, plain);
    CtrTwice(key, iv, plain);
  }

  /** A vTPM page's secrets, enciphered and deciphered where they lie. */
  method PageRoundTrip(mem: array<Byte>, at: nat, size: nat, key: Cipher, iv: Block) returns (ok: bool)
    requires at + 16 + size <= mem.Length
    modifies mem
    ensures ok
    ensures mem[at..at + 16] == iv
    ensures mem[at + 16..at + 16 + size] == old(mem[at + 16..at + 16 + size])
    ensures forall i :: 0 <= i < mem.Length && !(at <= i < at + 16 + size) ==> mem[i] == old(mem[i])
  {
    hide Ctr, Enciphers;
    ghost var plain := mem[at + 16..at + 16 + size];
    ok := EncryptCtr(mem, at, size + 16, at + 16, size, key, iv);
    assert Fits(size + 16, size);
    assert plain + Zeros(0) == plain;
    ghost var cipher := mem[at + 16..at + 16 + size];
    assert cipher == mem[at + 16..at + (size + 16)];
    CtrIff(key, iv, plain, cipher);
    label sealed:
    ok := DecryptCtr(mem, at + 16, size, at, size + 16, key);
    CtrIff(key, iv, cipher, mem[at + 16..at + 16 + size]);
    CtrTwice(key, iv, plain);
    assert mem[at..at + 16] == old@sealed(mem[at..at + 16]);
  }

  lemma TooLarge(targetSize: nat, size: nat)
    requires targetSize >= 16 && size > targetSize - 16
    ensures !Fits(targetSize, size)
  {
  }

  lemma FitsPartial(targetSize: nat, size: nat)
    requires 16 + size <= targetSize && size / 16 * 16 < size && targetSize - 16 - size / 16 * 16 < 16
    ensures Fits(targetSize, size)
  {
  }

  lemma FitsWhole(targetSize: nat, size: nat, start: nat, done: nat)
    requires size <= start && 16 + start <= targetSize && start % 16 == 0
    requires done == start + (targetSize - 16 - start) / 16 * 16
    ensures done == targetSize - 16 <==> Fits(targetSize, size)
  {
  }

  lemma WithinTarget(m0: seq<Byte>, m: seq<Byte>, target: nat, targetSize: nat, src: nat, size: nat, key: Cipher,
                     iv: Block, data: seq<Byte>, done: nat)
    requires Enciphered(m0, m, target, targetSize, src, size, key, iv, data, done)
    ensures done <= |data| == targetSize - 16 && done % 16 == 0
  {
  }

  lemma IvOnly(m0: seq<Byte>, target: nat, iv: Block)
    requires target + 16 <= |m0|
    ensures forall i :: 0 <= i < |m0| && !(target <= i < target + 16) ==> Overwritten(m0, target, iv)[i] == m0[i]
  {
  }

  lemma EncipheredFirst(m0: seq<Byte>, target: nat, targetSize: nat, src: nat, size: nat, key: Cipher, iv: Block,
                        data: seq<Byte>)
    requires targetSize == 16 + |data| && target + targetSize <= |m0| && src + size <= |m0| && size <= |data|
    requires Compatible(target, targetSize, src, size) && data[..size] == m0[src..src + size]
    ensures Enciphered(m0, Overwritten(m0, target, iv), target, targetSize, src, size, key, iv, data, 0)
  {
    var m := Overwritten(m0, target, iv);
    forall i | 0 <= i < size ensures m[src + i] == data[i] {
      assert data[..size][i] == m0[src..src + size][i];
    }
  }

  lemma SourceIntact(m0: seq<Byte>, m: seq<Byte>, target: nat, targetSize: nat, src: nat, size: nat, key: Cipher,
                     iv: Block, data: seq<Byte>, done: nat)
    requires Enciphered(m0, m, target, targetSize, src, size, key, iv, data, done) && done <= size
    ensures |data| >= size && src + size <= |m| && m[src + done..src + size] == data[done..size]
    ensures done + 16 <= size ==> m[src + done..src + done + 16] == data[done..done + 16]
  {
  }

  lemma ZeroXor(data: seq<Byte>, done: nat, block: Block)
    requires done + 16 <= |data| && forall i :: done <= i < |data| ==> data[i] == 0
    ensures forall i :: 0 <= i < 16 ==> block[i] == Xor(data[done + i], block[i])
  {
  }
}

/**
 A vTPM's own persistent state: two slots on a block device, written in turn, of which the manager's
 saved hash selects one.
 */
module VtpmBlk {
  import opened Wrappers
  import opened Bytes

  type Blob = seq<Byte>
  type Key = seq<Byte>

  /** The block cipher in both directions, and the hash. */
  datatype Primitives = Primitives(enc: (Key, Block) -> Block, dec: (Key, Block) -> Block, hash: Blob -> Blob)

  ghost predicate Inverse(p: Primitives) {
    forall k, b: Block :: p.dec(k, p.enc(k, b)) == b
  }

  /* Cipher block chaining. */

  function CbcEncrypt(p: Primitives, key: Key, iv: Block, data: Blob): (r: Blob)
    requires |data| % 16 == 0
    ensures |r| == |data|
    decreases |data|
  {
    if data == [] then []
    else
      var c := p.enc(key, XorSeq(data[..16], iv));
      c + CbcEncrypt(p, key, c, data[16..])
  }

  function CbcDecrypt(p: Primitives, key: Key, iv: Block, data: Blob): (r: Blob)
    requires |data| % 16 == 0
    ensures |r| == |data|
    decreases |data|
  {
    if data == [] then []
    else
      var c: Block := data[..16];
      XorSeq(p.dec(key, c), iv) + CbcDecrypt(p, key, c, data[16..])
  }

  lemma {:induction false} CbcRoundTrip(p: Primitives, key: Key, iv: Block, data: Blob)
    requires Inverse(p) && |data| % 16 == 0
    ensures CbcDecrypt(p, key, iv, CbcEncrypt(p, key, iv, data)) == data
    decreases |data|
  {
    if data != [] {
      var c := p.enc(key, XorSeq(data[..16], iv));
      CbcRoundTrip(p, key, c, data[16..]);
      var all := CbcEncrypt(p, key, iv, data);
      assert all[..16] == c && all[16..] == CbcEncrypt(p, key, c, data[16..]);
      XorSeqTwice(data[..16], iv);
      assert data == data[..16] + data[16..];
    }
  }

  /* What chaining means, block by block. */

  /** Block k is the cipher of the plaintext block combined with the block before it, the first one with the IV. */
  ghost predicate Link(p: Primitives, key: Key, iv: Block, data: Blob, out: Blob, k: nat)
    requires 16 * k + 16 <= |data| == |out|
  {
    out[16 * k..16 * k + 16] ==
    p.enc(key, XorSeq(data[16 * k..16 * k + 16], if k == 0 then iv else out[16 * k - 16..16 * k]))
  }

  ghost predicate Chained(p: Primitives, key: Key, iv: Block, data: Blob, out: Blob) {
    |out| == |data| && forall k :: 0 <= k < |data| / 16 ==> Link(p, key, iv, data, out, k)
  }

  /** And back: block k is the deciphered block combined with the ciphertext block before it. */
  ghost predicate Unlink(p: Primitives, key: Key, iv: Block, data: Blob, out: Blob, k: nat)
    requires 16 * k + 16 <= |data| == |out|
  {
    out[16 * k..16 * k + 16] ==
    XorSeq(p.dec(key, data[16 * k..16 * k + 16]), if k == 0 then iv else data[16 * k - 16..16 * k])
  }

  ghost predicate Unchained(p: Primitives, key: Key, iv: Block, data: Blob, out: Blob) {
    |out| == |data| && forall k :: 0 <= k < |data| / 16 ==> Unlink(p, key, iv, data, out, k)
  }

  lemma SameSlice(s: Blob, k: nat)
    requires k > 0 && 16 * k + 16 <= |s|
    ensures s[16..][16 * (k - 1)..16 * (k - 1) + 16] == s[16 * k..16 * k + 16]
    ensures if k == 1 then s[16 * k - 16..16 * k] == s[..16]
            else s[16..][16 * (k - 1) - 16..16 * (k - 1)] == s[16 * k - 16..16 * k]
  {
  }

  /** CBC encryption is that chain, and nothing else is. */
  lemma {:induction false} CbcEncryptIff(p: Primitives, key: Key, iv: Block, data: Blob, out: Blob)
    requires |data| % 16 == 0
    ensures Chained(p, key, iv, data, out) <==> out == CbcEncrypt(p, key, iv, data)
    decreases |data|
  {
    if data != [] && |out| == |data| {
      var c, head := p.enc(key, XorSeq(data[..16], iv)), out[..16];
      CbcEncryptIff(p, key, c, data[16..], out[16..]);
      assert out == head + out[16..];
      assert data[0..16] == data[..16] && out[0..16] == head;
      assert Link(p, key, iv, data, out, 0) <==> head == c;
      forall k | 0 < k < |data| / 16 && head == c
        ensures Link(p, key, iv, data, out, k) <==> Link(p, key, c, data[16..], out[16..], k - 1)
      {
        SameSlice(data, k);
        SameSlice(out, k);
      }
      ChainedTail(p, key, iv, c, data, out);
    }
  }

  lemma ChainedTail(p: Primitives, key: Key, iv: Block, c: Block, data: Blob, out: Blob)
    requires |out| == |data| > 0 && |data| % 16 == 0
    requires forall k :: 0 < k < |data| / 16 && out[..16] == c ==>
      (Link(p, key, iv, data, out, k) <==> Link(p, key, c, data[16..], out[16..], k - 1))
    requires Link(p, key, iv, data, out, 0) <==> out[..16] == c
    ensures Chained(p, key, iv, data, out) <==> out[..16] == c && Chained(p, key, c, data[16..], out[16..])
  {
    hide Link;
    if out[..16] == c && Chained(p, key, c, data[16..], out[16..]) {
      forall k | 0 <= k < |data| / 16 ensures Link(p, key, iv, data, out, k) {
        if k > 0 {
          assert Link(p, key, c, data[16..], out[16..], k - 1);
        }
      }
    }
    if Chained(p, key, iv, data, out) {
      assert Link(p, key, iv, data, out, 0);
      forall k | 0 <= k < |data[16..]| / 16 ensures Link(p, key, c, data[16..], out[16..], k) {
        assert Link(p, key, iv, data, out, k + 1);
      }
    }
  }

  lemma {:induction false} CbcDecryptAt(p: Primitives, key: Key, iv: Block, data: Blob, k: nat)
    requires |data| % 16 == 0 && 16 * k + 16 <= |data|
    ensures Unlink(p, key, iv, data, CbcDecrypt(p, key, iv, data), k)
    decreases |data|
  {
    var out := CbcDecrypt(p, key, iv, data);
    var c: Block := data[..16];
    assert out[16..] == CbcDecrypt(p, key, c, data[16..]) && out[..16] == XorSeq(p.dec(key, c), iv);
    if k > 0 {
      CbcDecryptAt(p, key, c, data[16..], k - 1);
      SameSlice(data, k);
      SameSlice(out, k);
    }
  }

  lemma CbcDecryptIff(p: Primitives, key: Key, iv: Block, data: Blob, out: Blob)
    requires |data| % 16 == 0
    ensures Unchained(p, key, iv, data, out) <==> out == CbcDecrypt(p, key, iv, data)
  {
    hide CbcDecrypt;
    var r := CbcDecrypt(p, key, iv, data);
    forall k | 0 <= k < |data| / 16 ensures Unlink(p, key, iv, data, r, k) {
      CbcDecryptAt(p, key, iv, data, k);
    }
    if Unchained(p, key, iv, data, out) {
      forall k | 0 <= k < |data| / 16 ensures out[16 * k..16 * k + 16] == r[16 * k..16 * k + 16] {
        assert Unlink(p, key, iv, data, out, k) && Unlink(p, key, iv, data, r, k);
      }
      SameBlocks(out, r);
    }
  }

  lemma SameBlocks(a: Blob, b: Blob)
    requires |a| == |b| && |a| % 16 == 0
    requires forall k :: 0 <= k < |a| / 16 ==> a[16 * k..16 * k + 16] == b[16 * k..16 * k + 16]
    ensures a == b
  {
    forall i | 0 <= i < |a| ensures a[i] == b[i] {
      var k := i / 16;
      assert a[16 * k..16 * k + 16][i - 16 * k] == b[16 * k..16 * k + 16][i - 16 * k];
    }
  }

  /* The encrypted image. */

  /** The clear text is padded with zeros to whole blocks. */
  function PaddedTo16(data: Blob): (r: Blob)
    ensures |r| % 16 == 0 && |data| <= |r| < |data| + 16 && r[..|data|] == data
    ensures forall i :: |data| <= i < |r| ==> r[i] == 0
  {
    if |data| % 16 == 0 then data else data + Zeros(16 - |data| % 16)
  }

  /** Twelve random bytes, then the length of the clear text. */
  function MakeIv(random: Blob, size: nat): (r: Block)
    requires |random| == 12
  {
    random + BigEndian(size, 4)
  }

  /** encrypt_vtpmblk. */
  function Encrypt(p: Primitives, key: Key, random: Blob, data: Blob): (r: Blob)
    requires |random| == 12
    ensures |r| == 16 + |PaddedTo16(data)|
  {
    var iv := MakeIv(random, |data|);
    iv + CbcEncrypt(p, key, iv, PaddedTo16(data))
  }

  /** decrypt_vtpmblk: the buffer, and the length that the IV carries. */
  function Decrypt(p: Primitives, key: Key, cipher: Blob): (r: Option<(Blob, nat)>)
    requires |cipher| >= 16
  {
    if (|cipher| - 16) % 16 != 0 then None
    else Some((CbcDecrypt(p, key, cipher[..16], cipher[16..]), FromBigEndian(cipher[12..16])))
  }

  /** The image of any clear text whose length fits into 32 bits decrypts to it. */
  lemma ImageRoundTrip(p: Primitives, key: Key, random: Blob, data: Blob)
    requires Inverse(p) && |random| == 12 && |data| < WORD
    ensures Decrypt(p, key, Encrypt(p, key, random, data)) == Some((PaddedTo16(data), |data|))
  {
    hide FromBigEndian, BigEndian, CbcEncrypt, CbcDecrypt, PaddedTo16;
    var iv := MakeIv(random, |data|);
    var cipher := Encrypt(p, key, random, data);
    assert cipher[..16] == iv && cipher[16..] == CbcEncrypt(p, key, iv, PaddedTo16(data));
    CbcRoundTrip(p, key, iv, PaddedTo16(data));
    assert cipher[12..16] == iv[12..16] == BigEndian(|data|, 4);
    WordIs();
    BigEndianRoundTrip(|data|, 4);
  }

  lemma WordIs()
    ensures Pow256(4) == WORD
  {
  }

  /* Slots. */

  /** write_vtpmblk_raw: the length and then the data. */
  function RawWrite(slot: Blob, data: Blob): (r: Blob)
    requires |data| + 4 <= |slot|
    ensures |r| == |slot|
  {
    BigEndian(|data|, 4) + data + slot[4 + |data|..]
  }

  /** read_vtpmblk_raw: an empty or overlong length is an error. */
  function RawRead(slot: Blob): (r: Option<Blob>)
    requires |slot| >= 4
  {
    var n := FromBigEndian(slot[..4]);
    if n == 0 || n > |slot| - 4 then None else Some(slot[4..4 + n])
  }

  lemma RawAt(slot: Blob, data: Blob)
    requires |data| + 4 <= |slot|
    ensures RawWrite(slot, data)[4..4 + |data|] == data
  {
  }

  lemma RawRoundTrip(slot: Blob, data: Blob)
    requires 0 < |data| < WORD && |data| + 4 <= |slot|
    ensures RawRead(RawWrite(slot, data)) == Some(data)
  {
    hide FromBigEndian, BigEndian;
    WordIs();
    BigEndianRoundTrip(|data|, 4);
    var r := RawWrite(slot, data);
    assert r[..4] == BigEndian(|data|, 4);
    assert r[4..4 + |data|] == data;
  }

  /** What a written slot holds: the length, the IV with its random bytes and the length of the clear text, and
      the padded text chained from that IV; behind it whatever was there. */
  ghost predicate Holds(p: Primitives, w: Request, before: Blob, slot: Blob) {
    var text := PaddedTo16(w.data);
    var end := 20 + |text|;
    && |w.random| == 12 && end <= |slot| == |before|
    && FromBigEndian(slot[..4]) == 16 + |text| && slot[4..16] == w.random && FromBigEndian(slot[16..20]) == |w.data|
    && Chained(p, w.key, slot[4..20], text, slot[20..end]) && slot[end..] == before[end..]
  }

  lemma WrittenHolds(p: Primitives, w: Request, before: Blob)
    requires |w.random| == 12 && 20 + |PaddedTo16(w.data)| <= |before| && 16 + |PaddedTo16(w.data)| < WORD
    ensures Holds(p, w, before, RawWrite(before, Encrypt(p, w.key, w.random, w.data)))
  {
    hide FromBigEndian, BigEndian, CbcEncrypt, PaddedTo16, Chained;
    WordIs();
    var text, iv := PaddedTo16(w.data), MakeIv(w.random, |w.data|);
    var cipher := Encrypt(p, w.key, w.random, w.data);
    var slot := RawWrite(before, cipher);
    BigEndianRoundTrip(16 + |text|, 4);
    BigEndianRoundTrip(|w.data|, 4);
    assert slot[..4] == BigEndian(16 + |text|, 4) && slot[4..20] == iv;
    assert slot[4..16] == iv[..12] == w.random && slot[16..20] == iv[12..] == BigEndian(|w.data|, 4);
    assert slot[20..20 + |text|] == CbcEncrypt(p, w.key, iv, text);
    CbcEncryptIff(p, w.key, iv, text, slot[20..20 + |text|]);
  }

  /** Whether a slot can be read depends on its length field only. */
  lemma RawReadLength(a: Blob, b: Blob)
    requires |a| == |b| >= 4 && a[..4] == b[..4]
    ensures RawRead(a).Some? <==> RawRead(b).Some?
  {
  }

  /* What survives a restart. */

  datatype Saved = Saved(hash: Blob, key: Key)
  datatype Disk = Disk(slots: seq<Blob>, saved: Option<Saved>)

  ghost predicate Formed(d: Disk) {
    |d.slots| == 2 && |d.slots[0]| == |d.slots[1]| >= 4
  }

  /** What reading one slot shows: nothing readable, another image, or the one whose hash was saved. */
  datatype Look = Unreadable | Other | Match(cipher: Blob)

  function LookAt(p: Primitives, slot: Blob, hash: Blob): (r: Look)
    requires |slot| >= 4
  {
    var raw := RawRead(slot);
    if raw.None? then Unreadable else if p.hash(raw.value) == hash then Match(raw.value) else Other
  }

  /** read_vtpmblk, given what the two slots show: slot 1 counts only if slot 0 is readable and holds another
      image. */
  function Chosen(p: Primitives, key: Key, first: Look, second: Look): (r: (Option<Clear>, int)) {
    if first.Match? then Opened(p, key, first.cipher, 0)
    else if first.Other? && second.Match? then Opened(p, key, second.cipher, 1)
    else (None, -1)
  }

  /** What a restart reads from the disk. */
  function Reading(p: Primitives, d: Disk): (r: (Option<Clear>, int))
    requires |d.slots| == 2 && |d.slots[0]| >= 4 && |d.slots[1]| >= 4
  {
    if d.saved.None? then (None, -1)
    else
      var hash := d.saved.value.hash;
      Chosen(p, d.saved.value.key, LookAt(p, d.slots[0], hash), LookAt(p, d.slots[1], hash))
  }

  /** What a restart makes of the disk: the data, if the buffer holds as much as its length says. */
  function Recovered(p: Primitives, d: Disk): (r: (Option<Blob>, int))
    requires |d.slots| == 2 && |d.slots[0]| >= 4 && |d.slots[1]| >= 4
  {
    var (clear, slot) := Reading(p, d);
    (Data(clear), slot)
  }

  /** A buffer of decrypted text and the length that is claimed for it. */
  datatype Clear = Clear(buffer: Blob, size: nat)

  function Data(clear: Option<Clear>): (r: Option<Blob>) {
    if clear.None? || clear.value.size > |clear.value.buffer| then None
    else Some(clear.value.buffer[..clear.value.size])
  }

  /** The clear text of a matching image.  The length of its buffer is an int: for an image shorter than an IV
      or of more than 2 GiB it is negative, and there is no such buffer.  A claimed length beyond the
      buffer is not noticed. */
  function Opened(p: Primitives, key: Key, cipher: Blob, slot: int): (r: (Option<Clear>, int)) {
    if |cipher| < 16 || |cipher| - 16 >= WORD / 2 then (None, -1)
    else
      var clear := Decrypt(p, key, cipher);
      if clear.None? then (None, -1) else (Some(Clear(clear.value.0, clear.value.1)), slot)
  }

  /** What comes out of a slot: its image has the saved hash, the buffer is unchained from its IV, and the claimed
      length is the one in the IV. */
  ghost predicate Shows(p: Primitives, saved: Saved, slot: Blob, clear: Clear) {
    && |slot| >= 20
    && var end := 4 + FromBigEndian(slot[..4]);
       && 20 <= end <= |slot| && p.hash(slot[4..end]) == saved.hash
       && Unchained(p, saved.key, slot[4..20], slot[20..end], clear.buffer) && clear.size == FromBigEndian(slot[16..20])
  }

  lemma OpenedShows(p: Primitives, saved: Saved, slot: Blob, s: int)
    requires |slot| >= 4 && RawRead(slot).Some? && p.hash(RawRead(slot).value) == saved.hash && 0 <= s
    ensures var (clear, at) := Opened(p, saved.key, RawRead(slot).value, s);
      if clear.Some? then at == s && Shows(p, saved, slot, clear.value) else at == -1
  {
    hide FromBigEndian, CbcDecrypt, Unchained;
    var cipher := RawRead(slot).value;
    if |cipher| >= 16 && |cipher| % 16 == 0 {
      var end := 4 + |cipher|;
      assert cipher[..16] == slot[4..20] && cipher[16..] == slot[20..end] && cipher[12..16] == slot[16..20];
      CbcDecryptIff(p, saved.key, cipher[..16], cipher[16..], CbcDecrypt(p, saved.key, cipher[..16], cipher[16..]));
    }
  }

  /** Slot a holds the committed data. */
  ghost predicate Committed(p: Primitives, d: Disk, a: int, data: Blob) {
    && Formed(d) && 0 <= a < 2 && d.saved.Some?
    && var look := LookAt(p, d.slots[a], d.saved.value.hash);
       look.Match? && var (clear, slot) := Opened(p, d.saved.value.key, look.cipher, a);
                      Data(clear) == Some(data) && slot == a
  }

  /** No image on the disk but the committed one has the saved hash. */
  ghost predicate NoOther(p: Primitives, d: Disk, a: int)
    requires Formed(d) && 0 <= a < 2 && d.saved.Some?
  {
    var own, other := RawRead(d.slots[a]), RawRead(d.slots[1 - a]);
    own.Some? && other.Some? && p.hash(other.value) == p.hash(own.value) ==> other == own
  }

  /** Committed data can be read back exactly if it is in slot 0 or slot 0 is readable at all. */
  lemma CommittedReads(p: Primitives, d: Disk, a: int, data: Blob)
    requires Committed(p, d, a, data) && NoOther(p, d, a)
    ensures Recovered(p, d).0 == Some(data) <==> a == 0 || RawRead(d.slots[0]).Some?
    ensures Recovered(p, d).0 == Some(data) ==> Recovered(p, d).1 in {0, 1} && Committed(p, d, Recovered(p, d).1, data)
  {
    hide RawRead, Decrypt;
  }

  /** A write request: the data, and the key and IV bytes that are drawn for it. */
  datatype Request = Request(data: Blob, key: Key, random: Blob)

  predicate Fits(slotSize: nat, w: Request) {
    |w.random| == 12 && |PaddedTo16(w.data)| < WORD / 2 && 16 + |PaddedTo16(w.data)| + 4 <= slotSize
  }

  /** The slot that is written next: the other one, and slot 0 if none is active. */
  function Next(active: int): (r: nat)
    ensures r < 2
  {
    if active == 0 then 1 else 0
  }

  /** A complete write: the image in slot s, its hash and key at the manager. */
  function Written(p: Primitives, d: Disk, s: nat, w: Request): (r: Disk)
    requires |d.slots| == 2 && s < 2 && Fits(|d.slots[s]|, w)
  {
    var cipher := Encrypt(p, w.key, w.random, w.data);
    Disk(d.slots[s := RawWrite(d.slots[s], cipher)], Some(Saved(p.hash(cipher), w.key)))
  }

  lemma WrittenCommits(p: Primitives, d: Disk, s: nat, w: Request)
    requires Inverse(p) && Formed(d) && s < 2 && Fits(|d.slots[s]|, w)
    ensures Committed(p, Written(p, d, s, w), s, w.data)
  {
    hide RawRead, RawWrite, Encrypt, Decrypt;
    var cipher := Encrypt(p, w.key, w.random, w.data);
    assert |cipher| == 16 + |PaddedTo16(w.data)|;
    RawRoundTrip(d.slots[s], cipher);
    ImageRoundTrip(p, w.key, w.random, w.data);
  }

  /** A crash in the middle of a write of slot s: the slot holds anything, the manager still the old hash. */
  function Torn(d: Disk, s: nat, junk: Blob): (r: Disk)
    requires |d.slots| == 2 && s < 2
  {
    d.(slots := d.slots[s := junk])
  }

  /** Recovery from a crash during a write of the other slot: the committed data comes back unless the write
      was to slot 0 and left a length there that cannot be read; the new data comes back instead once it
      has been committed. */
  lemma CrashRecovers(p: Primitives, d: Disk, a: int, data: Blob, w: Request, junk: Blob)
    requires Inverse(p) && Committed(p, d, a, data)
    requires |junk| == |d.slots[0]| && Fits(|d.slots[0]|, w)
    requires NoOther(p, Torn(d, 1 - a, junk), a)
    requires NoOther(p, Written(p, d, 1 - a, w), 1 - a)
    ensures Recovered(p, Torn(d, 1 - a, junk)).0 == Some(data) <==> a == 0 || RawRead(junk).Some?
    ensures Recovered(p, Written(p, d, 1 - a, w)).0 == Some(w.data)
  {
    hide RawRead, RawWrite, Encrypt, Decrypt, Opened, PaddedTo16;
    var s := 1 - a;
    assert Committed(p, Torn(d, s, junk), a, data);
    CommittedReads(p, Torn(d, s, junk), a, data);
    WrittenCommits(p, d, s, w);
    var d' := Written(p, d, s, w);
    CommittedReads(p, d', s, w.data);
    assert s == 1 ==> d'.slots[0] == d.slots[0];
  }

  /** A write that tears the committed slot itself loses the data exactly if it leaves anything but the
      committed image there. */
  lemma TornExact(p: Primitives, d: Disk, a: int, data: Blob, junk: Blob)
    requires Committed(p, d, a, data) && |junk| == |d.slots[0]| && SameIfMatching(p, d, a, junk)
    requires !LookAt(p, d.slots[1 - a], d.saved.value.hash).Match?
    ensures Recovered(p, Torn(d, a, junk)).0 == Some(data) <==>
      LookAt(p, junk, d.saved.value.hash).Match? && (a == 0 || RawRead(d.slots[0]).Some?)
  {
    hide RawRead, Decrypt;
  }

  /** The junk collides with the committed image only by being it. */
  ghost predicate SameIfMatching(p: Primitives, d: Disk, a: int, junk: Blob)
    requires Formed(d) && 0 <= a < 2 && d.saved.Some? && |junk| >= 4
  {
    LookAt(p, junk, d.saved.value.hash).Match? ==> RawRead(junk) == RawRead(d.slots[a])
  }

  /** What a torn write of slot s can leave behind: no collision, and the length field, which lies in one
      sector, is the old one or the new one. */
  ghost predicate Plausible(p: Primitives, d: Disk, a: int, s: nat, w: Request, junk: Blob)
    requires Formed(d) && 0 <= a < 2 && d.saved.Some? && s < 2 && Fits(|d.slots[0]|, w)
  {
    && |junk| == |d.slots[0]| && SameIfMatching(p, d, a, junk)
    && junk[..4] in {d.slots[s][..4], Written(p, d, s, w).slots[s][..4]}
  }

  /** Why a failed write matters.  The next write can be torn in any plausible way without harm if and only
      if it goes to the other slot; after a failure it does not. */
  lemma FailureExposes(p: Primitives, d: Disk, a: int, data: Blob, active: int, w: Request)
    requires Inverse(p) && Committed(p, d, a, data) && Fits(|d.slots[0]|, w) && RawRead(d.slots[0]).Some?
    requires !LookAt(p, d.slots[1 - a], d.saved.value.hash).Match?
    requires exists x ::
      RawRead(d.slots[a]).Some? && |x| == |RawRead(d.slots[a]).value| && p.hash(x) != d.saved.value.hash
    ensures (forall junk :: Plausible(p, d, a, Next(active), w, junk) ==>
               Recovered(p, Torn(d, Next(active), junk)).0 == Some(data))
       <==> Next(active) != a
    ensures active == a ==> Next(active) != a && Next(Next(active)) == a
  {
    hide Recovered, LookAt, RawRead, Fits, Opened, SameIfMatching, Written;
    if Next(active) == a {
      var junk := HarmfulTear(p, d, a, data, w);
    } else {
      assert Next(active) == 1 - a;
      forall junk | Plausible(p, d, a, Next(active), w, junk)
        ensures Recovered(p, Torn(d, Next(active), junk)).0 == Some(data)
      {
        HarmlessTear(p, d, a, data, w, junk);
      }
    }
  }

  lemma HarmfulTear(p: Primitives, d: Disk, a: int, data: Blob, w: Request) returns (junk: Blob)
    requires Committed(p, d, a, data) && Fits(|d.slots[0]|, w)
    requires !LookAt(p, d.slots[1 - a], d.saved.value.hash).Match?
    requires exists x ::
      RawRead(d.slots[a]).Some? && |x| == |RawRead(d.slots[a]).value| && p.hash(x) != d.saved.value.hash
    ensures Plausible(p, d, a, a, w, junk) && Recovered(p, Torn(d, a, junk)).0 != Some(data)
  {
    var own := RawRead(d.slots[a]).value;
    var x :| |x| == |own| && p.hash(x) != d.saved.value.hash;
    junk := Overwritten(d.slots[a], 4, x);
    ReplacedImage(d.slots[a], x);
    hide RawRead, Decrypt, Overwritten, RawWrite, Encrypt, Fits, Recovered;
    TornExact(p, d, a, data, junk);
  }

  lemma HarmlessTear(p: Primitives, d: Disk, a: int, data: Blob, w: Request, junk: Blob)
    requires Inverse(p) && Committed(p, d, a, data) && Fits(|d.slots[0]|, w) && RawRead(d.slots[0]).Some?
    requires Plausible(p, d, a, 1 - a, w, junk)
    ensures Recovered(p, Torn(d, 1 - a, junk)).0 == Some(data)
  {
    hide RawRead, Decrypt, RawWrite, Encrypt, PaddedTo16, Opened, Fits;
    var d' := Torn(d, 1 - a, junk);
    assert Committed(p, d', a, data) && NoOther(p, d', a);
    hide Recovered;
    CommittedReads(p, d', a, data);
    if a == 1 {
      LengthKept(p, d, w, junk);
    }
  }

  /** Another image in the place of a readable one. */
  lemma ReplacedImage(slot: Blob, x: Blob)
    requires |slot| >= 4 && RawRead(slot).Some? && |x| == |RawRead(slot).value|
    ensures 4 + |x| <= |slot| && RawRead(Overwritten(slot, 4, x)) == Some(x)
    ensures Overwritten(slot, 4, x)[..4] == slot[..4]
  {
    hide FromBigEndian;
    var r := Overwritten(slot, 4, x);
    assert r[..4] == slot[..4] && r[4..4 + |x|] == x;
  }

  /** The length field stays readable. */
  lemma LengthKept(p: Primitives, d: Disk, w: Request, junk: Blob)
    requires Inverse(p) && Formed(d) && |junk| == |d.slots[0]| && Fits(|d.slots[0]|, w) && RawRead(d.slots[0]).Some?
    requires junk[..4] in {d.slots[0][..4], Written(p, d, 0, w).slots[0][..4]}
    ensures RawRead(junk).Some?
  {
    hide RawRead, RawWrite, Encrypt, Decrypt, PaddedTo16, Opened;
    WrittenCommits(p, d, 0, w);
    if junk[..4] == d.slots[0][..4] {
      RawReadLength(junk, d.slots[0]);
    } else {
      RawReadLength(junk, Written(p, d, 0, w).slots[0]);
    }
  }

  /* Whole runs. */

  /** A write that commits; one that fails, whatever it leaves in its slot; a restart.  A crash in a write is
      a failure and then a restart. */
  datatype Event = Write(w: Request) | Failed(junk: Blob) | Restart

  predicate Possible(slotSize: nat, e: Event) {
    match e
    case Write(w) => Fits(slotSize, w)
    case Failed(junk) => |junk| == slotSize
    case Restart => true
  }

  /** The disk and the active slot after a run. */
  function After(p: Primitives, d: Disk, active: int, run: seq<Event>): (r: (Disk, int))
    requires |d.slots| == 2 && |d.slots[0]| == |d.slots[1]| >= 4
    requires forall i :: 0 <= i < |run| ==> Possible(|d.slots[0]|, run[i])
    ensures |r.0.slots| == 2 && |r.0.slots[0]| == |r.0.slots[1]| == |d.slots[0]|
  {
    if run == [] then (d, active)
    else
      var n := |run| - 1;
      var before := After(p, d, active, run[..n]);
      assert Possible(|d.slots[0]|, run[n]);
      match run[n]
      case Write(w) => (Written(p, before.0, Next(before.1), w), Next(before.1))
      case Failed(junk) => (Torn(before.0, Next(before.1), junk), Next(before.1))
      case Restart => (before.0, Recovered(p, before.0).1)
  }

  function LastData(run: seq<Event>): (r: Option<Blob>) {
    if run == [] then None
    else if run[|run| - 1].Write? then Some(run[|run| - 1].w.data)
    else LastData(run[..|run| - 1])
  }

  /** No collision ever shows up, and no failure follows a failure. */
  ghost predicate CleanRun(p: Primitives, d: Disk, run: seq<Event>)
    requires Formed(d) && forall i :: 0 <= i < |run| ==> Possible(|d.slots[0]|, run[i])
  {
    && (forall i, a :: 0 <= i < |run| && 0 <= a < 2 ==> Clean(p, After(p, d, -1, run[..i]).0, a))
    && (forall i :: 0 < i < |run| && run[i].Failed? ==> !run[i - 1].Failed?)
  }

  ghost predicate Clean(p: Primitives, d: Disk, a: int)
    requires Formed(d) && 0 <= a < 2
  {
    d.saved.Some? ==> NoOther(p, d, a)
  }

  /** The run ends with a failure that no restart has followed. */
  predicate EndsFailed(run: seq<Event>) {
    run != [] && run[|run| - 1].Failed?
  }

  /** After every run in which failures are apart, from a disk without saved state, some slot holds the data
      written last, and the next write goes to the other one exactly unless the run has just failed. */
  lemma {:induction false} RunCommits(p: Primitives, d: Disk, run: seq<Event>) returns (a: int)
    requires Inverse(p) && Formed(d) && d.saved.None?
    requires forall i :: 0 <= i < |run| ==> Possible(|d.slots[0]|, run[i])
    requires CleanRun(p, d, run)
    ensures var now := After(p, d, -1, run);
      match LastData(run)
      case None => now.0.saved.None?
      case Some(data) => Committed(p, now.0, a, data) && (Next(now.1) == a <==> EndsFailed(run))
    ensures -1 <= After(p, d, -1, run).1 <= 1
  {
    hide RawRead, RawWrite, Encrypt, Decrypt, PaddedTo16, Fits;
    a := 0;
    if run != [] {
      var n := |run| - 1;
      CleanPrefix(p, d, run);
      a := RunCommits(p, d, run[..n]);
      var before := After(p, d, -1, run[..n]);
      match run[n]
      case Write(w) =>
        assert Possible(|d.slots[0]|, run[n]);
        WrittenCommits(p, before.0, Next(before.1), w);
        a := Next(before.1);
      case Failed(junk) =>
        assert n > 0 ==> !run[n - 1].Failed?;
        assert !EndsFailed(run[..n]);
      case Restart =>
        if LastData(run[..n]).Some? {
          var data := LastData(run[..n]).value;
          assert Clean(p, After(p, d, -1, run[..n]).0, a);
          CommittedReads(p, before.0, a, data);
          if Recovered(p, before.0).0 == Some(data) {
            a := Recovered(p, before.0).1;
          } else {
            CommittedUnread(p, before.0, a, data);
          }
        }
    }
  }

  /** Committed data that is not found is in slot 1, and then no slot is active. */
  lemma CommittedUnread(p: Primitives, d: Disk, a: int, data: Blob)
    requires Committed(p, d, a, data) && NoOther(p, d, a) && Recovered(p, d).0 != Some(data)
    ensures a == 1 && Recovered(p, d) == (None, -1)
  {
    hide RawRead, Decrypt;
  }

  lemma CleanPrefix(p: Primitives, d: Disk, run: seq<Event>)
    requires Formed(d) && (forall i :: 0 <= i < |run| ==> Possible(|d.slots[0]|, run[i])) && run != []
    requires CleanRun(p, d, run)
    ensures var n := |run| - 1;
      && (forall i :: 0 <= i < n ==> Possible(|d.slots[0]|, run[..n][i]))
      && CleanRun(p, d, run[..n])
  {
    hide After, Clean;
    var n := |run| - 1;
    forall i | 0 <= i < n ensures Possible(|d.slots[0]|, run[..n][i]) && run[..n][..i] == run[..i] {
      assert run[..n][i] == run[i];
    }
  }

  /** A crash in the next write after any such run.  If the run has not just failed, the data written last
      comes back unless slot 0 was torn to an unreadable length; if it has, exactly if the torn slot still
      holds its image; and a write that commits is what comes back. */
  lemma RunRecovers(p: Primitives, d: Disk, run: seq<Event>, w: Request, junk: Blob)
    requires Inverse(p) && Formed(d) && d.saved.None?
    requires forall i :: 0 <= i < |run| ==> Possible(|d.slots[0]|, run[i])
    requires CleanRun(p, d, run) && LastData(run).Some? && Fits(|d.slots[0]|, w) && |junk| == |d.slots[0]|
    requires var now := After(p, d, -1, run);
      var s := Next(now.1);
      && Clean(p, Torn(now.0, s, junk), 1 - s) && Clean(p, Written(p, now.0, s, w), s)
      && (EndsFailed(run) && now.0.saved.Some? ==>
          SameIfMatching(p, now.0, s, junk) && !LookAt(p, now.0.slots[1 - s], now.0.saved.value.hash).Match?)
    ensures var now := After(p, d, -1, run);
      var s := Next(now.1);
      && now.0.saved.Some?
      && (Recovered(p, Torn(now.0, s, junk)).0 == LastData(run) <==>
          if EndsFailed(run) then
            LookAt(p, junk, now.0.saved.value.hash).Match? && (s == 0 || RawRead(now.0.slots[0]).Some?)
          else s == 1 || RawRead(junk).Some?)
      && (s == 0 || RawRead(now.0.slots[0]).Some? ==> Recovered(p, Written(p, now.0, s, w)).0 == Some(w.data))
  {
    hide RawRead, RawWrite, Encrypt, Decrypt, Opened, PaddedTo16, Fits, After, CleanRun, Recovered, Possible, LookAt,
         NoOther;
    var a := RunCommits(p, d, run);
    var now := After(p, d, -1, run);
    var s := Next(now.1);
    var data := LastData(run).value;
    WrittenCommits(p, now.0, s, w);
    CommittedReads(p, Written(p, now.0, s, w), s, w.data);
    assert s == 1 ==> Written(p, now.0, s, w).slots[0] == now.0.slots[0];
    if EndsFailed(run) {
      TornExact(p, now.0, a, data, junk);
    } else {
      assert Committed(p, Torn(now.0, s, junk), a, data);
      CommittedReads(p, Torn(now.0, s, junk), a, data);
      assert s == 0 ==> Torn(now.0, s, junk).slots[0] == junk;
    }
  }

  /* The code. */

  class Nvm {
    const p: Primitives
    const slotSize: nat
    var slots: seq<Blob>
    var saved: Option<Saved>
    var active: int

    ghost predicate Valid()
      reads this
    {
      slotSize >= 4 && |slots| == 2 && |slots[0]| == |slots[1]| == slotSize && -1 <= active <= 1
    }

    ghost function Now(): (d: Disk)
      reads this
    {
      Disk(slots, saved)
    }

    constructor (p: Primitives, slots: seq<Blob>, saved: Option<Saved>)
      requires |slots| == 2 && |slots[0]| == |slots[1]| >= 4
      ensures Valid() && this.p == p && this.slots == slots && this.saved == saved && active == -1
      ensures slotSize == |slots[0]|
    {
      this.p, this.slotSize, this.slots, this.saved, active := p, |slots[0]|, slots, saved, -1;
    }

    /** write_vtpmblk.  error is what a failed write to the device leaves in the slot, saveOk the manager's
        answer.  The slot is flipped before anything is known to succeed. */
    method WriteState(w: Request, error: Option<Blob>, saveOk: bool) returns (ok: bool)
      requires Valid() && |w.random| == 12 && |PaddedTo16(w.data)| < WORD && (error.Some? ==> |error.value| == slotSize)
      modifies this
      ensures Valid() && active == Next(old(active))
      ensures ok <==> Fits(slotSize, w) && error.None? && saveOk
      ensures ok ==> (Now(), active) == After(p, old(Now()), old(active), [Write(w)])
      ensures !ok ==> (Now(), active) == After(p, old(Now()), old(active), [Failed(slots[active])])
      ensures !Fits(slotSize, w) ==> slots == old(slots)
      ensures Fits(slotSize, w) && error.Some? ==> slots[active] == error.value
      ensures Fits(slotSize, w) && error.None? ==>
        && slots == Written(p, old(Now()), active, w).slots
        && Holds(p, w, old(slots)[active], slots[active]) && slots[1 - active] == old(slots)[1 - active]
      ensures ok ==> saved == Some(Saved(p.hash(slots[active][4..20 + |PaddedTo16(w.data)|]), w.key))
    {
      hide RawRead, RawWrite, CbcEncrypt, Recovered, Holds;
      active := if active == 0 then 1 else 0;
      var iv := MakeIv(w.random, |w.data|);
      var padded := PaddedTo16(w.data);
      if |padded| >= WORD / 2 {
        // The length as an int is negative, and there is no such buffer.
        assert slots[active := slots[active]] == slots;
        OneEvent(p, old(Now()), old(active), Failed(slots[active]));
        return false;
      }
      var cipher := iv + CbcEncrypt(p, w.key, iv, padded);
      if |cipher| > slotSize - 4 {
        assert slots[active := slots[active]] == slots;
        OneEvent(p, old(Now()), old(active), Failed(slots[active]));
        return false;
      }
      if error.Some? {
        slots := slots[active := error.value];
        OneEvent(p, old(Now()), old(active), Failed(slots[active]));
        return false;
      }
      WrittenHolds(p, w, slots[active]);
      slots := slots[active := RawWrite(slots[active], cipher)];
      RawAt(old(slots)[active], cipher);
      var hash := p.hash(cipher);
      if !saveOk {
        OneEvent(p, old(Now()), old(active), Failed(slots[active]));
        return false;
      }
      OneEvent(p, old(Now()), old(active), Write(w));
      saved := Some(Saved(hash, w.key));
      return true;
    }

    /** One slot, whose device may fail. */
    method ReadSlot(s: nat, error: bool) returns (r: Option<Blob>)
      requires Valid() && s < 2
      ensures r == if error then None else RawRead(slots[s])
    {
      if error {
        return None;
      }
      var n := FromBigEndian(slots[s][..4]);
      if n == 0 || n > slotSize - 4 {
        return None;
      }
      return Some(slots[s][4..4 + n]);
    }

    /** read_vtpmblk.  errors says for which slots the device fails. */
    method ReadState(errors: seq<bool>) returns (r: Option<Clear>)
      requires Valid() && |errors| == 2
      modifies this`active
      ensures Valid()
      ensures errors == [false, false] ==> ((r, active), Now()) == (Reading(p, Now()), old(Now()))
      ensures saved.Some? ==>
        var hash := saved.value.hash;
        (r, active) == Chosen(p, saved.value.key, if errors[0] then Unreadable else LookAt(p, slots[0], hash),
                              if errors[1] then Unreadable else LookAt(p, slots[1], hash))
      ensures saved.None? ==> (r, active) == (None, -1)
      ensures r.Some? ==> saved.Some? && 0 <= active < 2 && Shows(p, saved.value, slots[active], r.value)
    {
      hide RawRead, Decrypt, Opened, Shows;
      active := -1;
      if saved.None? {
        return None;
      }
      var raw := ReadSlot(0, errors[0]);
      if raw.None? {
        return None;
      }
      var slot := 0;
      if p.hash(raw.value) != saved.value.hash {
        slot := 1;
        raw := ReadSlot(1, errors[1]);
        if raw.None? || p.hash(raw.value) != saved.value.hash {
          return None;
        }
      }
      var clear := Opened(p, saved.value.key, raw.value, slot);
      OpenedShows(p, saved.value, slots[slot], slot);
      active := clear.1;
      return clear.0;
    }
  }

  /** A run of one event. */
  lemma OneEvent(p: Primitives, d: Disk, active: int, e: Event)
    requires Formed(d) && Possible(|d.slots[0]|, e)
    ensures After(p, d, active, [e]) == match e
      case Write(w) => (Written(p, d, Next(active), w), Next(active))
      case Failed(junk) => (Torn(d, Next(active), junk), Next(active))
      case Restart => (d, Recovered(p, d).1)
  {
    hide Recovered, Encrypt, RawWrite, Fits;
    assert [e][..0] == [];
    assert After(p, d, active, []) == (d, active);
  }
}

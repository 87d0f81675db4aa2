/** Encrypted files with random access (server/filecrypt.go). */
module FileCrypt {
  import opened Common

  const FILE_MAGIC: Bytes := [0x48, 0x58, 0x45, 0x31]
  const BLOCK_SIZE := 16
  const FILE_HEADER_SIZE := 20
  const TWO_64: nat := 0x1_0000_0000_0000_0000
  const TWO_128: nat := 0x1_0000_0000_0000_0000_0000_0000_0000_0000

  type Block = b: Bytes | |b| == BLOCK_SIZE witness seq(BLOCK_SIZE, _ => 0)

  /** AES under one key, left uninterpreted: every theorem holds for any function. */
  type BlockCipher = Block -> Block

  // ── Big-endian counters ─────────────────────────────────────────────────

  function Pow256(n: nat): (r: nat)
    ensures r > 0
  {
    if n == 0 then 1 else 256 * Pow256(n - 1)
  }

  /** The number that `b` spells in big-endian order. */
  function Value(b: Bytes): nat {
    if b == [] then 0 else 256 * Value(b[..|b| - 1]) + b[|b| - 1] as nat
  }

  lemma {:induction false} ValueBound(b: Bytes)
    ensures Value(b) < Pow256(|b|)
  {
    if b != [] {
      ValueBound(b[..|b| - 1]);
    }
  }

  lemma {:induction false} ValueConcat(a: Bytes, b: Bytes)
    ensures Value(a + b) == Value(a) * Pow256(|b|) + Value(b)
  {
    if b == [] {
      assert a + b == a;
    } else {
      var init := b[..|b| - 1];
      assert (a + b)[..|a + b| - 1] == a + init;
      ValueConcat(a, init);
      calc {
        Value(a + b);
        256 * (Value(a) * Pow256(|init|) + Value(init)) + b[|b| - 1] as nat;
        256 * (Value(a) * Pow256(|init|)) + Value(b);
        Value(a) * (256 * Pow256(|init|)) + Value(b);
      }
    }
  }

  lemma {:induction false} ValueInjective(a: Bytes, b: Bytes)
    requires |a| == |b| && Value(a) == Value(b)
    ensures a == b
  {
    if a != [] {
      ValueInjective(a[..|a| - 1], b[..|b| - 1]);
      assert a == a[..|a| - 1] + [a[|a| - 1]];
      assert b == b[..|b| - 1] + [b[|b| - 1]];
    }
  }

  lemma PowersOf256()
    ensures Pow256(8) == TWO_64 && Pow256(16) == TWO_128
  {
    assert Pow256(4) == 0x1_0000_0000;
    assert Pow256(8) == 0x1_0000_0000 * Pow256(4);
    assert Pow256(12) == 0x1_0000_0000 * Pow256(8);
    assert Pow256(16) == 0x1_0000_0000 * Pow256(12);
  }

  /** The standard incrementing function: add one to the last byte and carry leftwards. */
  function Increment(b: Bytes): (r: Bytes)
    ensures |r| == |b|
  {
    if b == [] then []
    else if b[|b| - 1] == 255 then Increment(b[..|b| - 1]) + [0]
    else b[..|b| - 1] + [b[|b| - 1] + 1]
  }

  lemma {:induction false} IncrementAddsOne(b: Bytes)
    ensures Value(Increment(b)) == if Value(b) + 1 == Pow256(|b|) then 0 else Value(b) + 1
  {
    ValueBound(b);
    if b != [] {
      var init, last := b[..|b| - 1], b[|b| - 1];
      ValueBound(init);
      var r := Increment(b);
      assert r[..|r| - 1] == if last == 255 then Increment(init) else init;
      if last == 255 {
        IncrementAddsOne(init);
      }
    }
  }

  /** The counter block after `n` single increments. */
  function CounterAt(iv: Block, n: nat): Block {
    if n == 0 then iv else Increment(CounterAt(iv, n - 1))
  }

  lemma {:induction false} CounterValue(iv: Block, n: nat)
    ensures Value(CounterAt(iv, n)) == (Value(iv) + n) % TWO_128
  {
    PowersOf256();
    if n == 0 {
      ValueBound(iv);
    } else {
      var previous := CounterAt(iv, n - 1);
      CounterValue(iv, n - 1);
      IncrementAddsOne(previous);
      WrapsAround(Value(iv) + n - 1, Value(previous));
    }
  }

  lemma WrapsAround(sum: nat, wrapped: nat)
    requires wrapped == sum % TWO_128
    ensures (if wrapped + 1 == TWO_128 then 0 else wrapped + 1) == (sum + 1) % TWO_128
  {}

  lemma {:induction false} CounterAdds(iv: Block, n: nat, k: nat)
    ensures CounterAt(CounterAt(iv, n), k) == CounterAt(iv, n + k)
  {
    if k > 0 {
      CounterAdds(iv, n, k - 1);
    }
  }

  /** The `n` low-order base-256 digits of `v`, most significant first. */
  function Digits(v: nat, n: nat): (b: Bytes)
    ensures |b| == n
  {
    if n == 0 then [] else Digits(v / 256, n - 1) + [(v % 256) as byte]
  }

  lemma {:induction false} DigitsSpellValue(v: nat, n: nat)
    requires v < Pow256(n)
    ensures Value(Digits(v, n)) == v
  {
    if n > 0 {
      DigitsSpellValue(v / 256, n - 1);
      assert Digits(v, n)[..n - 1] == Digits(v / 256, n - 1);
    }
  }

  /** binary.BigEndian.PutUint64 at an offset of the buffer. */
  method PutUint64(ctr: array<byte>, offset: nat, v: nat)
    requires offset + 8 <= ctr.Length && v < TWO_64
    modifies ctr
    ensures Value(ctr[offset..offset + 8]) == v
    ensures ctr[..offset] == old(ctr[..offset]) && ctr[offset + 8..] == old(ctr[offset + 8..])
  {
    var rest, i := v, 8;
    while i > 0
      invariant 0 <= i <= 8
      invariant Digits(v, 8) == Digits(rest, i) + ctr[offset + i..offset + 8]
      invariant ctr[..offset] == old(ctr[..offset]) && ctr[offset + 8..] == old(ctr[offset + 8..])
    {
      ghost var tail := ctr[offset + i..offset + 8];
      i := i - 1;
      ctr[offset + i] := (rest % 256) as byte;
      assert ctr[offset + i..offset + 8] == [(rest % 256) as byte] + tail;
      rest := rest / 256;
    }
    assert ctr[offset..offset + 8] == Digits(rest, 0) + ctr[offset + i..offset + 8];
    PowersOf256();
    DigitsSpellValue(v, 8);
  }

  /** Two 64-bit words with a carry between them behave as `n` single increments of 128 bits. */
  method AddToCounter(ctr: array<byte>, n: nat)
    requires ctr.Length == BLOCK_SIZE && n < TWO_64
    modifies ctr
    ensures ctr[..] == CounterAt(old(ctr[..]), n)
  {
    ghost var before := ctr[..];
    var hi := Value(ctr[0..8]);
    var lo := Value(ctr[8..16]);
    ValueBound(ctr[0..8]);
    ValueBound(ctr[8..16]);
    PowersOf256();
    var newLo := (lo + n) % TWO_64;
    if newLo < lo {
      hi := (hi + 1) % TWO_64;
    }
    PutUint64(ctr, 0, hi);
    ghost var high := ctr[0..8];
    PutUint64(ctr, 8, newLo);
    assert ctr[..8] == high;
    CarriedSum(before, ctr[..], n);
  }

  /** The arithmetic of AddToCounter on the two words before and after. */
  lemma CarriedSum(before: Block, after: Block, n: nat)
    requires n < TWO_64
    requires Value(after[8..16]) == (Value(before[8..16]) + n) % TWO_64
    requires Value(after[0..8]) == if Value(after[8..16]) < Value(before[8..16])
                                   then (Value(before[0..8]) + 1) % TWO_64 else Value(before[0..8])
    ensures after == CounterAt(before, n)
  {
    WordsValue(before);
    WordsValue(after);
    CounterValue(before, n);
    CarryIsAddition(Value(before[0..8]), Value(before[8..16]), n, Value(after[0..8]), Value(after[8..16]));
    ValueInjective(after, CounterAt(before, n));
  }

  lemma CarryIsAddition(hi: nat, lo: nat, n: nat, hi': nat, lo': nat)
    requires hi < TWO_64 && lo < TWO_64 && n < TWO_64
    requires lo' == (lo + n) % TWO_64
    requires hi' == if lo' < lo then (hi + 1) % TWO_64 else hi
    ensures hi' * TWO_64 + lo' == (hi * TWO_64 + lo + n) % TWO_128
  {
    if lo + n < TWO_64 {
      assert lo' == lo + n;
    } else {
      assert lo' == lo + n - TWO_64;
    }
  }

  lemma WordsValue(b: Block)
    ensures Value(b) == Value(b[0..8]) * TWO_64 + Value(b[8..16])
    ensures Value(b[0..8]) < TWO_64 && Value(b[8..16]) < TWO_64
  {
    PowersOf256();
    ValueConcat(b[0..8], b[8..16]);
    assert b == b[0..8] + b[8..16];
    ValueBound(b[0..8]);
    ValueBound(b[8..16]);
  }

  // ── The CTR key stream ──────────────────────────────────────────────────

  /** Byte `i` of the key stream that starts at counter block `iv`. */
  function KeystreamByte(E: BlockCipher, iv: Block, i: nat): byte {
    E(CounterAt(iv, i / 16))[i % 16]
  }

  /** Byte `i` of what remains of the key stream once `pos` bytes have been used. */
  function KeystreamAfter(E: BlockCipher, iv: Block, pos: nat, i: nat): byte {
    KeystreamByte(E, iv, pos + i)
  }

  /** `data` combined with the key stream from position `pos` on. */
  function XorStream(E: BlockCipher, iv: Block, pos: nat, data: Bytes): (r: Bytes)
    ensures |r| == |data|
  {
    seq(|data|, i requires 0 <= i < |data| => Xor(data[i], KeystreamAfter(E, iv, pos, i)))
  }

  /** Moving the counter by whole blocks moves the key stream by sixteen times as many bytes. */
  lemma {:induction false} KeystreamSeek(E: BlockCipher, iv: Block, blocks: nat, i: nat)
    ensures KeystreamByte(E, CounterAt(iv, blocks), i) == KeystreamByte(E, iv, 16 * blocks + i)
  {
    var j := 16 * blocks + i;
    var q, r := i / 16, i % 16;
    BlockOf(blocks, i);
    var there := CounterAt(iv, blocks);
    assert CounterAt(there, q) == CounterAt(iv, blocks + q) by { CounterAdds(iv, blocks, q); }
    assert KeystreamByte(E, there, i) == E(CounterAt(there, q))[r];
    assert KeystreamByte(E, iv, j) == E(CounterAt(iv, blocks + q))[r];
  }

  lemma BlockOf(blocks: nat, i: nat)
    ensures (16 * blocks + i) / 16 == blocks + i / 16 && (16 * blocks + i) % 16 == i % 16
  {}

  lemma XorStreamTwice(E: BlockCipher, iv: Block, pos: nat, data: Bytes)
    ensures XorStream(E, iv, pos, XorStream(E, iv, pos, data)) == data
  {
    forall i | 0 <= i < |data|
      ensures XorStream(E, iv, pos, XorStream(E, iv, pos, data))[i] == data[i]
    {
      XorTwice(data[i], KeystreamAfter(E, iv, pos, i));
    }
  }

  lemma XorStreamConcat(E: BlockCipher, iv: Block, pos: nat, a: Bytes, b: Bytes)
    ensures XorStream(E, iv, pos, a + b) == XorStream(E, iv, pos, a) + XorStream(E, iv, pos + |a|, b)
  {}

  /** A slice of a decryption is the decryption of the slice from the same position. */
  lemma XorStreamSlice(E: BlockCipher, iv: Block, data: Bytes, from: nat, to: nat)
    requires from <= to <= |data|
    ensures XorStream(E, iv, 0, data)[from..to] == XorStream(E, iv, from, data[from..to])
  {}

  lemma XorStreamExtends(E: BlockCipher, iv: Block, pos: nat, data: Bytes, i: nat, j: nat)
    requires i <= j <= |data|
    ensures XorStream(E, iv, pos, data[..j]) == XorStream(E, iv, pos, data[..i]) + XorStream(E, iv, pos + i, data[i..j])
  {
    assert data[..j] == data[..i] + data[i..j];
    XorStreamConcat(E, iv, pos, data[..i], data[i..j]);
  }

  /** cipher.Stream in CTR mode: XORKeyStream consumes key stream and remembers how much. */
  class CtrStream {
    const E: BlockCipher
    const iv: Block
    var pos: nat

    constructor (E: BlockCipher, iv: Block)
      ensures this.E == E && this.iv == iv && pos == 0
    {
      this.E, this.iv, pos := E, iv, 0;
    }

    method XORKeyStream(data: Bytes) returns (out: Bytes)
      modifies this
      ensures pos == old(pos) + |data|
      ensures out == XorStream(E, iv, old(pos), data)
    {
      out := [];
      for i := 0 to |data|
        invariant pos == old(pos) + i
        invariant out == XorStream(E, iv, old(pos), data[..i])
      {
        out := out + [Xor(data[i], KeystreamByte(E, iv, pos))];
        pos := pos + 1;
        assert data[..i + 1] == data[..i] + [data[i]];
      }
      assert data[..|data|] == data;
    }

    /** The stream stands where one started at `base` would after `offset` bytes. */
    ghost predicate StandsAt(base: Block, offset: nat)
      reads this
    {
      forall i: nat :: KeystreamAfter(E, iv, pos, i) == KeystreamAfter(E, base, offset, i)
    }
  }

  /** newCTRAt: a stream positioned at a plaintext offset, found without decrypting what precedes it. */
  method NewCTRAt(E: BlockCipher, iv: Block, offset: nat) returns (stream: CtrStream)
    requires offset <= MAX_OFFSET
    ensures fresh(stream) && stream.E == E && stream.StandsAt(iv, offset)
  {
    var ctr := new byte[BLOCK_SIZE](i requires 0 <= i < BLOCK_SIZE => iv[i]);
    assert ctr[..] == iv;
    AddToCounter(ctr, offset / 16);
    stream := new CtrStream(E, ctr[..]);
    var within := offset % 16;
    if within > 0 {
      var skip := seq(within, _ => 0 as byte);
      skip := stream.XORKeyStream(skip);
    }
    forall i: nat
      ensures KeystreamAfter(E, stream.iv, stream.pos, i) == KeystreamAfter(E, iv, offset, i)
    {
      KeystreamSeek(E, iv, offset / 16, within + i);
    }
  }

  /** File offsets are signed 64-bit numbers. */
  const MAX_OFFSET: nat := 0x7FFF_FFFF_FFFF_FFFF

  /** io.Copy moves data in pieces of this size. */
  const COPY_BUFFER: nat := 0x8000

  // ── The file format ─────────────────────────────────────────────────────

  /** The header that tells an encrypted file from a legacy one: enough bytes, and the magic in front. */
  predicate HasHeader(file: Bytes) {
    |file| >= FILE_HEADER_SIZE && file[..4] == FILE_MAGIC
  }

  function FileIV(file: Bytes): Block
    requires HasHeader(file)
  {
    file[4..FILE_HEADER_SIZE]
  }

  function EncryptedFile(E: BlockCipher, iv: Block, plain: Bytes): (file: Bytes)
    ensures HasHeader(file)
  {
    FILE_MAGIC + iv + XorStream(E, iv, 0, plain)
  }

  function DecryptedFile(E: BlockCipher, file: Bytes): Bytes
    requires HasHeader(file)
  {
    XorStream(E, FileIV(file), 0, file[FILE_HEADER_SIZE..])
  }

  lemma FileRoundTrip(E: BlockCipher, iv: Block, plain: Bytes)
    ensures DecryptedFile(E, EncryptedFile(E, iv, plain)) == plain
  {
    var file := EncryptedFile(E, iv, plain);
    assert FileIV(file) == iv && file[FILE_HEADER_SIZE..] == XorStream(E, iv, 0, plain);
    XorStreamTwice(E, iv, 0, plain);
  }

  /**
   * The format and the mode of section 6.5 of NIST SP 800-38A, byte by byte: magic, IV, and the plaintext combined with
   * the encryptions of the counter blocks that the IV and the numbers after it spell, modulo 2^128.
   */
  lemma FileIsCtr(E: BlockCipher, iv: Block, plain: Bytes, i: nat, counter: Block)
    requires i < |plain| && Value(counter) == (Value(iv) + i / 16) % TWO_128
    ensures var file := EncryptedFile(E, iv, plain);
            && |file| == FILE_HEADER_SIZE + |plain| && file[..4] == FILE_MAGIC && file[4..FILE_HEADER_SIZE] == iv
            && file[FILE_HEADER_SIZE + i] == Xor(plain[i], E(counter)[i % 16])
  {
    hide Value, CounterAt, Xor;
    CounterValue(iv, i / 16);
    ValueInjective(counter, CounterAt(iv, i / 16));
    assert XorStream(E, iv, 0, plain)[i] == Xor(plain[i], KeystreamAfter(E, iv, 0, i));
  }

  /** Two keys cannot be told apart on a payload of this length behind this IV. */
  predicate StreamsAgree(E: BlockCipher, E': BlockCipher, iv: Block, length: nat) {
    forall i :: 0 <= i < length ==> KeystreamByte(E, iv, i) == KeystreamByte(E', iv, i)
  }

  /** Two keys decrypt a file alike exactly if their key streams coincide over its payload, whatever it holds. */
  lemma DecryptsAlike(E: BlockCipher, E': BlockCipher, file: Bytes)
    requires HasHeader(file)
    ensures DecryptedFile(E, file) == DecryptedFile(E', file)
       <==> StreamsAgree(E, E', FileIV(file), |file| - FILE_HEADER_SIZE)
  {
    var stored := file[FILE_HEADER_SIZE..];
    var a, b := DecryptedFile(E, file), DecryptedFile(E', file);
    forall i | 0 <= i < |stored|
      ensures a[i] == b[i] <==> KeystreamByte(E, FileIV(file), i) == KeystreamByte(E', FileIV(file), i)
    {
      XorCancels(stored[i], KeystreamByte(E, FileIV(file), i), KeystreamByte(E', FileIV(file), i));
    }
  }

  lemma EncryptedFileGrows(E: BlockCipher, iv: Block, plain: Bytes, more: Bytes)
    ensures EncryptedFile(E, iv, plain + more) == EncryptedFile(E, iv, plain) + XorStream(E, iv, |plain|, more)
  {
    XorStreamConcat(E, iv, 0, plain, more);
  }

  lemma EncryptedFilePrefix(E: BlockCipher, iv: Block, part: Bytes, plain: Bytes)
    requires part <= plain
    ensures EncryptedFile(E, iv, part) <= EncryptedFile(E, iv, plain)
  {
    EncryptedFileGrows(E, iv, part, plain[|part|..]);
    assert part + plain[|part|..] == plain;
  }

  /** A destination that accepts at most `room` bytes; a write that does not fit is cut short and reported. */
  class Sink {
    const room: nat
    var data: Bytes

    constructor (room: nat)
      ensures this.room == room && data == []
    {
      this.room, data := room, [];
    }

    method Write(p: Bytes) returns (ok: bool)
      requires |data| <= room
      modifies this
      ensures ok == (|old(data)| + |p| <= room)
      ensures data == (old(data) + p)[..if ok then |old(data)| + |p| else room]
    {
      ok := |data| + |p| <= room;
      data := (data + p)[..if ok then |data| + |p| else room];
    }
  }

  function Flatten(chunks: seq<Bytes>): Bytes {
    if chunks == [] then [] else Flatten(chunks[..|chunks| - 1]) + chunks[|chunks| - 1]
  }

  /** encryptStream: header, then the source chunk by chunk; a full destination leaves a prefix of the file. */
  method EncryptStream(E: BlockCipher, iv: Block, source: seq<Bytes>, dst: Sink) returns (ok: bool)
    requires dst.data == []
    modifies dst
    ensures ok == (FILE_HEADER_SIZE + |Flatten(source)| <= dst.room)
    ensures ok ==> dst.data == EncryptedFile(E, iv, Flatten(source))
    ensures dst.data <= EncryptedFile(E, iv, Flatten(source))
  {
    ok := dst.Write(FILE_MAGIC);
    FlattenPrefix(source, 0);
    if !ok { return; }
    ok := dst.Write(iv);
    if !ok { return; }
    var stream := new CtrStream(E, iv);
    for i := 0 to |source|
      invariant dst.data == EncryptedFile(E, iv, Flatten(source[..i])) && |dst.data| <= dst.room
      invariant ok
      invariant stream.E == E && stream.iv == iv && stream.pos == |Flatten(source[..i])|
    {
      var out := stream.XORKeyStream(source[i]);
      assert source[..i + 1][..i] == source[..i];
      EncryptedFileGrows(E, iv, Flatten(source[..i]), source[i]);
      FlattenPrefix(source, i + 1);
      EncryptedFilePrefix(E, iv, Flatten(source[..i + 1]), Flatten(source));
      ok := dst.Write(out);
      if !ok { return; }
    }
    assert source[..|source|] == source;
  }

  /** What an encryption has produced after `i` chunks is a prefix of what it will produce. */
  lemma {:induction false} FlattenPrefix(chunks: seq<Bytes>, i: nat)
    requires i <= |chunks|
    ensures Flatten(chunks[..i]) <= Flatten(chunks)
    decreases |chunks|
  {
    if i == |chunks| {
      assert chunks[..i] == chunks;
    } else {
      var init := chunks[..|chunks| - 1];
      FlattenPrefix(init, i);
      assert init[..i] == chunks[..i];
    }
  }
}

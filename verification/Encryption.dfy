/** Identity-based encryption of messages to an epoch, and its byte format. */
module Encryption {
  import opened ByteValues
  import opened Modular
  import opened Outcome
  import opened Groups

  const BLOCK_SIZE: nat := 32
  const MAX_VARINT_LEN: nat := 10

  type Bytes = seq<bv8>

  /** A 32 byte block. */
  type Block = b: Bytes | |b| == 32 witness seq(32, _ => 0)

  /** The foreign functions the scheme is built on. Nothing is assumed about them. */
  datatype Oracle = Oracle(keccak: Bytes -> Block, marshalGT: GT -> Bytes)

  /** The output of the encryption procedure. */
  datatype EncryptedMessage = EncryptedMessage(c1: G2, c2: Block, c3: seq<Block>)

  // ----- hashing and blocks

  /** Big endian value of a byte string. */
  function SetBytes(b: Bytes): nat {
    if b == [] then 0 else 256 * SetBytes(b[..|b| - 1]) + b[|b| - 1] as nat
  }

  /** The shortest byte string with this big endian value, as evaluations are sent. */
  function ValueBytes(n: nat): Bytes {
    if n == 0 then [] else ValueBytes(n / 256) + [(n % 256) as bv8]
  }

  /** What is read back is what was sent. */
  lemma {:induction false} ValueRoundTrip(n: nat)
    ensures SetBytes(ValueBytes(n)) == n
  {
    if n > 0 {
      ValueRoundTrip(n / 256);
      ByteValue(n % 256);
    }
  }

  /** Of byte strings of one length, only one has a given value. */
  lemma {:induction false} ValuesDiffer(a: Bytes, b: Bytes)
    requires |a| == |b| && SetBytes(a) == SetBytes(b)
    ensures a == b
  {
    if a != [] {
      var n := |a| - 1;
      LastByte(SetBytes(a[..n]), SetBytes(b[..n]), a[n], b[n]);
      ValuesDiffer(a[..n], b[..n]);
    }
  }

  lemma LastByte(x: nat, y: nat, a: bv8, b: bv8)
    requires 256 * x + a as nat == 256 * y + b as nat
    ensures x == y && a == b
  {
    ByteRange(a);
    ByteRange(b);
  }

  function HashBlockToInt(o: Oracle, q: int, d: Block): int
    requires q > 0
  {
    SetBytes(o.keccak(d)) % q
  }

  function HashGTToBlock(o: Oracle, gt: GT): Block {
    o.keccak(o.marshalGT(gt))
  }

  function Xor(b1: Block, b2: Block): Block {
    seq(32, i requires 0 <= i < 32 => b1[i] ^ b2[i])
  }

  method XORBlocks(b1: Block, b2: Block) returns (r: Block)
    ensures r == Xor(b1, b2)
  {
    var b := new bv8[BLOCK_SIZE];
    for i := 0 to BLOCK_SIZE
      invariant forall j :: 0 <= j < i ==> b[j] == b1[j] ^ b2[j]
    {
      b[i] := b1[i] ^ b2[i];
    }
    r := b[..];
  }

  lemma XorByte(a: bv8, b: bv8)
    ensures (a ^ b) ^ b == a && (b ^ a) ^ b == a
  {
  }

  /** Applying the same key twice, from either side, restores the block. */
  lemma XorTwice(b: Block, key: Block)
    ensures Xor(Xor(b, key), key) == b
    ensures Xor(Xor(key, b), key) == b
  {
    forall i | 0 <= i < 32
      ensures Xor(Xor(b, key), key)[i] == b[i] && Xor(Xor(key, b), key)[i] == b[i]
    {
      XorByte(b[i], key[i]);
    }
  }

  // ----- PKCS #7 padding, section 10.3 of RFC 2315

  function PaddingLength(m: Bytes): (k: nat)
    ensures 1 <= k <= 32 && (|m| + k) % 32 == 0
  {
    32 - |m| % 32
  }

  function Padded(m: Bytes): (p: Bytes)
    ensures |p| % 32 == 0 && |p| > 0
  {
    var k := PaddingLength(m);
    m + seq(k, _ => k as bv8)
  }

  function Split(s: Bytes): (blocks: seq<Block>)
    requires |s| % 32 == 0
    ensures 32 * |blocks| == |s|
  {
    if s == [] then [] else Split(s[..|s| - 32]) + [s[|s| - 32..]]
  }

  function Flatten(blocks: seq<Block>): (s: Bytes)
    ensures |s| == 32 * |blocks|
  {
    if blocks == [] then [] else Flatten(blocks[..|blocks| - 1]) + blocks[|blocks| - 1]
  }

  lemma FlattenSnoc(blocks: seq<Block>, b: Block)
    ensures Flatten(blocks + [b]) == Flatten(blocks) + b
  {
    assert (blocks + [b])[..|blocks|] == blocks;
  }

  lemma SplitSnoc(s: Bytes, b: Block)
    requires |s| % 32 == 0
    ensures Split(s + b) == Split(s) + [b]
  {
    var t := s + b;
    assert t[..|t| - 32] == s && t[|t| - 32..] == b;
  }

  lemma {:induction false} FlattenSplit(s: Bytes)
    requires |s| % 32 == 0
    ensures Flatten(Split(s)) == s
  {
    if s != [] {
      var head, last := s[..|s| - 32], s[|s| - 32..];
      FlattenSplit(head);
      assert s == head + last;
      SplitSnoc(head, last);
      FlattenSnoc(Split(head), last);
    }
  }

  lemma {:induction false} SplitFlatten(blocks: seq<Block>)
    ensures Split(Flatten(blocks)) == blocks
  {
    if blocks != [] {
      var n := |blocks| - 1;
      SplitFlatten(blocks[..n]);
      assert blocks == blocks[..n] + [blocks[n]];
      FlattenSnoc(blocks[..n], blocks[n]);
      SplitSnoc(Flatten(blocks[..n]), blocks[n]);
    }
  }

  lemma SplitNext(s: Bytes, done: nat)
    requires done % 32 == 0 && done + 32 <= |s|
    ensures Split(s[..done + 32]) == Split(s[..done]) + [s[done..done + 32]]
  {
    assert s[..done + 32] == s[..done] + s[done..done + 32];
    SplitSnoc(s[..done], s[done..done + 32]);
  }

  /** The next block off the front. */
  lemma NextBlock(d: Bytes, done: nat)
    requires done % 32 == 0 && |d| % 32 == 0 && done < |d|
    ensures done + 32 <= |d| && d[done..][..32] == d[done..done + 32] && d[done..][32..] == d[done + 32..]
    ensures Split(d[..done + 32]) == Split(d[..done]) + [d[done..done + 32]]
  {
    SplitNext(d, done);
  }

  method SplitIntoBlocks(padded: Bytes) returns (blocks: seq<Block>)
    requires |padded| % 32 == 0
    ensures blocks == Split(padded)
  {
    blocks := [];
    var numBlocks := |padded| / BLOCK_SIZE;
    for i := 0 to numBlocks
      invariant blocks == Split(padded[..32 * i])
    {
      SplitNext(padded, 32 * i);
      blocks := blocks + [padded[i * 32..(i + 1) * 32]];
    }
    assert padded[..32 * numBlocks] == padded;
  }

  method PadMessage(m: Bytes) returns (blocks: seq<Block>)
    ensures blocks == Split(Padded(m))
  {
    var paddingLength := BLOCK_SIZE - |m| % BLOCK_SIZE;
    var padding := seq(paddingLength, _ => paddingLength as bv8);
    blocks := SplitIntoBlocks(m + padding);
  }

  /** What unpadding returns: an empty list is the empty message, otherwise the
      last byte counts the bytes to drop and must lie in 1..32. */
  function Unpadded(blocks: seq<Block>): Result<Bytes> {
    if blocks == [] then Ok([])
    else
      var k := blocks[|blocks| - 1][31] as nat;
      if k == 0 then Err("invalid padding length 0")
      else if k > BLOCK_SIZE then Err("invalid padding length")
      else Ok(Flatten(blocks)[..32 * |blocks| - k])
  }

  lemma LastBlock(blocks: seq<Block>)
    requires blocks != []
    ensures Flatten(blocks) == Flatten(blocks[..|blocks| - 1]) + blocks[|blocks| - 1]
  {
  }

  lemma CutOff(a: Bytes, b: Bytes, k: nat)
    requires k <= |b|
    ensures |a + b| - k == |a| + |b| - k && (a + b)[..|a| + |b| - k] == a + b[..|b| - k]
  {
  }

  method UnpadMessage(blocks: seq<Block>) returns (r: Result<Bytes>)
    ensures r == Unpadded(blocks)
  {
    if |blocks| == 0 {
      return Ok([]);
    }
    var lastBlock := blocks[|blocks| - 1];
    var paddingLength := lastBlock[BLOCK_SIZE - 1] as nat;
    if paddingLength == 0 {
      return Err("invalid padding length 0");
    }
    if paddingLength > BLOCK_SIZE {
      return Err("invalid padding length");
    }
    var m := [];
    for i := 0 to |blocks| - 1
      invariant m == Flatten(blocks[..i])
    {
      assert blocks[..i + 1][..i] == blocks[..i];
      m := m + blocks[i];
    }
    LastBlock(blocks);
    CutOff(m, lastBlock, paddingLength);
    m := m + lastBlock[..BLOCK_SIZE - paddingLength];
    return Ok(m);
  }

  /** Unpadding undoes padding, for messages of every length. */
  lemma PaddingRoundTrip(m: Bytes)
    ensures Unpadded(Split(Padded(m))) == Ok(m)
  {
    var p, k := Padded(m), PaddingLength(m);
    var blocks := Split(p);
    FlattenSplit(p);
    ByteValue(k);
    var n := |blocks| - 1;
    assert Flatten(blocks)[32 * n + 31] == blocks[n][31];
    assert p[|p| - 1] == k as bv8;
    assert p[..|p| - k] == m;
  }

  /** The padding is as long as its last byte says, and all its bytes are the same. */
  predicate WellPadded(blocks: seq<Block>) {
    && blocks != []
    && var last := blocks[|blocks| - 1];
       && 1 <= last[31] as nat <= 32
       && forall i :: 32 - last[31] as nat <= i < 32 ==> last[i] == last[31]
  }

  /** The message that well padded blocks stand for. */
  function PaddedFrom(blocks: seq<Block>): Bytes
    requires WellPadded(blocks)
  {
    Flatten(blocks)[..32 * |blocks| - blocks[|blocks| - 1][31] as nat]
  }

  /** What is accepted is cut off at the end, by as much as a padding can have; nothing else
      is refused but what cannot be the last byte of a padding. */
  lemma UnpaddedCuts(blocks: seq<Block>)
    requires blocks != []
    ensures Unpadded(blocks).Ok? <==> 1 <= blocks[|blocks| - 1][31] as nat <= 32
    ensures Unpadded(blocks).Ok? ==>
      Unpadded(blocks).value <= Flatten(blocks) && 1 <= 32 * |blocks| - |Unpadded(blocks).value| <= 32
  {
  }

  lemma FlattenLast(blocks: seq<Block>, i: nat)
    requires blocks != [] && i < 32
    ensures Flatten(blocks)[32 * (|blocks| - 1) + i] == blocks[|blocks| - 1][i]
  {
  }

  lemma RepeatedByte(b: bv8, k: nat)
    requires b as nat == k && 1 <= k <= 32
    ensures k as bv8 == b
  {
    ByteValue(k);
  }

  lemma PaddingLengthIs(m: Bytes, k: nat)
    requires (|m| + k) % 32 == 0 && 1 <= k <= 32
    ensures PaddingLength(m) == k
  {
  }

  lemma TailIs(s: Bytes, k: nat, b: bv8)
    requires k <= |s| && forall j :: |s| - k <= j < |s| ==> s[j] == b
    ensures s[..|s| - k] + seq(k, _ => b) == s
  {
  }

  lemma SameTail(s: Bytes, k: nat, b: bv8)
    requires |s| % 32 == 0 && 1 <= k <= 32 && k <= |s| && b as nat == k
    requires forall j :: |s| - k <= j < |s| ==> s[j] == b
    ensures Padded(s[..|s| - k]) == s
  {
    var m := s[..|s| - k];
    RepeatedByte(b, k);
    PaddingLengthIs(m, k);
    TailIs(s, k, b);
    assert seq(k, _ => k as bv8) == seq(k, _ => b);
  }

  lemma WellPaddedIsPadding(blocks: seq<Block>)
    requires WellPadded(blocks)
    ensures Split(Padded(PaddedFrom(blocks))) == blocks
  {
    var s, last := Flatten(blocks), blocks[|blocks| - 1];
    var k := last[31] as nat;
    forall j | |s| - k <= j < |s|
      ensures s[j] == last[31]
    {
      FlattenLast(blocks, j - 32 * (|blocks| - 1));
    }
    SameTail(s, k, last[31]);
    SplitFlatten(blocks);
  }

  lemma PaddingIsWellPadded(m: Bytes)
    ensures WellPadded(Split(Padded(m)))
  {
    var p, k, blocks := Padded(m), PaddingLength(m), Split(Padded(m));
    FlattenSplit(p);
    ByteValue(k);
    var last := blocks[|blocks| - 1];
    forall i | 32 - k <= i < 32
      ensures last[i] == k as bv8
    {
      FlattenLast(blocks, i);
    }
  }

  /** Unpadding looks at the last byte only, and takes no blocks for the empty message. So
      it accepts more than the paddings: what it accepts is the padding of its result
      exactly if there is a last block and the bytes dropped are all the same. */
  lemma UnpaddedExactly(blocks: seq<Block>, m: Bytes)
    requires Unpadded(blocks) == Ok(m)
    ensures Split(Padded(m)) == blocks <==> WellPadded(blocks)
  {
    PaddingIsWellPadded(m);
    if WellPadded(blocks) {
      WellPaddedIsPadding(blocks);
    }
  }

  /** Blocks that unpad to something although they are no padding of it. */
  lemma AcceptedThoughNoPadding(first: Block)
    ensures Unpadded([]) == Ok([]) && !WellPadded([])
    ensures Unpadded([first[30 := 0][31 := 2]]).Ok? && !WellPadded([first[30 := 0][31 := 2]])
  {
    var b := first[30 := 0][31 := 2];
    assert b[31] as nat == 2 && b[30] != b[31];
  }

  // ----- block keys

  /** Writes the unsigned variable length encoding of ux at position k. */
  function PutUvarint(buf: Bytes, k: nat, ux: nat): (r: Bytes)
    ensures |r| == |buf|
    decreases ux
  {
    if k >= |buf| then buf
    else if ux < 128 then buf[k := ux as bv8]
    else PutUvarint(buf[k := Digit(ux)], k + 1, ux / 128)
  }

  /** The signed encoding of a non-negative number doubles it first. */
  function PutVarint(buf: Bytes, x: nat): (r: Bytes)
    ensures |r| == |buf|
  {
    PutUvarint(buf, 0, 2 * x)
  }

  /** The contents of the reused buffer after n numbers have been written to it. */
  function KeyBuffer(n: nat): (buf: Bytes)
    ensures |buf| == 10
  {
    if n == 0 then seq(10, _ => 0) else PutVarint(KeyBuffer(n - 1), n - 1)
  }

  /** Reads an unsigned variable length encoding from position k on. */
  function ReadUvarint(buf: Bytes, k: nat): nat
    decreases |buf| - k
  {
    if k >= |buf| then 0
    else if buf[k] as nat < 128 then buf[k] as nat
    else buf[k] as nat - 128 + 128 * ReadUvarint(buf, k + 1)
  }

  /** Half of what is encoded: the sign bit of a non-negative number is 0. */
  function ReadVarint(buf: Bytes): nat {
    ReadUvarint(buf, 0) / 2
  }

  /** How many numbers fit into n bytes. */
  function Capacity(n: nat): nat {
    if n == 0 then 1 else 128 * Capacity(n - 1)
  }

  lemma SplitDigit(ux: nat, rest: nat)
    requires ux < 128 * rest
    ensures ux / 128 < rest && ux == ux % 128 + 128 * (ux / 128)
  {
  }

  /** Reading gives back what was written, and nothing before it has changed. */
  lemma {:induction false} UvarintRoundTrip(buf: Bytes, k: nat, ux: nat)
    requires k < |buf| && ux < Capacity(|buf| - k)
    ensures ReadUvarint(PutUvarint(buf, k, ux), k) == ux
    ensures PutUvarint(buf, k, ux)[..k] == buf[..k]
    decreases ux
  {
    if ux < 128 {
      LastDigit(buf, k, ux);
    } else {
      SplitDigit(ux, Capacity(|buf| - k - 1));
      if k + 1 < |buf| {
        UvarintRoundTrip(buf[k := Digit(ux)], k + 1, ux / 128);
        DigitRead(buf, PutUvarint(buf[k := Digit(ux)], k + 1, ux / 128), k, ux);
      }
    }
  }

  /** The low seven bits, marked as not the last ones. */
  function Digit(ux: nat): bv8 {
    (ux % 128 + 128) as bv8
  }

  lemma DigitValue(ux: nat)
    ensures Digit(ux) as nat == ux % 128 + 128
  {
    ByteValue(ux % 128 + 128);
  }

  lemma LastDigit(buf: Bytes, k: nat, ux: nat)
    requires k < |buf| && ux < 128
    ensures ReadUvarint(buf[k := ux as bv8], k) == ux && buf[k := ux as bv8][..k] == buf[..k]
  {
    ByteValue(ux);
  }

  lemma DigitRead(buf: Bytes, r: Bytes, k: nat, ux: nat)
    requires k < |buf| == |r| && r[..k + 1] == buf[k := Digit(ux)][..k + 1] && ReadUvarint(r, k + 1) == ux / 128
    ensures ReadUvarint(r, k) == ux && r[..k] == buf[..k]
  {
    assert r[k] == r[..k + 1][k] == Digit(ux);
    assert r[..k] == r[..k + 1][..k];
    DigitValue(ux);
  }

  lemma TenBytes()
    ensures Capacity(10) >= 0x1_0000_0000_0000_0000
  {
    assert Capacity(5) == 128 * 128 * 128 * 128 * 128;
    assert Capacity(10) == 128 * 128 * 128 * 128 * 128 * Capacity(5);
  }

  /** The buffer for a block's key holds the block's number, for all that a signed 64 bit
      integer can be. */
  lemma KeyBufferHolds(i: nat)
    requires i < 0x8000_0000_0000_0000
    ensures ReadVarint(KeyBuffer(i + 1)) == i
  {
    TenBytes();
    UvarintRoundTrip(KeyBuffer(i), 0, 2 * i);
  }

  /** What is hashed to the key of a block. */
  function KeyPreimage(sigma: Block, i: nat): Bytes {
    sigma + KeyBuffer(i + 1)
  }

  lemma PreimagesDiffer(sigma: Block, i: nat, sigma': Block, j: nat)
    requires i < 0x8000_0000_0000_0000 && j < 0x8000_0000_0000_0000
    ensures KeyPreimage(sigma, i) == KeyPreimage(sigma', j) ==> sigma == sigma' && i == j
  {
    KeyBufferHolds(i);
    KeyBufferHolds(j);
    var a, b := KeyPreimage(sigma, i), KeyPreimage(sigma', j);
    assert a[..32] == sigma && b[..32] == sigma' && a[32..] == KeyBuffer(i + 1) && b[32..] == KeyBuffer(j + 1);
  }

  /** No two blocks, of one message or of messages with different sigma, have the same
      key, if the hash does not collide on what is hashed. */
  lemma BlockKeysDiffer(o: Oracle, sigma: Block, i: nat, sigma': Block, j: nat)
    requires i < 0x8000_0000_0000_0000 && j < 0x8000_0000_0000_0000 && (sigma != sigma' || i != j)
    requires o.keccak(KeyPreimage(sigma, i)) == o.keccak(KeyPreimage(sigma', j)) ==>
      KeyPreimage(sigma, i) == KeyPreimage(sigma', j)
    ensures BlockKey(o, sigma, i) != BlockKey(o, sigma', j)
  {
    PreimagesDiffer(sigma, i, sigma', j);
  }

  function BlockKey(o: Oracle, sigma: Block, i: nat): Block {
    o.keccak(sigma + KeyBuffer(i + 1))
  }

  method ComputeBlockKeys(o: Oracle, sigma: Block, n: nat) returns (keys: seq<Block>)
    ensures |keys| == n && forall i :: 0 <= i < n ==> keys[i] == BlockKey(o, sigma, i)
  {
    keys := [];
    var buf := seq(MAX_VARINT_LEN, _ => 0);
    for i := 0 to n
      invariant buf == KeyBuffer(i) && KeysUpTo(o, sigma, keys, i)
    {
      buf := PutVarint(buf, i);
      KeysStep(o, sigma, keys, i);
      keys := keys + [o.keccak(sigma + buf)];
    }
  }

  ghost predicate KeysUpTo(o: Oracle, sigma: Block, keys: seq<Block>, n: nat) {
    |keys| == n && forall i :: 0 <= i < n ==> keys[i] == BlockKey(o, sigma, i)
  }

  lemma KeysStep(o: Oracle, sigma: Block, keys: seq<Block>, i: nat)
    requires KeysUpTo(o, sigma, keys, i)
    ensures KeyBuffer(i + 1) == PutVarint(KeyBuffer(i), i)
    ensures KeysUpTo(o, sigma, keys + [BlockKey(o, sigma, i)], i + 1)
    ensures BlockKey(o, sigma, i) == o.keccak(sigma + KeyBuffer(i + 1))
  {
  }

  /** Each block xored with its own key. */
  function Masked(o: Oracle, blocks: seq<Block>, sigma: Block): (r: seq<Block>)
    ensures |r| == |blocks|
  {
    seq(|blocks|, i requires 0 <= i < |blocks| => Xor(BlockKey(o, sigma, i), blocks[i]))
  }

  function Unmasked(o: Oracle, blocks: seq<Block>, sigma: Block): (r: seq<Block>)
    ensures |r| == |blocks|
  {
    seq(|blocks|, i requires 0 <= i < |blocks| => Xor(blocks[i], BlockKey(o, sigma, i)))
  }

  method ComputeC3(o: Oracle, blocks: seq<Block>, sigma: Block) returns (encryptedBlocks: seq<Block>)
    ensures encryptedBlocks == Masked(o, blocks, sigma)
  {
    encryptedBlocks := [];
    var keys := ComputeBlockKeys(o, sigma, |blocks|);
    for i := 0 to |blocks|
      invariant encryptedBlocks == Masked(o, blocks, sigma)[..i]
    {
      var encryptedBlock := XORBlocks(keys[i], blocks[i]);
      encryptedBlocks := encryptedBlocks + [encryptedBlock];
    }
  }

  method DecryptBlocks(o: Oracle, encryptedBlocks: seq<Block>, sigma: Block) returns (decryptedBlocks: seq<Block>)
    ensures decryptedBlocks == Unmasked(o, encryptedBlocks, sigma)
  {
    var keys := ComputeBlockKeys(o, sigma, |encryptedBlocks|);
    decryptedBlocks := [];
    for i := 0 to |encryptedBlocks|
      invariant decryptedBlocks == Unmasked(o, encryptedBlocks, sigma)[..i]
    {
      var decryptedBlock := XORBlocks(encryptedBlocks[i], keys[i]);
      decryptedBlocks := decryptedBlocks + [decryptedBlock];
    }
  }

  /** Decrypting the blocks undoes encrypting them, for every sigma. */
  lemma MaskRoundTrip(o: Oracle, blocks: seq<Block>, sigma: Block)
    ensures Unmasked(o, Masked(o, blocks, sigma), sigma) == blocks
  {
    forall i | 0 <= i < |blocks|
      ensures Unmasked(o, Masked(o, blocks, sigma), sigma)[i] == blocks[i]
    {
      XorTwice(blocks[i], BlockKey(o, sigma, i));
    }
  }

  /** The hash does not collide on what is hashed to the two block keys. */
  ghost predicate KeysApart(o: Oracle, sigma: Block, i: nat, sigma': Block, j: nat) {
    && i < 0x8000_0000_0000_0000 && j < 0x8000_0000_0000_0000
    && (o.keccak(KeyPreimage(sigma, i)) == o.keccak(KeyPreimage(sigma', j)) ==>
          KeyPreimage(sigma, i) == KeyPreimage(sigma', j))
  }

  /** Equal blocks at different places of a message look different when masked. */
  lemma EqualBlocksMaskedApart(o: Oracle, blocks: seq<Block>, sigma: Block, i: nat, j: nat)
    requires i < |blocks| && j < |blocks| && i != j && blocks[i] == blocks[j] && KeysApart(o, sigma, i, sigma, j)
    ensures Masked(o, blocks, sigma)[i] != Masked(o, blocks, sigma)[j]
  {
    BlockKeysDiffer(o, sigma, i, sigma, j);
    if Masked(o, blocks, sigma)[i] == Masked(o, blocks, sigma)[j] {
      XorSame(blocks[i], BlockKey(o, sigma, i), BlockKey(o, sigma, j));
    }
  }

  lemma XorSame(b: Block, key: Block, key': Block)
    requires Xor(key, b) == Xor(key', b)
    ensures key == key'
  {
    XorTwice(key, b);
    XorTwice(key', b);
  }

  /** Unmasking with a wrong sigma gives no block right. */
  lemma WrongSigmaGarbles(o: Oracle, blocks: seq<Block>, sigma: Block, sigma': Block, i: nat)
    requires i < |blocks| && sigma != sigma' && KeysApart(o, sigma, i, sigma', i)
    ensures Unmasked(o, Masked(o, blocks, sigma), sigma')[i] != blocks[i]
  {
    var key, key' := BlockKey(o, sigma, i), BlockKey(o, sigma', i);
    BlockKeysDiffer(o, sigma, i, sigma', i);
    if Unmasked(o, Masked(o, blocks, sigma), sigma')[i] == blocks[i] {
      XorTwice(Xor(key, blocks[i]), key');
      assert Xor(blocks[i], key') == Xor(key, blocks[i]);
      XorCommutes(blocks[i], key');
      XorSame(blocks[i], key, key');
    }
  }

  lemma XorCommutes(a: Block, b: Block)
    ensures Xor(a, b) == Xor(b, a)
  {
    forall i | 0 <= i < 32
      ensures Xor(a, b)[i] == Xor(b, a)[i]
    {
      XorByteCommutes(a[i], b[i]);
    }
  }

  lemma XorByteCommutes(a: bv8, b: bv8)
    ensures a ^ b == b ^ a
  {
  }

  // ----- encryption and decryption

  function ComputeC2(o: Oracle, q: int, sigma: Block, r: int, epochID: G1, eonPublicKey: G2): Block
    requires q > 0
  {
    var pairing := Pair(q, epochID, eonPublicKey);
    var preimage := ScalarMult(q, pairing, r);
    Xor(sigma, HashGTToBlock(o, preimage))
  }

  /** The encryption of a message. */
  function Encrypted(o: Oracle, q: int, message: Bytes, eonPublicKey: G2, epochID: G1, sigma: Block)
    : EncryptedMessage
    requires q > 0
  {
    var r := HashBlockToInt(o, q, sigma);
    EncryptedMessage(BaseMult(q, r), ComputeC2(o, q, sigma, r, epochID, eonPublicKey),
                     Masked(o, Split(Padded(message)), sigma))
  }

  method Encrypt(o: Oracle, q: int, message: Bytes, eonPublicKey: G2, epochID: G1, sigma: Block)
      returns (e: EncryptedMessage)
    requires q > 0
    ensures e == Encrypted(o, q, message, eonPublicKey, epochID, sigma)
  {
    var messageBlocks := PadMessage(message);
    var r := HashBlockToInt(o, q, sigma);
    var c3 := ComputeC3(o, messageBlocks, sigma);
    e := EncryptedMessage(BaseMult(q, r), ComputeC2(o, q, sigma, r, epochID, eonPublicKey), c3);
  }

  function Sigma(o: Oracle, q: int, m: EncryptedMessage, epochSecretKey: G1): Block
    requires q > 0
  {
    Xor(m.c2, HashGTToBlock(o, Pair(q, epochSecretKey, m.c1)))
  }

  function Decrypted(o: Oracle, q: int, m: EncryptedMessage, epochSecretKey: G1): Result<Bytes>
    requires q > 0
  {
    Unpadded(Unmasked(o, m.c3, Sigma(o, q, m, epochSecretKey)))
  }

  method Decrypt(o: Oracle, q: int, m: EncryptedMessage, epochSecretKey: G1) returns (r: Result<Bytes>)
    requires q > 0
    ensures r == Decrypted(o, q, m, epochSecretKey)
  {
    var sigma := Sigma(o, q, m, epochSecretKey);
    var decryptedBlocks := DecryptBlocks(o, m.c3, sigma);
    r := UnpadMessage(decryptedBlocks);
  }

  /** Both parties derive the same pairing value: e(id, s*P)^r = e(s*id, r*P). */
  lemma SharedPairing(q: int, id: G1, pk: G2, sk: G1, s: int, r: int)
    requires q > 0 && Cong(q, pk, s) && Cong(q, sk, id * s)
    ensures ScalarMult(q, Pair(q, id, pk), r) == Pair(q, sk, BaseMult(q, r))
  {
    CongScale(q, pk, s, id);
    CongMod(q, id * pk);
    CongTrans(q, Pair(q, id, pk), id * pk, id * s);
    CongScale(q, Pair(q, id, pk), id * s, r);
    CongMod(q, r);
    CongMul(q, sk, id * s, BaseMult(q, r), r);
    CongSym(q, sk * BaseMult(q, r), (id * s) * r);
    CongTrans(q, Pair(q, id, pk) * r, (id * s) * r, sk * BaseMult(q, r));
    ModOfCong(q, Pair(q, id, pk) * r, sk * BaseMult(q, r));
  }

  /** Decrypting with the epoch secret key of the encrypting public key returns
      the message, for every message, epoch and sigma. */
  lemma EncryptionRoundTrip(o: Oracle, q: int, message: Bytes, pk: G2, id: G1, sigma: Block, sk: G1, s: int)
    requires q > 0 && Cong(q, pk, s) && Cong(q, sk, id * s)
    ensures Decrypted(o, q, Encrypted(o, q, message, pk, id, sigma), sk) == Ok(message)
  {
    RightKeyFindsSigma(o, q, message, pk, id, sigma, sk, s);
    MaskRoundTrip(o, Split(Padded(message)), sigma);
    PaddingRoundTrip(message);
  }

  lemma DifferentPairings(q: int, sk: G1, sk': G1, r: int)
    requires Prime(q) && !Cong(q, sk, sk') && !Cong(q, r, 0)
    ensures Pair(q, sk, r) != Pair(q, sk', r)
  {
    if Pair(q, sk, r) == Pair(q, sk', r) {
      CongIffMod(q, sk * r, sk' * r);
      assert sk * r == r * sk && sk' * r == r * sk';
      Cancel(q, r, sk, sk');
    }
  }

  lemma XorCancels(b: Block, key: Block, key': Block)
    requires Xor(b, key) == Xor(b, key')
    ensures key == key'
  {
    forall i | 0 <= i < 32
      ensures key[i] == key'[i]
    {
      assert Xor(b, key)[i] == Xor(b, key')[i];
      XorByte(key[i], b[i]);
      XorByte(key'[i], b[i]);
    }
  }

  /** The first part of a ciphertext is the hash of sigma. */
  lemma FirstPart(o: Oracle, q: int, message: Bytes, pk: G2, id: G1, sigma: Block)
    requires q > 0
    ensures Encrypted(o, q, message, pk, id, sigma).c1 == HashBlockToInt(o, q, sigma)
  {
    ModTwice(q, SetBytes(o.keccak(sigma)));
  }

  lemma ModTwice(q: int, x: int)
    requires q > 0
    ensures (x % q) % q == x % q
  {
    CongMod(q, x);
    CongIffMod(q, x % q, x);
  }

  /** The right key finds sigma. */
  lemma RightKeyFindsSigma(o: Oracle, q: int, message: Bytes, pk: G2, id: G1, sigma: Block, sk: G1, s: int)
    requires q > 0 && Cong(q, pk, s) && Cong(q, sk, id * s)
    ensures Sigma(o, q, Encrypted(o, q, message, pk, id, sigma), sk) == sigma
  {
    var e := Encrypted(o, q, message, pk, id, sigma);
    SharedPairing(q, id, pk, sk, s, HashBlockToInt(o, q, sigma));
    XorTwice(sigma, HashGTToBlock(o, Pair(q, sk, e.c1)));
  }

  /** The hash does not collide on the two pairing values. */
  ghost predicate PairingsApart(o: Oracle, a: GT, b: GT) {
    o.keccak(o.marshalGT(a)) == o.keccak(o.marshalGT(b)) ==> a == b
  }

  /** A wrong key does not: unless the hashes collide, what it gives in place of sigma is
      something else. */
  lemma WrongKeyLosesSigma(o: Oracle, q: int, message: Bytes, pk: G2, id: G1, sigma: Block, sk: G1, s: int, sk': G1)
    requires Prime(q) && Cong(q, pk, s) && Cong(q, sk, id * s) && !Cong(q, sk, sk')
    requires HashBlockToInt(o, q, sigma) != 0
    requires var c1 := Encrypted(o, q, message, pk, id, sigma).c1;
      PairingsApart(o, Pair(q, sk, c1), Pair(q, sk', c1))
    ensures Sigma(o, q, Encrypted(o, q, message, pk, id, sigma), sk') != sigma
  {
    var e := Encrypted(o, q, message, pk, id, sigma);
    FirstPart(o, q, message, pk, id, sigma);
    HashNonzero(q, SetBytes(o.keccak(sigma)));
    DifferentPairings(q, sk, sk', e.c1);
    RightKeyFindsSigma(o, q, message, pk, id, sigma, sk, s);
    if Sigma(o, q, e, sk') == sigma {
      XorCancels(e.c2, HashGTToBlock(o, Pair(q, sk, e.c1)), HashGTToBlock(o, Pair(q, sk', e.c1)));
    }
  }

  /** With a wrong key no block of the padded message comes out right, unless hashes collide. */
  lemma WrongKeyGarbles(o: Oracle, q: int, message: Bytes, pk: G2, id: G1, sigma: Block, sk: G1, s: int, sk': G1, i: nat)
    requires Prime(q) && Cong(q, pk, s) && Cong(q, sk, id * s) && !Cong(q, sk, sk')
    requires HashBlockToInt(o, q, sigma) != 0
    requires var e := Encrypted(o, q, message, pk, id, sigma);
      && PairingsApart(o, Pair(q, sk, e.c1), Pair(q, sk', e.c1))
      && KeysApart(o, sigma, i, Sigma(o, q, e, sk'), i)
    requires i < |Split(Padded(message))|
    ensures var e := Encrypted(o, q, message, pk, id, sigma);
      Unmasked(o, e.c3, Sigma(o, q, e, sk'))[i] != Split(Padded(message))[i]
  {
    WrongKeyLosesSigma(o, q, message, pk, id, sigma, sk, s, sk');
    WrongSigmaGarbles(o, Split(Padded(message)), sigma, Sigma(o, q, Encrypted(o, q, message, pk, id, sigma), sk'), i);
  }

  lemma HashNonzero(q: int, x: nat)
    requires q > 0 && x % q != 0
    ensures !Cong(q, x % q, 0)
  {
    if Cong(q, x % q, 0) { CongUnique(q, x % q, 0); }
  }

  /** The first part of a ciphertext is bound to sigma, as far as the hash is. */
  lemma SigmaBound(o: Oracle, q: int, message: Bytes, message': Bytes, pk: G2, id: G1, sigma: Block, sigma': Block)
    requires q > 0
    requires SetBytes(o.keccak(sigma)) % q == SetBytes(o.keccak(sigma')) % q ==> sigma == sigma'
    ensures Encrypted(o, q, message, pk, id, sigma).c1 == Encrypted(o, q, message', pk, id, sigma').c1 ==> sigma == sigma'
  {
    FirstPart(o, q, message, pk, id, sigma);
    FirstPart(o, q, message', pk, id, sigma');
  }

  // ----- byte format

  /** The foreign encoding of G2 points: 128 bytes, decoded from the front of the
      input. */
  datatype PointCodec = PointCodec(marshal: G2 -> Bytes, unmarshal: Bytes -> Option<G2>)

  const POINT_SIZE: nat := 128

  ghost predicate ValidCodec(c: PointCodec) {
    && (forall g :: |c.marshal(g)| == POINT_SIZE)
    && (forall g :: c.unmarshal(c.marshal(g)) == Some(g))
  }

  function Marshaled(c: PointCodec, m: EncryptedMessage): Bytes {
    c.marshal(m.c1) + m.c2 + Flatten(m.c3)
  }

  method Marshal(c: PointCodec, m: EncryptedMessage) returns (buff: Bytes)
    ensures buff == Marshaled(c, m)
  {
    buff := c.marshal(m.c1);
    buff := buff + m.c2;
    for i := 0 to |m.c3|
      invariant buff == c.marshal(m.c1) + m.c2 + Flatten(m.c3[..i])
    {
      assert m.c3[..i + 1][..i] == m.c3[..i];
      buff := buff + m.c3[i];
    }
    assert m.c3[..|m.c3|] == m.c3;
  }

  /** Where the parts are: a point of 128 bytes, then blocks of 32 bytes, the first of which
      is the second part. */
  lemma MarshaledLayout(c: PointCodec, m: EncryptedMessage)
    requires ValidCodec(c)
    ensures var d := Marshaled(c, m);
      && |d| == 160 + 32 * |m.c3| && d[..128] == c.marshal(m.c1) && d[128..160] == m.c2
      && forall i :: 0 <= i < |m.c3| ==> d[160 + 32 * i..192 + 32 * i] == m.c3[i]
  {
    var d := Marshaled(c, m);
    forall i | 0 <= i < |m.c3|
      ensures d[160 + 32 * i..192 + 32 * i] == m.c3[i]
    {
      FlattenAt(m.c3, i);
      assert d[160..] == Flatten(m.c3);
      assert d[160..][32 * i..32 * i + 32] == d[160 + 32 * i..192 + 32 * i];
    }
  }

  lemma {:induction false} FlattenAt(blocks: seq<Block>, i: nat)
    requires i < |blocks|
    ensures Flatten(blocks)[32 * i..32 * i + 32] == blocks[i]
  {
    var n := |blocks| - 1;
    if i < n {
      FlattenAt(blocks[..n], i);
      assert Flatten(blocks)[32 * i..32 * i + 32] == Flatten(blocks[..n])[32 * i..32 * i + 32];
    }
  }

  function Unmarshaled(c: PointCodec, d: Bytes): Result<EncryptedMessage> {
    if |d| < POINT_SIZE then Err("not enough data for a point")
    else if c.unmarshal(d[..POINT_SIZE]).None? then Err("malformed point")
    else
      var rest := d[POINT_SIZE..];
      if |rest| % 32 != 0 then Err("length not a multiple of the block size")
      else if |rest| < 32 then Err("short block")
      else Ok(EncryptedMessage(c.unmarshal(d[..POINT_SIZE]).value, rest[..32], Split(rest[32..])))
  }

  /** Takes blocks off the front until nothing is left. */
  method ConsumeBlocks(d: Bytes) returns (blocks: seq<Block>)
    requires |d| % 32 == 0
    ensures blocks == Split(d)
  {
    var rest := d;
    blocks := [];
    ghost var done := 0;
    while |rest| > 0
      invariant 0 <= done <= |d| && done % 32 == 0 && rest == d[done..]
      invariant blocks == Split(d[..done])
      decreases |rest|
    {
      NextBlock(d, done);
      var b := rest[..BLOCK_SIZE];
      rest := rest[BLOCK_SIZE..];
      blocks := blocks + [b];
      done := done + 32;
    }
    assert d[..done] == d;
  }

  method Unmarshal(c: PointCodec, d: Bytes) returns (r: Result<EncryptedMessage>)
    ensures r == Unmarshaled(c, d)
  {
    if |d| < POINT_SIZE {
      return Err("not enough data for a point");
    }
    var point := c.unmarshal(d[..POINT_SIZE]);
    if point.None? {
      return Err("malformed point");
    }
    var rest := d[POINT_SIZE..];
    if |rest| % BLOCK_SIZE != 0 {
      return Err("length not a multiple of the block size");
    }
    if |rest| < BLOCK_SIZE {
      return Err("short block");
    }
    var c2 := rest[..BLOCK_SIZE];
    rest := rest[BLOCK_SIZE..];
    var c3 := ConsumeBlocks(rest);
    return Ok(EncryptedMessage(point.value, c2, c3));
  }

  /** Decoding an encoded message restores it, for any number of blocks. */
  lemma MarshalRoundTrip(c: PointCodec, m: EncryptedMessage)
    requires ValidCodec(c)
    ensures Unmarshaled(c, Marshaled(c, m)) == Ok(m)
  {
    var d := Marshaled(c, m);
    assert d[..POINT_SIZE] == c.marshal(m.c1);
    var rest := d[POINT_SIZE..];
    assert rest == m.c2 + Flatten(m.c3);
    assert rest[..32] == m.c2 && rest[32..] == Flatten(m.c3);
    SplitFlatten(m.c3);
  }

  /** Decoding loses nothing: accepted bytes re-encode to themselves, if the
      point encoding is canonical. */
  lemma UnmarshalRoundTrip(c: PointCodec, d: Bytes)
    requires |d| >= POINT_SIZE && Unmarshaled(c, d).Ok?
    requires c.unmarshal(d[..POINT_SIZE]).Some? ==> c.marshal(c.unmarshal(d[..POINT_SIZE]).value) == d[..POINT_SIZE]
    ensures Marshaled(c, Unmarshaled(c, d).value) == d
  {
    var point, rest := c.unmarshal(d[..POINT_SIZE]), d[POINT_SIZE..];
    var c2, c3 := rest[..32], Split(rest[32..]);
    assert Unmarshaled(c, d) == Ok(EncryptedMessage(point.value, c2, c3));
    FlattenSplit(rest[32..]);
    ThreeParts(d, POINT_SIZE, 32);
    assert c.marshal(point.value) == d[..POINT_SIZE] && Flatten(c3) == rest[32..];
  }

  lemma ThreeParts(d: Bytes, m: nat, n: nat)
    requires m + n <= |d|
    ensures d[..m] + d[m..][..n] + d[m..][n..] == d
    ensures d[..m] + (d[m..][..n] + d[m..][n..]) == d
  {
  }
}

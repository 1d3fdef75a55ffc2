/**
 SHA-256 as FIPS 180-4 defines it, independent of the streaming code:
 section 4.1.2 (functions), 4.2.2 (constants), 5.1.1 (padding), 5.2.1 (parsing),
 5.3.3 (initial hash value) and 6.2.2 (hash computation).
 */
module Sha256Spec {

  type Byte = bv8
  type Word = bv32

  const TWO_TO_64 := 0x1_0000_0000_0000_0000

  // Section 4.1.2.

  /** Addition modulo 2^32 (section 3.2). */
  function Add(x: Word, y: Word): Word {
    x + y
  }

  function Rotr(x: Word, n: Word): Word
    requires 0 < n < 32
  {
    (x >> n) | (x << (32 - n))
  }

  function Ch(x: Word, y: Word, z: Word): Word {
    (x & y) ^ ((!x) & z)
  }

  function Maj(x: Word, y: Word, z: Word): Word {
    (x & y) ^ (x & z) ^ (y & z)
  }

  function BigSigma0(x: Word): Word {
    Rotr(x, 2) ^ Rotr(x, 13) ^ Rotr(x, 22)
  }

  function BigSigma1(x: Word): Word {
    Rotr(x, 6) ^ Rotr(x, 11) ^ Rotr(x, 25)
  }

  function SmallSigma0(x: Word): Word {
    Rotr(x, 7) ^ Rotr(x, 18) ^ (x >> 3)
  }

  function SmallSigma1(x: Word): Word {
    Rotr(x, 17) ^ Rotr(x, 19) ^ (x >> 10)
  }

  // Section 4.2.2, row by row.

  const K0: seq<Word> := [
    0x428a2f98, 0x71374491, 0xb5c0fbcf, 0xe9b5dba5, 0x3956c25b, 0x59f111f1, 0x923f82a4, 0xab1c5ed5]
  const K1: seq<Word> := [
    0xd807aa98, 0x12835b01, 0x243185be, 0x550c7dc3, 0x72be5d74, 0x80deb1fe, 0x9bdc06a7, 0xc19bf174]
  const K2: seq<Word> := [
    0xe49b69c1, 0xefbe4786, 0x0fc19dc6, 0x240ca1cc, 0x2de92c6f, 0x4a7484aa, 0x5cb0a9dc, 0x76f988da]
  const K3: seq<Word> := [
    0x983e5152, 0xa831c66d, 0xb00327c8, 0xbf597fc7, 0xc6e00bf3, 0xd5a79147, 0x06ca6351, 0x14292967]
  const K4: seq<Word> := [
    0x27b70a85, 0x2e1b2138, 0x4d2c6dfc, 0x53380d13, 0x650a7354, 0x766a0abb, 0x81c2c92e, 0x92722c85]
  const K5: seq<Word> := [
    0xa2bfe8a1, 0xa81a664b, 0xc24b8b70, 0xc76c51a3, 0xd192e819, 0xd6990624, 0xf40e3585, 0x106aa070]
  const K6: seq<Word> := [
    0x19a4c116, 0x1e376c08, 0x2748774c, 0x34b0bcb5, 0x391c0cb3, 0x4ed8aa4a, 0x5b9cca4f, 0x682e6ff3]
  const K7: seq<Word> := [
    0x748f82ee, 0x78a5636f, 0x84c87814, 0x8cc70208, 0x90befffa, 0xa4506ceb, 0xbef9a3f7, 0xc67178f2]

  const K: seq<Word> := K0 + K1 + K2 + K3 + K4 + K5 + K6 + K7

  /** The eight working variables, and also a hash value H(0..7). */
  datatype Hash = Hash(a: Word, b: Word, c: Word, d: Word, e: Word, f: Word, g: Word, h: Word)

  // Section 5.3.3.
  const INITIAL_HASH := Hash(0x6a09e667, 0xbb67ae85, 0x3c6ef372, 0xa54ff53a,
                             0x510e527f, 0x9b05688c, 0x1f83d9ab, 0x5be0cd19)

  /** Section 5.2.1: the t-th 32-bit word of a 512-bit block, big-endian. */
  function BlockWord(block: seq<Byte>, t: nat): Word
    requires |block| == 64 && t < 16
  {
    BigEndian(block[4 * t], block[4 * t + 1], block[4 * t + 2], block[4 * t + 3])
  }

  function BigEndian(b0: Byte, b1: Byte, b2: Byte, b3: Byte): Word {
    ((b0 as Word) << 24) | ((b1 as Word) << 16) | ((b2 as Word) << 8) | (b3 as Word)
  }

  /** Section 6.2.2 step 1: the message schedule, by recursion. */
  function Schedule(block: seq<Byte>, t: nat): Word
    requires |block| == 64
  {
    if t < 16 then BlockWord(block, t)
    else Add(Add(Add(SmallSigma1(Schedule(block, t - 2)), Schedule(block, t - 7)),
                 SmallSigma0(Schedule(block, t - 15))), Schedule(block, t - 16))
  }

  /** Section 6.2.2 step 3, one round. */
  function Round(v: Hash, k: Word, w: Word): Hash {
    var t1 := Add(Add(Add(Add(v.h, BigSigma1(v.e)), Ch(v.e, v.f, v.g)), k), w);
    var t2 := Add(BigSigma0(v.a), Maj(v.a, v.b, v.c));
    Hash(Add(t1, t2), v.a, v.b, v.c, Add(v.d, t1), v.e, v.f, v.g)
  }

  function Rounds(v: Hash, block: seq<Byte>, t: nat): Hash
    requires |block| == 64 && t <= 64
  {
    if t == 0 then v else Round(Rounds(v, block, t - 1), K[t - 1], Schedule(block, t - 1))
  }

  function AddHash(x: Hash, y: Hash): Hash {
    Hash(Add(x.a, y.a), Add(x.b, y.b), Add(x.c, y.c), Add(x.d, y.d),
         Add(x.e, y.e), Add(x.f, y.f), Add(x.g, y.g), Add(x.h, y.h))
  }

  /** Section 6.2.2 steps 2-4. */
  function Compress(v: Hash, block: seq<Byte>): Hash
    requires |block| == 64
  {
    AddHash(Rounds(v, block, 64), v)
  }

  /** Section 6.2.2 over the blocks of a message whose length is a multiple of the block length. */
  function HashBlocks(bytes: seq<Byte>): Hash
    requires |bytes| % 64 == 0
  {
    if |bytes| == 0 then INITIAL_HASH
    else Compress(HashBlocks(bytes[..|bytes| - 64]), bytes[|bytes| - 64..])
  }

  /** The message length in bits as the 64-bit big-endian block of section 5.1.1, reduced mod 2^64. */
  function LengthField(byteCount: nat): (field: seq<Byte>)
    ensures |field| == 8
  {
    seq(8, i requires 0 <= i < 8 => LengthByte(byteCount * 8 % TWO_TO_64, 7 - i))
  }

  /** Byte `index` of a 64-bit number, counted from the least significant one. */
  function LengthByte(bits: nat, index: nat): Byte {
    (bits / Power256(index) % 256) as Byte
  }

  function Power256(n: nat): (p: nat)
    ensures p > 0
  {
    if n == 0 then 1 else 256 * Power256(n - 1)
  }

  /** Section 5.1.1: the smallest zero fill that makes the padded length a multiple of 512 bits. */
  ghost predicate IsZeroFill(byteCount: nat, z: nat) {
    FillsBlock(byteCount, z) && forall y: nat :: y < z ==> !FillsBlock(byteCount, y)
  }

  predicate FillsBlock(byteCount: nat, z: nat) {
    (byteCount + 1 + z + 8) % 64 == 0
  }

  function Zeros(n: nat): (z: seq<Byte>)
    ensures |z| == n
  {
    seq(n, _ => 0)
  }

  /** The zero fill of section 5.1.1 in closed form. */
  function ZeroFill(byteCount: nat): (z: nat)
    ensures IsZeroFill(byteCount, z)
  {
    (119 - byteCount % 64) % 64
  }

  function Pad(message: seq<Byte>): (padded: seq<Byte>)
    ensures |padded| % 64 == 0
  {
    message + [0x80] + Zeros(ZeroFill(|message|)) + LengthField(|message|)
  }

  function WordBytes(w: Word): (bytes: seq<Byte>)
    ensures |bytes| == 4
  {
    [((w >> 24) & 0xff) as Byte, ((w >> 16) & 0xff) as Byte, ((w >> 8) & 0xff) as Byte, (w & 0xff) as Byte]
  }

  function HashWords(v: Hash): (words: seq<Word>)
    ensures |words| == 8
  {
    [v.a, v.b, v.c, v.d, v.e, v.f, v.g, v.h]
  }

  function Serialize(words: seq<Word>): (bytes: seq<Byte>)
    ensures |bytes| == 4 * |words|
  {
    if words == [] then [] else Serialize(words[..|words| - 1]) + WordBytes(words[|words| - 1])
  }

  /** The 256-bit message digest. */
  function Digest(message: seq<Byte>): (digest: seq<Byte>)
    ensures |digest| == 32
  {
    Serialize(HashWords(HashBlocks(Pad(message))))
  }

  lemma WordBytesRoundTrip(w: Word)
    ensures var b := WordBytes(w); BigEndian(b[0], b[1], b[2], b[3]) == w
  {
  }

  /** The digest bytes determine the hash words. */
  lemma {:induction false} SerializeInjective(u: seq<Word>, v: seq<Word>)
    requires |u| == |v| && Serialize(u) == Serialize(v)
    ensures u == v
  {
    if u == [] {
    } else {
      var n := |u| - 1;
      var su, sv := Serialize(u[..n]), Serialize(v[..n]);
      assert su == Serialize(u)[..4 * n] == sv;
      assert WordBytes(u[n]) == Serialize(u)[4 * n..] == WordBytes(v[n]);
      SerializeInjective(u[..n], v[..n]);
      WordBytesRoundTrip(u[n]);
      WordBytesRoundTrip(v[n]);
      assert u == u[..n] + [u[n]] && v == v[..n] + [v[n]];
    }
  }

  lemma HashBlocksAppend(bytes: seq<Byte>, block: seq<Byte>)
    requires |bytes| % 64 == 0 && |block| == 64
    ensures HashBlocks(bytes + block) == Compress(HashBlocks(bytes), block)
  {
    assert (bytes + block)[..|bytes + block| - 64] == bytes;
    assert (bytes + block)[|bytes + block| - 64..] == block;
  }
}

/**
 The streaming SHA-256 hasher of the command-line tool: a 64-byte buffer, eight
 state words updated in place and a 64-bit bit counter.
 */
module Sha256 {
  import opened Sha256Spec

  method LoadBigEndian(data: array<Byte>, offset: nat) returns (word: Word)
    requires offset + 4 <= data.Length
    ensures word == BigEndian(data[offset], data[offset + 1], data[offset + 2], data[offset + 3])
  {
    word := ((data[offset] as Word) << 24) | ((data[offset + 1] as Word) << 16)
            | ((data[offset + 2] as Word) << 8) | (data[offset + 3] as Word);
  }

  method StoreBigEndian(out: array<Byte>, offset: nat, value: Word)
    requires offset + 4 <= out.Length
    modifies out
    ensures out[..] == old(out[..offset]) + WordBytes(value) + old(out[offset + 4..])
  {
    out[offset] := ((value >> 24) & 0xff) as Byte;
    out[offset + 1] := ((value >> 16) & 0xff) as Byte;
    out[offset + 2] := ((value >> 8) & 0xff) as Byte;
    out[offset + 3] := (value & 0xff) as Byte;
  }

  lemma ScheduleStep(block: seq<Byte>, t: nat)
    requires |block| == 64 && t >= 16
    ensures Schedule(block, t) == Add(Add(Add(Schedule(block, t - 16), SmallSigma0(Schedule(block, t - 15))),
                                          Schedule(block, t - 7)), SmallSigma1(Schedule(block, t - 2)))
  {
    hide Add, SmallSigma0, SmallSigma1, BlockWord, Rotr;
    AddReorder(SmallSigma1(Schedule(block, t - 2)), Schedule(block, t - 7),
               SmallSigma0(Schedule(block, t - 15)), Schedule(block, t - 16));
  }

  lemma AddReorder(p: Word, q: Word, r: Word, s: Word)
    ensures Add(Add(Add(p, q), r), s) == Add(Add(Add(s, r), q), p)
  {
    hide Add;
    AddCommutes(p, q);
    AddCommutes(Add(q, p), r);
    AddAssociates(r, q, p);
    AddCommutes(Add(Add(r, q), p), s);
    AddAssociates(s, Add(r, q), p);
    AddAssociates(s, r, q);
  }

  lemma AddCommutes(x: Word, y: Word)
    ensures Add(x, y) == Add(y, x)
  {
  }

  lemma AddHashCommutes(x: Hash, y: Hash)
    ensures AddHash(x, y) == AddHash(y, x)
  {
    hide Add;
    AddCommutes(x.a, y.a);
    AddCommutes(x.b, y.b);
    AddCommutes(x.c, y.c);
    AddCommutes(x.d, y.d);
    AddCommutes(x.e, y.e);
    AddCommutes(x.f, y.f);
    AddCommutes(x.g, y.g);
    AddCommutes(x.h, y.h);
  }

  lemma AddAssociates(x: Word, y: Word, z: Word)
    ensures Add(x, Add(y, z)) == Add(Add(x, y), z)
  {
    hide Add;
    AddUnfolds(x, y);
    AddUnfolds(y, z);
    AddSumRight(x, y, z);
    AddSumLeft(x, y, z);
  }

  lemma AddUnfolds(x: Word, y: Word)
    ensures Add(x, y) == x + y
  {
  }

  lemma AddSumRight(x: Word, y: Word, z: Word)
    ensures Add(x, y + z) == x + y + z
  {
  }

  lemma AddSumLeft(x: Word, y: Word, z: Word)
    ensures Add(x + y, z) == x + y + z
  {
  }

  lemma BitCountAdds(m: nat, n: nat)
    ensures (m * 8 % TWO_TO_64 + n * 8 % TWO_TO_64) % TWO_TO_64 == (m + n) * 8 % TWO_TO_64
  {
  }

  class Hasher {
    const state: array<Word>
    const buffer: array<Byte>
    var bitCount: nat
    var bufferSize: nat

    /** Every byte that went through the buffer so far: the message, until Final pads it. */
    ghost var message: seq<Byte>

    ghost predicate Shape()
      reads `bufferSize
    {
      state.Length == 8 && buffer.Length == 64 && bufferSize <= 64
    }

    ghost function Value(): Hash
      reads `bufferSize, state
      requires Shape()
    {
      Hash(state[0], state[1], state[2], state[3], state[4], state[5], state[6], state[7])
    }

    /** Whole blocks are compressed into `state`, the rest of the message is buffered. */
    ghost predicate Valid()
      reads this, state, buffer
    {
      && Shape()
      && bufferSize == |message| % 64
      && Holds(message)
      && bitCount == |message| * 8 % TWO_TO_64
    }

    ghost predicate Holds(bytes: seq<Byte>)
      reads `bufferSize, state, buffer
      requires Shape()
    {
      && bufferSize <= |bytes|
      && (|bytes| - bufferSize) % 64 == 0
      && Value() == HashBlocks(bytes[..|bytes| - bufferSize])
      && buffer[..bufferSize] == bytes[|bytes| - bufferSize..]
    }

    constructor ()
      ensures Valid() && message == [] && fresh(state) && fresh(buffer)
    {
      state := new Word[8];
      buffer := new Byte[64];
      bitCount := 0;
      bufferSize := 0;
      message := [];
      new;
      state[0] := 0x6A09E667;
      state[1] := 0xBB67AE85;
      state[2] := 0x3C6EF372;
      state[3] := 0xA54FF53A;
      state[4] := 0x510E527F;
      state[5] := 0x9B05688C;
      state[6] := 0x1F83D9AB;
      state[7] := 0x5BE0CD19;
    }

    method ExpandSchedule() returns (words: array<Word>)
      requires Shape()
      ensures fresh(words) && words.Length == 64
      ensures forall t :: 0 <= t < 64 ==> words[t] == Schedule(buffer[..], t)
    {
      hide Add, SmallSigma0, SmallSigma1, Rotr;
      words := new Word[64];
      ghost var block := buffer[..];
      for index := 0 to 16
        invariant forall t :: 0 <= t < index ==> words[t] == Schedule(block, t)
      {
        words[index] := LoadBigEndian(buffer, index * 4);
      }
      for index := 16 to 64
        invariant forall t :: 0 <= t < index ==> words[t] == Schedule(block, t)
      {
        var s0 := SmallSigma0(words[index - 15]);
        var s1 := SmallSigma1(words[index - 2]);
        ScheduleStep(block, index);
        words[index] := Add(Add(Add(words[index - 16], s0), words[index - 7]), s1);
      }
    }

    method RunRounds() returns (v: Hash)
      requires Shape()
      ensures v == Rounds(Value(), buffer[..], 64)
    {
      hide Add, BigSigma0, BigSigma1, Ch, Maj, Rotr, Schedule;
      var words := ExpandSchedule();
      ghost var start := Value();
      ghost var block := buffer[..];
      var a, b, c, d := state[0], state[1], state[2], state[3];
      var e, f, g, h := state[4], state[5], state[6], state[7];
      for index := 0 to 64
        invariant Hash(a, b, c, d, e, f, g, h) == Rounds(start, block, index)
      {
        var s1 := BigSigma1(e);
        var ch := Ch(e, f, g);
        var temp1 := Add(Add(Add(Add(h, s1), ch), K[index]), words[index]);
        var s0 := BigSigma0(a);
        var maj := Maj(a, b, c);
        var temp2 := Add(s0, maj);
        h := g;
        g := f;
        f := e;
        e := Add(d, temp1);
        d := c;
        c := b;
        b := a;
        a := Add(temp1, temp2);
      }
      v := Hash(a, b, c, d, e, f, g, h);
    }

    method Transform()
      requires Shape()
      modifies state
      ensures Value() == Compress(old(Value()), buffer[..])
    {
      hide Add, Rounds;
      var v := RunRounds();
      AddHashCommutes(Value(), v);
      state[0] := Add(state[0], v.a);
      state[1] := Add(state[1], v.b);
      state[2] := Add(state[2], v.c);
      state[3] := Add(state[3], v.d);
      state[4] := Add(state[4], v.e);
      state[5] := Add(state[5], v.f);
      state[6] := Add(state[6], v.g);
      state[7] := Add(state[7], v.h);
    }

    /** memcpy of one chunk to the free end of the buffer. */
    method Fill(chunk: seq<Byte>)
      requires Shape() && bufferSize + |chunk| <= 64 && Holds(message)
      modifies this`bufferSize, this`message, buffer
      ensures Shape() && bufferSize == old(bufferSize) + |chunk|
      ensures message == old(message) + chunk && Holds(message)
    {
      hide Compress, HashBlocks;
      ghost var before := message;
      ghost var was := buffer[..bufferSize];
      forall i | 0 <= i < |chunk| {
        buffer[bufferSize + i] := chunk[i];
      }
      assert buffer[..bufferSize + |chunk|] == was + chunk;
      bufferSize := bufferSize + |chunk|;
      message := message + chunk;
      assert message[..|message| - bufferSize] == before[..|before| - old(bufferSize)];
    }

    /** One full buffer is compressed: the same bytes are held, with nothing buffered. */
    method Flush()
      requires Shape() && bufferSize == 64 && Holds(message)
      modifies this`bufferSize, state
      ensures Shape() && bufferSize == 0 && Holds(message) && |message| % 64 == 0
    {
      hide Compress;
      ghost var whole := message[..|message| - 64];
      HashBlocksAppend(whole, buffer[..]);
      assert whole + buffer[..] == message;
      Transform();
      bufferSize := 0;
      assert message[..|message| - 0] == message;
    }

    /** The chunk loop of Update. */
    method Absorb(data: seq<Byte>)
      requires Shape() && bufferSize == |message| % 64 && Holds(message)
      modifies this`bufferSize, this`message, state, buffer
      ensures Shape() && bufferSize == |message| % 64 && Holds(message)
      ensures message == old(message) + data
    {
      hide Holds;
      var offset := 0;
      while offset < |data|
        invariant offset <= |data|
        invariant Shape() && bufferSize == |message| % 64
        invariant message == old(message) + data[..offset]
        invariant Holds(message)
        modifies this`bufferSize, this`message, state, buffer
      {
        var space := buffer.Length - bufferSize;
        var chunk := if |data| - offset < space then |data| - offset else space;
        Fill(data[offset..offset + chunk]);
        assert data[..offset + chunk] == data[..offset] + data[offset..offset + chunk];
        offset := offset + chunk;
        if bufferSize == buffer.Length {
          Flush();
        }
      }
      assert data[..offset] == data;
    }

    method Update(data: seq<Byte>)
      requires Valid()
      modifies this, state, buffer
      ensures Valid() && message == old(message) + data
    {
      hide Holds;
      BitCountAdds(|message|, |data|);
      bitCount := (bitCount + |data| * 8 % TWO_TO_64) % TWO_TO_64;
      Absorb(data);
    }

    /** Section 5.1.1: a one bit, then zeros up to the length field, in one block or in two. */
    method AppendPadding()
      requires Valid()
      modifies this, state, buffer
      ensures Shape() && bufferSize == 56 && Holds(message)
      ensures message == old(message) + [0x80] + Zeros(ZeroFill(|old(message)|))
    {
      hide Holds;
      ghost var z := 0;
      ghost var started := message + [0x80];
      Fill([0x80]);
      ghost var first := bufferSize;
      assert started + Zeros(0) == started;
      if bufferSize > 56 {
        while bufferSize < buffer.Length
          invariant Shape() && Holds(message)
          invariant message == started + Zeros(z) && z == bufferSize - first
          modifies this, buffer
        {
          Fill([0]);
          z := z + 1;
          assert message == started + Zeros(z);
        }
        Flush();
      }
      while bufferSize < 56
        invariant Shape() && bufferSize <= 56 && Holds(message)
        invariant message == started + Zeros(z)
        invariant z == if first <= 56 then bufferSize - first else 64 - first + bufferSize
        modifies this, buffer
      {
        Fill([0]);
        z := z + 1;
        assert message == started + Zeros(z);
      }
      assert z == ZeroFill(|old(message)|);
    }

    method StoreLength(bits: nat)
      requires Shape() && bufferSize == 56
      modifies buffer
      ensures buffer[..56] == old(buffer[..56])
      ensures forall i :: 0 <= i < 8 ==> buffer[63 - i] == LengthByte(bits, i)
    {
      for index := 0 to 8
        invariant buffer[..56] == old(buffer[..56])
        invariant forall i :: 0 <= i < index ==> buffer[63 - i] == LengthByte(bits, i)
      {
        buffer[63 - index] := LengthByte(bits, index);
      }
    }

    /** The last block: padding, length field and the final compression. */
    method CompressPadded()
      requires Valid()
      modifies this, state, buffer
      ensures Shape() && Value() == HashBlocks(Pad(old(message)))
    {
      hide Compress, LengthByte;
      var bits := bitCount;
      AppendPadding();
      ghost var whole := message[..|message| - 56];
      assert whole + buffer[..56] == message;
      StoreLength(bits);
      assert buffer[56..] == LengthField(|old(message)|);
      assert buffer[..] == buffer[..56] + buffer[56..];
      assert whole + buffer[..] == Pad(old(message));
      HashBlocksAppend(whole, buffer[..]);
      Transform();
    }

    method Final(out: array<Byte>)
      requires Valid() && out.Length == 32 && out != buffer
      modifies this, state, buffer, out
      ensures out[..] == Digest(old(message))
    {
      hide Holds, HashBlocks;
      CompressPadded();
      for index := 0 to 8
        invariant Shape() && Value() == HashBlocks(Pad(old(message)))
        invariant out[..4 * index] == Serialize(state[..index])
      {
        StoreBigEndian(out, index * 4, state[index]);
        assert state[..index + 1][..index] == state[..index];
        assert out[..4 * index + 4] == out[..4 * index] + WordBytes(state[index]);
      }
      assert state[..8] == HashWords(Value());
      assert out[..32] == out[..];
    }
  }

  function Concat(chunks: seq<seq<Byte>>): seq<Byte> {
    if chunks == [] then [] else Concat(chunks[..|chunks| - 1]) + chunks[|chunks| - 1]
  }

  /** Splitting: however a message is cut into Update calls, Final yields the digest of the whole. */
  method HashPieces(chunks: seq<seq<Byte>>) returns (digest: seq<Byte>)
    ensures digest == Digest(Concat(chunks))
  {
    hide Digest, Hasher.Valid;
    var sha := new Hasher();
    for index := 0 to |chunks|
      invariant sha.Valid() && fresh(sha) && fresh(sha.state) && fresh(sha.buffer)
      invariant sha.message == Concat(chunks[..index])
      modifies sha, sha.state, sha.buffer
    {
      assert chunks[..index + 1][..index] == chunks[..index];
      sha.Update(chunks[index]);
    }
    assert chunks[..|chunks|] == chunks;
    var out := new Byte[32];
    sha.Final(out);
    digest := out[..];
  }

  const HEX_DIGITS := "0123456789abcdef"

  function HexPair(b: Byte): (pair: string)
    ensures |pair| == 2
  {
    HexOf(b as nat)
  }

  /** The shift by 4 and the mask 0x0F of the source, on the number. */
  function HexOf(n: nat): (pair: string)
    requires n < 256
    ensures |pair| == 2
  {
    [HEX_DIGITS[n / 16], HEX_DIGITS[n % 16]]
  }

  function HexText(bytes: seq<Byte>): (text: string)
    ensures |text| == 2 * |bytes|
  {
    if bytes == [] then [] else HexText(bytes[..|bytes| - 1]) + HexPair(bytes[|bytes| - 1])
  }

  /** The hexadecimal digest of one text. */
  method Hex(text: seq<Byte>) returns (hex: string)
    ensures hex == HexText(Digest(text))
  {
    hide HexPair, Digest;
    var digest := HashPieces([text]);
    assert Concat([text]) == text;
    hex := "";
    for index := 0 to 32
      invariant hex == HexText(digest[..index])
    {
      assert digest[..index + 1][..index] == digest[..index];
      hex := hex + HexPair(digest[index]);
    }
    assert digest[..32] == digest;
  }

  /** The text determines the bytes. */
  lemma {:induction false} HexTextInjective(u: seq<Byte>, v: seq<Byte>)
    requires HexText(u) == HexText(v)
    ensures u == v
  {
    hide HexPair;
    assert |u| == |v|;
    if u == [] {
    } else {
      var n := |u| - 1;
      assert HexText(u[..n]) == HexText(u)[..2 * n] == HexText(v[..n]);
      assert HexPair(u[n]) == HexText(u)[2 * n..] == HexPair(v[n]);
      HexTextInjective(u[..n], v[..n]);
      HexPairInjective(u[n], v[n]);
      assert u == u[..n] + [u[n]] && v == v[..n] + [v[n]];
    }
  }

  lemma HexPairInjective(b: Byte, c: Byte)
    requires HexPair(b) == HexPair(c)
    ensures b == c
  {
    hide HexOf;
    HexOfInjective(b as nat, c as nat);
    NatInjective(b, c);
  }

  lemma NatInjective(b: Byte, c: Byte)
    requires b as nat == c as nat
    ensures b == c
  {
    assert (b as nat) as Byte == (c as nat) as Byte;
  }

  lemma HexOfInjective(m: nat, n: nat)
    requires m < 256 && n < 256 && HexOf(m) == HexOf(n)
    ensures m == n
  {
    assert HexOf(m)[0] == HexOf(n)[0] && HexOf(m)[1] == HexOf(n)[1];
    HexDigitInjective(m / 16, n / 16);
    HexDigitInjective(m % 16, n % 16);
  }

  lemma HexDigitInjective(m: nat, n: nat)
    requires m < 16 && n < 16 && HEX_DIGITS[m] == HEX_DIGITS[n]
    ensures m == n
  {
  }
}

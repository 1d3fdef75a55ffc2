/** The FNV-1a hash of the resolved JSON text. */
module Fnv {
  import opened Model
  import opened ResolverSpec
  import opened ResolvedText

  const OFFSET_BASIS := 14695981039346656037
  const PRIME := 1099511628211
  const TWO_TO_64 := 0x1_0000_0000_0000_0000

  /** PRIME * PRIME_INVERSE == 1 modulo 2^64. */
  const PRIME_INVERSE := 14886173955864302971

  /** Exclusive or of the low `n` bits, from the least significant one. */
  function Xor(n: nat, x: nat, y: nat): nat {
    if n == 0 then 0 else 2 * Xor(n - 1, x / 2, y / 2) + (x + y) % 2
  }

  function XorByte(x: nat, y: nat): (z: nat)
    requires x < 256 && y < 256
    ensures z < 256
  {
    XorBound(8, x, y);
    Xor(8, x, y)
  }

  function TwoTo(n: nat): nat {
    if n == 0 then 1 else 2 * TwoTo(n - 1)
  }

  lemma {:induction false} XorBound(n: nat, x: nat, y: nat)
    ensures Xor(n, x, y) < TwoTo(n)
    ensures n == 8 ==> TwoTo(n) == 256
  {
    if n > 0 {
      XorBound(n - 1, x / 2, y / 2);
    }
    assert TwoTo(4) == 16;
  }

  /** Exclusive or is undone by either operand. */
  lemma {:induction false} XorTwice(n: nat, x: nat, y: nat)
    requires x < TwoTo(n) && y < TwoTo(n)
    ensures Xor(n, Xor(n, x, y), y) == x && Xor(n, x, Xor(n, x, y)) == y
  {
    hide Xor;
    if n > 0 {
      XorTwice(n - 1, x / 2, y / 2);
      var z := Xor(n, x, y);
      XorUnfold(n, x, y);
      XorUnfold(n, z, y);
      XorUnfold(n, x, z);
      Parity(x, y, z);
    } else {
      XorUnfold(n, Xor(n, x, y), y);
      XorUnfold(n, x, Xor(n, x, y));
    }
  }

  lemma XorUnfold(n: nat, x: nat, y: nat)
    ensures n == 0 ==> Xor(n, x, y) == 0
    ensures n > 0 ==> Xor(n, x, y) == 2 * Xor(n - 1, x / 2, y / 2) + (x + y) % 2
    ensures n > 0 ==> Xor(n, x, y) / 2 == Xor(n - 1, x / 2, y / 2) && Xor(n, x, y) % 2 == (x + y) % 2
  {
  }

  lemma Parity(x: nat, y: nat, z: nat)
    requires z % 2 == (x + y) % 2
    ensures (z + y) % 2 == x % 2 && (x + z) % 2 == y % 2
  {
  }

  /** Exclusive or with the low byte, then a multiplication modulo 2^64. */
  function Step(h: UInt64, c: nat): (r: UInt64)
    requires c < 256
  {
    (h - h % 256 + XorByte(h % 256, c)) * PRIME % TWO_TO_64
  }

  /** The byte a character of the text is. */
  function ByteOf(c: char): (b: nat)
    ensures b < 256
  {
    c as nat % 256
  }

  function FnvFrom(h: UInt64, text: string): UInt64
    decreases |text|
  {
    if text == "" then h else FnvFrom(Step(h, ByteOf(text[0])), text[1..])
  }

  function Fnv1a(text: string): UInt64 {
    FnvFrom(OFFSET_BASIS, text)
  }

  method Hash(values: seq<ResolvedValue>) returns (hash: UInt64)
    requires AllPrintable(values)
    ensures hash == Fnv1a(JsonText(values))
  {
    hide Step;
    var json := ToJson(values);
    hash := OFFSET_BASIS;
    assert json[0..] == json;
    for index := 0 to |json|
      invariant FnvFrom(hash, json[index..]) == Fnv1a(json)
    {
      assert json[index..][1..] == json[index + 1..];
      hash := Step(hash, ByteOf(json[index]));
    }
  }

  lemma MultiplyInjective(x: UInt64, y: UInt64)
    requires x * PRIME % TWO_TO_64 == y * PRIME % TWO_TO_64
    ensures x == y
  {
    var m, n := x * PRIME / TWO_TO_64, y * PRIME / TWO_TO_64;
    assert (x - y) * PRIME == (m - n) * TWO_TO_64;
    var k := 887285111055;
    assert PRIME * PRIME_INVERSE == 1 + k * TWO_TO_64;
    assert x - y == ((m - n) * PRIME_INVERSE - (x - y) * k) * TWO_TO_64;
  }

  lemma XorUndo(x: nat, y: nat)
    requires x < 256 && y < 256
    ensures XorByte(XorByte(x, y), y) == x && XorByte(x, XorByte(x, y)) == y
  {
    hide Xor;
    XorBound(8, x, y);
    XorTwice(8, x, y);
  }

  lemma LowByte(h: nat, z: nat)
    requires z < 256
    ensures (h - h % 256 + z) % 256 == z && (h - h % 256 + z) / 256 == h / 256
    ensures h < TWO_TO_64 ==> h - h % 256 + z < TWO_TO_64
  {
  }

  /** One step loses neither the hash nor the byte. */
  lemma StepInjective(h: UInt64, g: UInt64, c: nat, d: nat)
    requires c < 256 && d < 256 && Step(h, c) == Step(g, d)
    ensures c == d ==> h == g
    ensures h == g ==> c == d
  {
    hide XorByte;
    var x, y := XorByte(h % 256, c), XorByte(g % 256, d);
    LowByte(h, x);
    LowByte(g, y);
    MultiplyInjective(h - h % 256 + x, g - g % 256 + y);
    assert x == y && h / 256 == g / 256;
    XorUndo(h % 256, c);
    XorUndo(g % 256, d);
  }

  lemma {:induction false} FnvInjective(h: UInt64, g: UInt64, text: string)
    requires FnvFrom(h, text) == FnvFrom(g, text)
    ensures h == g
    decreases |text|
  {
    hide Step;
    if text != "" {
      var c := ByteOf(text[0]);
      FnvInjective(Step(h, c), Step(g, c), text[1..]);
      StepInjective(h, g, c, c);
    }
  }

  lemma {:induction false} FnvAppend(h: UInt64, s: string, t: string)
    ensures FnvFrom(h, s + t) == FnvFrom(FnvFrom(h, s), t)
    decreases |s|
  {
    hide Step;
    if s == "" {
      assert s + t == t;
    } else {
      var u := s + t;
      assert u[0] == s[0] && u[1..] == s[1..] + t;
      FnvAppend(Step(h, ByteOf(s[0])), s[1..], t);
    }
  }

  /** Changing a single byte of the text always changes the hash. */
  lemma OneByteChangesHash(before: string, c: char, d: char, after: string)
    requires ByteOf(c) != ByteOf(d)
    ensures Fnv1a(before + [c] + after) != Fnv1a(before + [d] + after)
  {
    hide Step;
    var h := FnvFrom(OFFSET_BASIS, before);
    FnvAppend(OFFSET_BASIS, before + [c], after);
    FnvAppend(OFFSET_BASIS, before + [d], after);
    FnvAppend(OFFSET_BASIS, before, [c]);
    FnvAppend(OFFSET_BASIS, before, [d]);
    FnvOne(h, c);
    FnvOne(h, d);
    if Fnv1a(before + [c] + after) == Fnv1a(before + [d] + after) {
      FnvInjective(Step(h, ByteOf(c)), Step(h, ByteOf(d)), after);
      StepInjective(h, h, ByteOf(c), ByteOf(d));
    }
  }

  lemma FnvOne(h: UInt64, c: char)
    ensures FnvFrom(h, [c]) == Step(h, ByteOf(c))
  {
    hide Step;
    assert [c][1..] == "";
  }

  /** Published values of the 64-bit FNV-1a hash. */
  lemma KnownHashes()
    ensures Fnv1a("") == 0xcbf2_9ce4_8422_2325
    ensures Fnv1a("a") == 0xaf63_dc4c_8601_ec8c
  {
    hide XorByte;
    XorOfA();
    assert "a"[1..] == "" && ByteOf('a') == 97;
  }

  lemma XorOfA()
    ensures XorByte(0x25, 97) == 0x44
  {
    hide Xor;
    XorUnfold(8, 37, 97);
    XorUnfold(7, 18, 48);
    XorUnfold(6, 9, 24);
    XorUnfold(5, 4, 12);
    XorOfLowBits();
  }

  lemma XorOfLowBits()
    ensures Xor(4, 2, 6) == 4
  {
    hide Xor;
    XorUnfold(4, 2, 6);
    XorUnfold(3, 1, 3);
    XorUnfold(2, 0, 1);
    XorUnfold(1, 0, 0);
    XorUnfold(0, 0, 0);
  }
}

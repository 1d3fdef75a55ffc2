/** Where the constants and the bit functions of SHA-256 come from, without repeating them. */
module Sha256Constants {
  import opened Sha256Spec

  // The first 64 primes. Divisors are below the number, so 16 bits hold everything.

  type Small = bv16

  predicate Divides(d: Small, n: Small)
    requires d > 0
  {
    n % d == 0
  }

  ghost predicate IsPrime(n: Small) {
    n >= 2 && forall d: Small :: 2 <= d < n ==> !Divides(d, n)
  }

  const PRIMES0: seq<Small> := [2, 3, 5, 7, 11, 13, 17, 19]
  const PRIMES1: seq<Small> := [23, 29, 31, 37, 41, 43, 47, 53]
  const PRIMES2: seq<Small> := [59, 61, 67, 71, 73, 79, 83, 89]
  const PRIMES3: seq<Small> := [97, 101, 103, 107, 109, 113, 127, 131]
  const PRIMES4: seq<Small> := [137, 139, 149, 151, 157, 163, 167, 173]
  const PRIMES5: seq<Small> := [179, 181, 191, 193, 197, 199, 211, 223]
  const PRIMES6: seq<Small> := [227, 229, 233, 239, 241, 251, 257, 263]
  const PRIMES7: seq<Small> := [269, 271, 277, 281, 283, 293, 307, 311]

  const PRIMES: seq<Small> := PRIMES0 + PRIMES1 + PRIMES2 + PRIMES3 + PRIMES4 + PRIMES5 + PRIMES6 + PRIMES7

  lemma RowIsPrime0(n: Small)
    requires n in PRIMES0
    ensures IsPrime(n)
  {
    assert n == 2 || n == 3 || n == 5 || n == 7 || n == 11 || n == 13 || n == 17 || n == 19;
  }

  lemma RowIsPrime1(n: Small)
    requires n in PRIMES1
    ensures IsPrime(n)
  {
    assert n == 23 || n == 29 || n == 31 || n == 37 || n == 41 || n == 43 || n == 47 || n == 53;
  }

  lemma RowIsPrime2(n: Small)
    requires n in PRIMES2
    ensures IsPrime(n)
  {
    assert n == 59 || n == 61 || n == 67 || n == 71 || n == 73 || n == 79 || n == 83 || n == 89;
  }

  lemma RowIsPrime3(n: Small)
    requires n in PRIMES3
    ensures IsPrime(n)
  {
    assert n == 97 || n == 101 || n == 103 || n == 107 || n == 109 || n == 113 || n == 127 || n == 131;
  }

  lemma RowIsPrime4(n: Small)
    requires n in PRIMES4
    ensures IsPrime(n)
  {
    assert n == 137 || n == 139 || n == 149 || n == 151 || n == 157 || n == 163 || n == 167 || n == 173;
  }

  lemma RowIsPrime5(n: Small)
    requires n in PRIMES5
    ensures IsPrime(n)
  {
    assert n == 179 || n == 181 || n == 191 || n == 193 || n == 197 || n == 199 || n == 211 || n == 223;
  }

  lemma RowIsPrime6(n: Small)
    requires n in PRIMES6
    ensures IsPrime(n)
  {
    assert n == 227 || n == 229 || n == 233 || n == 239 || n == 241 || n == 251 || n == 257 || n == 263;
  }

  lemma RowIsPrime7(n: Small)
    requires n in PRIMES7
    ensures IsPrime(n)
  {
    assert n == 269 || n == 271 || n == 277 || n == 281 || n == 283 || n == 293 || n == 307 || n == 311;
  }

  lemma OthersHaveFactors(n: Small)
    requires 2 <= n <= 311 && n !in PRIMES
    ensures !IsPrime(n)
  {
    assert Divides(2, n) || Divides(3, n) || Divides(5, n) || Divides(7, n) || Divides(11, n) || Divides(13, n)
        || Divides(17, n);
  }

  /** The list holds every prime up to 311 and nothing else. */
  lemma PrimesAreComplete(n: Small)
    requires n <= 311
    ensures IsPrime(n) <==> n in PRIMES
  {
    if n in PRIMES {
      if n in PRIMES0 {
        RowIsPrime0(n);
      } else if n in PRIMES1 {
        RowIsPrime1(n);
      } else if n in PRIMES2 {
        RowIsPrime2(n);
      } else if n in PRIMES3 {
        RowIsPrime3(n);
      } else if n in PRIMES4 {
        RowIsPrime4(n);
      } else if n in PRIMES5 {
        RowIsPrime5(n);
      } else if n in PRIMES6 {
        RowIsPrime6(n);
      } else if n in PRIMES7 {
        RowIsPrime7(n);
      }
    } else if n >= 2 {
      OthersHaveFactors(n);
    }
  }

  // Roots.

  function Root(m: nat, w: Word): nat {
    m * 0x1_0000_0000 + w as nat
  }

  function Square(r: nat): nat {
    r * r
  }

  function Cube(r: nat): nat {
    r * r * r
  }

  /** `w` is the first 32 bits of the fractional part of the square root of `p`, and `m` the integer part. */
  predicate IsSquareRootFraction(w: Word, p: Small, m: nat) {
    Square(Root(m, w)) <= p as nat * 0x1_00000000_00000000 < Square(Root(m, w) + 1)
  }

  /** `w` is the first 32 bits of the fractional part of the cube root of `p`, and `m` the integer part. */
  predicate IsCubeRootFraction(w: Word, p: Small, m: nat) {
    Cube(Root(m, w)) <= p as nat * 0x1_00000000_00000000_00000000 < Cube(Root(m, w) + 1)
  }

  ghost predicate IsCubeRoot(w: Word, p: Small) {
    exists m :: IsCubeRootFraction(w, p, m)
  }

  ghost predicate AreCubeRoots(words: seq<Word>, primes: seq<Small>) {
    |words| == |primes| && forall t :: 0 <= t < |words| ==> IsCubeRoot(words[t], primes[t])
  }

  ghost predicate IsSquareRoot(w: Word, p: Small) {
    exists m :: IsSquareRootFraction(w, p, m)
  }

  ghost predicate AreSquareRoots(words: seq<Word>, primes: seq<Small>) {
    |words| == |primes| && forall t :: 0 <= t < |words| ==> IsSquareRoot(words[t], primes[t])
  }

  lemma CubeRootFacts0()
    ensures IsCubeRootFraction(0x428a2f98, 2, 1) && IsCubeRootFraction(0x71374491, 3, 1)
    ensures IsCubeRootFraction(0xb5c0fbcf, 5, 1) && IsCubeRootFraction(0xe9b5dba5, 7, 1)
    ensures IsCubeRootFraction(0x3956c25b, 11, 2) && IsCubeRootFraction(0x59f111f1, 13, 2)
    ensures IsCubeRootFraction(0x923f82a4, 17, 2) && IsCubeRootFraction(0xab1c5ed5, 19, 2)
  {
  }

  lemma CubeRoots0()
    ensures AreCubeRoots(K0, PRIMES0)
  {
    hide IsCubeRootFraction;
    CubeRootFacts0();
    assert IsCubeRootFraction(K0[0], PRIMES0[0], 1) && IsCubeRootFraction(K0[1], PRIMES0[1], 1);
    assert IsCubeRootFraction(K0[2], PRIMES0[2], 1) && IsCubeRootFraction(K0[3], PRIMES0[3], 1);
    assert IsCubeRootFraction(K0[4], PRIMES0[4], 2) && IsCubeRootFraction(K0[5], PRIMES0[5], 2);
    assert IsCubeRootFraction(K0[6], PRIMES0[6], 2) && IsCubeRootFraction(K0[7], PRIMES0[7], 2);
    forall t | 0 <= t < 8
      ensures IsCubeRoot(K0[t], PRIMES0[t])
    {
      assert t == 0 || t == 1 || t == 2 || t == 3 || t == 4 || t == 5 || t == 6 || t == 7;
    }
  }

  lemma CubeRootFacts1()
    ensures IsCubeRootFraction(0xd807aa98, 23, 2) && IsCubeRootFraction(0x12835b01, 29, 3)
    ensures IsCubeRootFraction(0x243185be, 31, 3) && IsCubeRootFraction(0x550c7dc3, 37, 3)
    ensures IsCubeRootFraction(0x72be5d74, 41, 3) && IsCubeRootFraction(0x80deb1fe, 43, 3)
    ensures IsCubeRootFraction(0x9bdc06a7, 47, 3) && IsCubeRootFraction(0xc19bf174, 53, 3)
  {
  }

  lemma CubeRoots1()
    ensures AreCubeRoots(K1, PRIMES1)
  {
    hide IsCubeRootFraction;
    CubeRootFacts1();
    assert IsCubeRootFraction(K1[0], PRIMES1[0], 2) && IsCubeRootFraction(K1[1], PRIMES1[1], 3);
    assert IsCubeRootFraction(K1[2], PRIMES1[2], 3) && IsCubeRootFraction(K1[3], PRIMES1[3], 3);
    assert IsCubeRootFraction(K1[4], PRIMES1[4], 3) && IsCubeRootFraction(K1[5], PRIMES1[5], 3);
    assert IsCubeRootFraction(K1[6], PRIMES1[6], 3) && IsCubeRootFraction(K1[7], PRIMES1[7], 3);
    forall t | 0 <= t < 8
      ensures IsCubeRoot(K1[t], PRIMES1[t])
    {
      assert t == 0 || t == 1 || t == 2 || t == 3 || t == 4 || t == 5 || t == 6 || t == 7;
    }
  }

  lemma CubeRootFacts2()
    ensures IsCubeRootFraction(0xe49b69c1, 59, 3) && IsCubeRootFraction(0xefbe4786, 61, 3)
    ensures IsCubeRootFraction(0x0fc19dc6, 67, 4) && IsCubeRootFraction(0x240ca1cc, 71, 4)
    ensures IsCubeRootFraction(0x2de92c6f, 73, 4) && IsCubeRootFraction(0x4a7484aa, 79, 4)
    ensures IsCubeRootFraction(0x5cb0a9dc, 83, 4) && IsCubeRootFraction(0x76f988da, 89, 4)
  {
  }

  lemma CubeRoots2()
    ensures AreCubeRoots(K2, PRIMES2)
  {
    hide IsCubeRootFraction;
    CubeRootFacts2();
    assert IsCubeRootFraction(K2[0], PRIMES2[0], 3) && IsCubeRootFraction(K2[1], PRIMES2[1], 3);
    assert IsCubeRootFraction(K2[2], PRIMES2[2], 4) && IsCubeRootFraction(K2[3], PRIMES2[3], 4);
    assert IsCubeRootFraction(K2[4], PRIMES2[4], 4) && IsCubeRootFraction(K2[5], PRIMES2[5], 4);
    assert IsCubeRootFraction(K2[6], PRIMES2[6], 4) && IsCubeRootFraction(K2[7], PRIMES2[7], 4);
    forall t | 0 <= t < 8
      ensures IsCubeRoot(K2[t], PRIMES2[t])
    {
      assert t == 0 || t == 1 || t == 2 || t == 3 || t == 4 || t == 5 || t == 6 || t == 7;
    }
  }

  lemma CubeRootFacts3()
    ensures IsCubeRootFraction(0x983e5152, 97, 4) && IsCubeRootFraction(0xa831c66d, 101, 4)
    ensures IsCubeRootFraction(0xb00327c8, 103, 4) && IsCubeRootFraction(0xbf597fc7, 107, 4)
    ensures IsCubeRootFraction(0xc6e00bf3, 109, 4) && IsCubeRootFraction(0xd5a79147, 113, 4)
    ensures IsCubeRootFraction(0x06ca6351, 127, 5) && IsCubeRootFraction(0x14292967, 131, 5)
  {
  }

  lemma CubeRoots3()
    ensures AreCubeRoots(K3, PRIMES3)
  {
    hide IsCubeRootFraction;
    CubeRootFacts3();
    assert IsCubeRootFraction(K3[0], PRIMES3[0], 4) && IsCubeRootFraction(K3[1], PRIMES3[1], 4);
    assert IsCubeRootFraction(K3[2], PRIMES3[2], 4) && IsCubeRootFraction(K3[3], PRIMES3[3], 4);
    assert IsCubeRootFraction(K3[4], PRIMES3[4], 4) && IsCubeRootFraction(K3[5], PRIMES3[5], 4);
    assert IsCubeRootFraction(K3[6], PRIMES3[6], 5) && IsCubeRootFraction(K3[7], PRIMES3[7], 5);
    forall t | 0 <= t < 8
      ensures IsCubeRoot(K3[t], PRIMES3[t])
    {
      assert t == 0 || t == 1 || t == 2 || t == 3 || t == 4 || t == 5 || t == 6 || t == 7;
    }
  }

  lemma CubeRootFacts4()
    ensures IsCubeRootFraction(0x27b70a85, 137, 5) && IsCubeRootFraction(0x2e1b2138, 139, 5)
    ensures IsCubeRootFraction(0x4d2c6dfc, 149, 5) && IsCubeRootFraction(0x53380d13, 151, 5)
    ensures IsCubeRootFraction(0x650a7354, 157, 5) && IsCubeRootFraction(0x766a0abb, 163, 5)
    ensures IsCubeRootFraction(0x81c2c92e, 167, 5) && IsCubeRootFraction(0x92722c85, 173, 5)
  {
  }

  lemma CubeRoots4()
    ensures AreCubeRoots(K4, PRIMES4)
  {
    hide IsCubeRootFraction;
    CubeRootFacts4();
    assert IsCubeRootFraction(K4[0], PRIMES4[0], 5) && IsCubeRootFraction(K4[1], PRIMES4[1], 5);
    assert IsCubeRootFraction(K4[2], PRIMES4[2], 5) && IsCubeRootFraction(K4[3], PRIMES4[3], 5);
    assert IsCubeRootFraction(K4[4], PRIMES4[4], 5) && IsCubeRootFraction(K4[5], PRIMES4[5], 5);
    assert IsCubeRootFraction(K4[6], PRIMES4[6], 5) && IsCubeRootFraction(K4[7], PRIMES4[7], 5);
    forall t | 0 <= t < 8
      ensures IsCubeRoot(K4[t], PRIMES4[t])
    {
      assert t == 0 || t == 1 || t == 2 || t == 3 || t == 4 || t == 5 || t == 6 || t == 7;
    }
  }

  lemma CubeRootFacts5()
    ensures IsCubeRootFraction(0xa2bfe8a1, 179, 5) && IsCubeRootFraction(0xa81a664b, 181, 5)
    ensures IsCubeRootFraction(0xc24b8b70, 191, 5) && IsCubeRootFraction(0xc76c51a3, 193, 5)
    ensures IsCubeRootFraction(0xd192e819, 197, 5) && IsCubeRootFraction(0xd6990624, 199, 5)
    ensures IsCubeRootFraction(0xf40e3585, 211, 5) && IsCubeRootFraction(0x106aa070, 223, 6)
  {
  }

  lemma CubeRoots5()
    ensures AreCubeRoots(K5, PRIMES5)
  {
    hide IsCubeRootFraction;
    CubeRootFacts5();
    assert IsCubeRootFraction(K5[0], PRIMES5[0], 5) && IsCubeRootFraction(K5[1], PRIMES5[1], 5);
    assert IsCubeRootFraction(K5[2], PRIMES5[2], 5) && IsCubeRootFraction(K5[3], PRIMES5[3], 5);
    assert IsCubeRootFraction(K5[4], PRIMES5[4], 5) && IsCubeRootFraction(K5[5], PRIMES5[5], 5);
    assert IsCubeRootFraction(K5[6], PRIMES5[6], 5) && IsCubeRootFraction(K5[7], PRIMES5[7], 6);
    forall t | 0 <= t < 8
      ensures IsCubeRoot(K5[t], PRIMES5[t])
    {
      assert t == 0 || t == 1 || t == 2 || t == 3 || t == 4 || t == 5 || t == 6 || t == 7;
    }
  }

  lemma CubeRootFacts6()
    ensures IsCubeRootFraction(0x19a4c116, 227, 6) && IsCubeRootFraction(0x1e376c08, 229, 6)
    ensures IsCubeRootFraction(0x2748774c, 233, 6) && IsCubeRootFraction(0x34b0bcb5, 239, 6)
    ensures IsCubeRootFraction(0x391c0cb3, 241, 6) && IsCubeRootFraction(0x4ed8aa4a, 251, 6)
    ensures IsCubeRootFraction(0x5b9cca4f, 257, 6) && IsCubeRootFraction(0x682e6ff3, 263, 6)
  {
  }

  lemma CubeRoots6()
    ensures AreCubeRoots(K6, PRIMES6)
  {
    hide IsCubeRootFraction;
    CubeRootFacts6();
    assert IsCubeRootFraction(K6[0], PRIMES6[0], 6) && IsCubeRootFraction(K6[1], PRIMES6[1], 6);
    assert IsCubeRootFraction(K6[2], PRIMES6[2], 6) && IsCubeRootFraction(K6[3], PRIMES6[3], 6);
    assert IsCubeRootFraction(K6[4], PRIMES6[4], 6) && IsCubeRootFraction(K6[5], PRIMES6[5], 6);
    assert IsCubeRootFraction(K6[6], PRIMES6[6], 6) && IsCubeRootFraction(K6[7], PRIMES6[7], 6);
    forall t | 0 <= t < 8
      ensures IsCubeRoot(K6[t], PRIMES6[t])
    {
      assert t == 0 || t == 1 || t == 2 || t == 3 || t == 4 || t == 5 || t == 6 || t == 7;
    }
  }

  lemma CubeRootFacts7()
    ensures IsCubeRootFraction(0x748f82ee, 269, 6) && IsCubeRootFraction(0x78a5636f, 271, 6)
    ensures IsCubeRootFraction(0x84c87814, 277, 6) && IsCubeRootFraction(0x8cc70208, 281, 6)
    ensures IsCubeRootFraction(0x90befffa, 283, 6) && IsCubeRootFraction(0xa4506ceb, 293, 6)
    ensures IsCubeRootFraction(0xbef9a3f7, 307, 6) && IsCubeRootFraction(0xc67178f2, 311, 6)
  {
  }

  lemma CubeRoots7()
    ensures AreCubeRoots(K7, PRIMES7)
  {
    hide IsCubeRootFraction;
    CubeRootFacts7();
    assert IsCubeRootFraction(K7[0], PRIMES7[0], 6) && IsCubeRootFraction(K7[1], PRIMES7[1], 6);
    assert IsCubeRootFraction(K7[2], PRIMES7[2], 6) && IsCubeRootFraction(K7[3], PRIMES7[3], 6);
    assert IsCubeRootFraction(K7[4], PRIMES7[4], 6) && IsCubeRootFraction(K7[5], PRIMES7[5], 6);
    assert IsCubeRootFraction(K7[6], PRIMES7[6], 6) && IsCubeRootFraction(K7[7], PRIMES7[7], 6);
    forall t | 0 <= t < 8
      ensures IsCubeRoot(K7[t], PRIMES7[t])
    {
      assert t == 0 || t == 1 || t == 2 || t == 3 || t == 4 || t == 5 || t == 6 || t == 7;
    }
  }

  lemma CubeRootsAppend(v: seq<Word>, p: seq<Small>, w: seq<Word>, q: seq<Small>)
    requires AreCubeRoots(v, p) && AreCubeRoots(w, q)
    ensures AreCubeRoots(v + w, p + q)
  {
    hide IsCubeRoot;
  }

  /** Section 4.2.2: the constants are the cube roots of the first 64 primes. */
  lemma RoundConstants()
    ensures |K| == 64 && AreCubeRoots(K, PRIMES)
  {
    hide AreCubeRoots;
    CubeRoots0();
    CubeRoots1();
    CubeRoots2();
    CubeRoots3();
    CubeRoots4();
    CubeRoots5();
    CubeRoots6();
    CubeRoots7();
    CubeRootsAppend(K0, PRIMES0, K1, PRIMES1);
    CubeRootsAppend(K0 + K1, PRIMES0 + PRIMES1, K2, PRIMES2);
    CubeRootsAppend(K0 + K1 + K2, PRIMES0 + PRIMES1 + PRIMES2, K3, PRIMES3);
    CubeRootsAppend(K0 + K1 + K2 + K3, PRIMES0 + PRIMES1 + PRIMES2 + PRIMES3, K4, PRIMES4);
    CubeRootsAppend(K0 + K1 + K2 + K3 + K4, PRIMES0 + PRIMES1 + PRIMES2 + PRIMES3 + PRIMES4, K5, PRIMES5);
    CubeRootsAppend(K0 + K1 + K2 + K3 + K4 + K5, PRIMES0 + PRIMES1 + PRIMES2 + PRIMES3 + PRIMES4 + PRIMES5, K6, PRIMES6);
    CubeRootsAppend(K0 + K1 + K2 + K3 + K4 + K5 + K6, PRIMES0 + PRIMES1 + PRIMES2 + PRIMES3 + PRIMES4 + PRIMES5 + PRIMES6, K7, PRIMES7);
  }

  /** Each prime is larger than the one before. */
  lemma PrimesAscend()
    ensures PRIMES0[0] < PRIMES0[1] < PRIMES0[2] < PRIMES0[3] < PRIMES0[4] < PRIMES0[5] < PRIMES0[6] < PRIMES0[7]
    ensures PRIMES1[0] < PRIMES1[1] < PRIMES1[2] < PRIMES1[3] < PRIMES1[4] < PRIMES1[5] < PRIMES1[6] < PRIMES1[7]
    ensures PRIMES2[0] < PRIMES2[1] < PRIMES2[2] < PRIMES2[3] < PRIMES2[4] < PRIMES2[5] < PRIMES2[6] < PRIMES2[7]
    ensures PRIMES3[0] < PRIMES3[1] < PRIMES3[2] < PRIMES3[3] < PRIMES3[4] < PRIMES3[5] < PRIMES3[6] < PRIMES3[7]
    ensures PRIMES4[0] < PRIMES4[1] < PRIMES4[2] < PRIMES4[3] < PRIMES4[4] < PRIMES4[5] < PRIMES4[6] < PRIMES4[7]
    ensures PRIMES5[0] < PRIMES5[1] < PRIMES5[2] < PRIMES5[3] < PRIMES5[4] < PRIMES5[5] < PRIMES5[6] < PRIMES5[7]
    ensures PRIMES6[0] < PRIMES6[1] < PRIMES6[2] < PRIMES6[3] < PRIMES6[4] < PRIMES6[5] < PRIMES6[6] < PRIMES6[7]
    ensures PRIMES7[0] < PRIMES7[1] < PRIMES7[2] < PRIMES7[3] < PRIMES7[4] < PRIMES7[5] < PRIMES7[6] < PRIMES7[7]
    ensures PRIMES0[7] < PRIMES1[0] && PRIMES1[7] < PRIMES2[0] && PRIMES2[7] < PRIMES3[0] && PRIMES3[7] < PRIMES4[0] && PRIMES4[7] < PRIMES5[0] && PRIMES5[7] < PRIMES6[0] && PRIMES6[7] < PRIMES7[0]
  {
  }

  /** Section 5.3.3: the initial hash value holds the square roots of the first eight primes. */
  lemma InitialHash()
    ensures AreSquareRoots(HashWords(INITIAL_HASH), PRIMES0)
  {
    assert IsSquareRootFraction(0x6a09e667, 2, 1) && IsSquareRootFraction(0xbb67ae85, 3, 1);
    assert IsSquareRootFraction(0x3c6ef372, 5, 2) && IsSquareRootFraction(0xa54ff53a, 7, 2);
    assert IsSquareRootFraction(0x510e527f, 11, 3) && IsSquareRootFraction(0x9b05688c, 13, 3);
    assert IsSquareRootFraction(0x1f83d9ab, 17, 4) && IsSquareRootFraction(0x5be0cd19, 19, 4);
    hide IsSquareRootFraction;
    var words := HashWords(INITIAL_HASH);
    assert IsSquareRootFraction(words[0], PRIMES0[0], 1) && IsSquareRootFraction(words[1], PRIMES0[1], 1);
    assert IsSquareRootFraction(words[2], PRIMES0[2], 2) && IsSquareRootFraction(words[3], PRIMES0[3], 2);
    assert IsSquareRootFraction(words[4], PRIMES0[4], 3) && IsSquareRootFraction(words[5], PRIMES0[5], 3);
    assert IsSquareRootFraction(words[6], PRIMES0[6], 4) && IsSquareRootFraction(words[7], PRIMES0[7], 4);
    forall t | 0 <= t < 8
      ensures IsSquareRoot(words[t], PRIMES0[t])
    {
      assert t == 0 || t == 1 || t == 2 || t == 3 || t == 4 || t == 5 || t == 6 || t == 7;
    }
  }

  // Section 4.1.2, bit by bit.

  /** Bit `i`, counted from the least significant one. */
  function Bit(x: Word, i: Word): bv1
    requires i < 32
  {
    ((x >> i) & 1) as bv1
  }

  /** The position `n` further up, counted around the word. */
  function Around(i: Word, n: Word): (j: Word)
    requires i < 32 && n < 32
    ensures j < 32
  {
    (i + n) % 32
  }

  const ROTATIONS: set<Word> := {2, 6, 7, 11, 13, 17, 18, 19, 22, 25}

  /** Bit `i` of a rotation is the bit `n` further up. */
  lemma RotationBits(x: Word, n: Word, i: Word)
    requires i < 32 && n in ROTATIONS
    ensures Bit(Rotr(x, n), i) == Bit(x, Around(i, n))
  {
    if n == 2 {
    } else if n == 6 {
    } else if n == 7 {
    } else if n == 11 {
    } else if n == 13 {
    } else if n == 17 {
    } else if n == 18 {
    } else if n == 19 {
    } else if n == 22 {
    } else {
    }
  }

  /** Zeros come in from the left. */
  lemma ShiftBits(x: Word, i: Word)
    requires i < 32
    ensures Bit(x >> 3, i) == if i < 29 then Bit(x, i + 3) else 0
    ensures Bit(x >> 10, i) == if i < 22 then Bit(x, i + 10) else 0
  {
  }

  predicate IsXor(s: Word, a: Word, b: Word, c: Word) {
    s == a ^ b ^ c
  }

  lemma XorShifted(a: Word, b: Word, c: Word, i: Word)
    requires i < 32
    ensures Bit(a ^ b ^ c, i) == Bit(a, i) ^ Bit(b, i) ^ Bit(c, i)
  {
  }

  lemma XorBits(s: Word, a: Word, b: Word, c: Word, i: Word)
    requires i < 32 && IsXor(s, a, b, c)
    ensures Bit(s, i) == Bit(a, i) ^ Bit(b, i) ^ Bit(c, i)
  {
    XorShifted(a, b, c, i);
  }

  lemma BigSigmaTerms(x: Word)
    ensures IsXor(BigSigma0(x), Rotr(x, 2), Rotr(x, 13), Rotr(x, 22))
    ensures IsXor(BigSigma1(x), Rotr(x, 6), Rotr(x, 11), Rotr(x, 25))
  {
    hide Rotr;
  }

  lemma SmallSigmaTerms(x: Word)
    ensures IsXor(SmallSigma0(x), Rotr(x, 7), Rotr(x, 18), x >> 3)
    ensures IsXor(SmallSigma1(x), Rotr(x, 17), Rotr(x, 19), x >> 10)
  {
    hide Rotr;
  }

  /** Each bit of a large sigma is the exclusive or of three bits of its argument. */
  lemma BigSigmaBits(x: Word, i: Word)
    requires i < 32
    ensures Bit(BigSigma0(x), i) == Bit(x, Around(i, 2)) ^ Bit(x, Around(i, 13)) ^ Bit(x, Around(i, 22))
    ensures Bit(BigSigma1(x), i) == Bit(x, Around(i, 6)) ^ Bit(x, Around(i, 11)) ^ Bit(x, Around(i, 25))
  {
    hide Bit, Rotr, Around, IsXor, BigSigma0, BigSigma1;
    BigSigmaTerms(x);
    RotationBits(x, 2, i);
    RotationBits(x, 13, i);
    RotationBits(x, 22, i);
    XorBits(BigSigma0(x), Rotr(x, 2), Rotr(x, 13), Rotr(x, 22), i);
    RotationBits(x, 6, i);
    RotationBits(x, 11, i);
    RotationBits(x, 25, i);
    XorBits(BigSigma1(x), Rotr(x, 6), Rotr(x, 11), Rotr(x, 25), i);
  }

  /** In a small sigma the third term is a shift, which has no bits to take near the left end. */
  lemma SmallSigmaBits(x: Word, i: Word)
    requires i < 32
    ensures Bit(SmallSigma0(x), i)
         == Bit(x, Around(i, 7)) ^ Bit(x, Around(i, 18)) ^ (if i < 29 then Bit(x, i + 3) else 0)
    ensures Bit(SmallSigma1(x), i)
         == Bit(x, Around(i, 17)) ^ Bit(x, Around(i, 19)) ^ (if i < 22 then Bit(x, i + 10) else 0)
  {
    hide Bit, Rotr, Around, IsXor, SmallSigma0, SmallSigma1;
    SmallSigmaTerms(x);
    ShiftBits(x, i);
    RotationBits(x, 7, i);
    RotationBits(x, 18, i);
    XorBits(SmallSigma0(x), Rotr(x, 7), Rotr(x, 18), x >> 3, i);
    RotationBits(x, 17, i);
    RotationBits(x, 19, i);
    XorBits(SmallSigma1(x), Rotr(x, 17), Rotr(x, 19), x >> 10, i);
  }

  lemma ChoiceTerms(x: Word, y: Word, z: Word, i: Word)
    requires i < 32
    ensures Bit(Ch(x, y, z), i) == (Bit(x, i) & Bit(y, i)) ^ ((!Bit(x, i)) & Bit(z, i))
  {
  }

  lemma MajorityTerms(x: Word, y: Word, z: Word, i: Word)
    requires i < 32
    ensures Bit(Maj(x, y, z), i) == (Bit(x, i) & Bit(y, i)) ^ (Bit(x, i) & Bit(z, i)) ^ (Bit(y, i) & Bit(z, i))
  {
  }

  /** A choice by the bits of `x`, and a majority of three. */
  lemma ChoiceBits(x: Word, y: Word, z: Word, i: Word)
    requires i < 32
    ensures Bit(Ch(x, y, z), i) == if Bit(x, i) == 1 then Bit(y, i) else Bit(z, i)
    ensures Bit(Maj(x, y, z), i) == if Bit(x, i) == Bit(y, i) then Bit(x, i) else Bit(z, i)
  {
    hide Bit, Ch, Maj;
    ChoiceTerms(x, y, z, i);
    MajorityTerms(x, y, z, i);
  }
}

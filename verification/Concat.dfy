/** Associativity of concatenation, for the chains that printing builds up. */
module Concat {

  lemma Regroup<T>(a: seq<T>, b: seq<T>, c: seq<T>)
    ensures (a + b) + c == a + (b + c)
  {
  }

  lemma Regroup4<T>(a: seq<T>, p: seq<T>, q: seq<T>, r: seq<T>, s: seq<T>)
    ensures a + p + q + r + s == a + (p + (q + (r + s)))
  {
  }

  lemma Regroup5<T>(a: seq<T>, p: seq<T>, q: seq<T>, r: seq<T>, s: seq<T>, t: seq<T>)
    ensures a + p + q + r + s + t == a + (p + (q + (r + (s + t))))
  {
  }

  /** What comes first and what follows. */
  lemma Front<T>(c: seq<T>, tail: seq<T>)
    ensures (c + tail)[|c|..] == tail
    ensures |c| >= 1 ==> (c + tail)[0] == c[0]
    ensures |c| >= 2 ==> (c + tail)[1] == c[1]
  {
  }
}

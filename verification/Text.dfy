/** The byte order of strings and sorting by a string key. */
module Text {

  /** strcmp(a, b) < 0 for NUL-free strings. */
  predicate Less(a: string, b: string) {
    b != "" && (a == "" || a[0] < b[0] || (a[0] == b[0] && Less(a[1..], b[1..])))
  }

  lemma {:induction false} LessIrreflexive(a: string)
    ensures !Less(a, a)
  {
    if a != "" {
      LessIrreflexive(a[1..]);
    }
  }

  lemma {:induction false} LessTransitive(a: string, b: string, c: string)
    requires Less(a, b) && Less(b, c)
    ensures Less(a, c)
  {
    if a != "" && a[0] == b[0] == c[0] {
      LessTransitive(a[1..], b[1..], c[1..]);
    }
  }

  lemma {:induction false} LessTotal(a: string, b: string)
    ensures Less(a, b) || a == b || Less(b, a)
  {
    if a != "" && b != "" && a[0] == b[0] {
      LessTotal(a[1..], b[1..]);
      assert a == [a[0]] + a[1..] && b == [b[0]] + b[1..];
    }
  }

  /** Behind a common prefix, `a` ends and `b` goes on, or the next character of `a` is the smaller. */
  ghost predicate IsBelowAt(a: string, b: string, n: nat) {
    && n <= |a| && n < |b| && a[..n] == b[..n]
    && (n == |a| || a[n] < b[n])
  }

  /** The byte order in terms of the first difference. */
  lemma {:induction false} LessIsLexicographic(a: string, b: string)
    ensures Less(a, b) <==> exists n :: IsBelowAt(a, b, n)
  {
    if a != "" && b != "" && a[0] == b[0] {
      LessIsLexicographic(a[1..], b[1..]);
      if n: nat :| IsBelowAt(a[1..], b[1..], n) {
        BelowBehind(a, b, n);
      }
      if n: nat :| IsBelowAt(a, b, n) {
        BelowTail(a, b, n);
      }
    } else if Less(a, b) {
      assert IsBelowAt(a, b, 0);
    } else if n: nat :| IsBelowAt(a, b, n) {
      if n > 0 {
        BelowStartsAlike(a, b, n);
      }
    }
  }

  lemma BelowStartsAlike(a: string, b: string, n: nat)
    requires IsBelowAt(a, b, n) && n > 0
    ensures a != "" && b != "" && a[0] == b[0]
  {
    assert a[..n][0] == a[0] && b[..n][0] == b[0];
  }

  lemma BelowBehind(a: string, b: string, n: nat)
    requires a != "" && b != "" && a[0] == b[0] && IsBelowAt(a[1..], b[1..], n)
    ensures IsBelowAt(a, b, n + 1)
  {
    assert a[..n + 1] == [a[0]] + a[1..][..n] && b[..n + 1] == [b[0]] + b[1..][..n];
  }

  lemma BelowTail(a: string, b: string, n: nat)
    requires a != "" && b != "" && a[0] == b[0] && IsBelowAt(a, b, n)
    ensures n > 0 && IsBelowAt(a[1..], b[1..], n - 1)
  {
    if n > 0 {
      assert a[1..][..n - 1] == a[..n][1..] && b[1..][..n - 1] == b[..n][1..];
    }
  }

  ghost predicate Sorted<T>(key: T -> string, s: seq<T>) {
    forall i, j :: 0 <= i < j < |s| ==> !Less(key(s[j]), key(s[i]))
  }

  ghost predicate StrictlySorted<T>(key: T -> string, s: seq<T>) {
    forall i, j :: 0 <= i < j < |s| ==> Less(key(s[i]), key(s[j]))
  }

  /** !Less is transitive, being the reverse of a total order. */
  lemma NotLessTransitive(a: string, b: string, c: string)
    requires !Less(b, a) && !Less(c, b)
    ensures !Less(c, a)
  {
    LessTotal(a, b);
    LessTotal(b, c);
    if Less(c, a) {
      if Less(a, b) {
        LessTransitive(c, a, b);
      }
      if a == b {
      }
    }
  }

  /** Sorts in place; the order of entries with equal keys is one of those qsort may choose. */
  method SortByKey<T>(a: array<T>, key: T -> string)
    modifies a
    ensures Sorted(key, a[..])
    ensures multiset(a[..]) == multiset(old(a[..]))
  {
    for n := 0 to a.Length
      invariant Sorted(key, a[..n])
      invariant multiset(a[..]) == multiset(old(a[..]))
    {
      Insert(a, n, key);
    }
    assert a[..a.Length] == a[..];
  }

  /** Entry `n` moved down to position `m`. */
  ghost function Moved<T>(s: seq<T>, m: nat, n: nat): (r: seq<T>)
    requires m <= n < |s|
    ensures |r| == |s|
  {
    s[..m] + [s[n]] + s[m..n] + s[n + 1..]
  }

  lemma MovedKeepsElements<T>(s: seq<T>, m: nat, n: nat)
    requires m <= n < |s|
    ensures multiset(Moved(s, m, n)) == multiset(s)
  {
    assert s == s[..m] + s[m..n] + [s[n]] + s[n + 1..];
  }

  lemma MovedOnce<T>(s: seq<T>, m: nat, n: nat)
    requires 0 < m <= n < |s|
    ensures Moved(s, m - 1, n) == Moved(s, m, n)[m - 1 := s[n]][m := s[m - 1]]
  {
  }

  /** Moving an entry below the larger ones, and above the others, keeps a sorted prefix sorted. */
  lemma MovedIsSorted<T>(key: T -> string, s: seq<T>, m: nat, n: nat)
    requires m <= n < |s| && Sorted(key, s[..n])
    requires forall i :: m <= i < n ==> Less(key(s[n]), key(s[i]))
    requires m > 0 ==> !Less(key(s[n]), key(s[m - 1]))
    ensures Sorted(key, Moved(s, m, n)[..n + 1])
  {
    var r := Moved(s, m, n)[..n + 1];
    forall i, j | 0 <= i < j < |r|
      ensures !Less(key(r[j]), key(r[i]))
    {
      var x := if i < m then s[..n][i] else if i == m then s[n] else s[..n][i - 1];
      var y := if j < m then s[..n][j] else if j == m then s[n] else s[..n][j - 1];
      assert r[i] == x && r[j] == y;
      if i < m && j == m && i < m - 1 {
        NotLessTransitive(key(s[..n][i]), key(s[..n][m - 1]), key(s[n]));
      } else if i == m && Less(key(y), key(x)) {
        LessTransitive(key(y), key(x), key(y));
        LessIrreflexive(key(y));
      }
    }
  }

  lemma MovedAt<T>(s: seq<T>, m: nat, n: nat)
    requires m <= n < |s|
    ensures Moved(s, m, n)[m] == s[n] && (m > 0 ==> Moved(s, m, n)[m - 1] == s[m - 1])
    ensures m == n ==> Moved(s, m, n) == s
  {
  }

  method SwapDown<T>(a: array<T>, ghost s: seq<T>, m: nat, ghost n: nat)
    requires 0 < m <= n < |s| && a[..] == Moved(s, m, n)
    modifies a
    ensures a[..] == Moved(s, m - 1, n)
  {
    assert a[m] == a[..][m] && a[m - 1] == a[..][m - 1];
    MovedOnce(s, m, n);
    a[m - 1], a[m] := a[m], a[m - 1];
  }

  method Insert<T>(a: array<T>, n: nat, key: T -> string)
    requires n < a.Length && Sorted(key, a[..n])
    modifies a
    ensures Sorted(key, a[..n + 1])
    ensures multiset(a[..]) == multiset(old(a[..]))
  {
    hide Less, Moved, Sorted;
    ghost var s := a[..];
    var m := n;
    MovedAt(s, n, n);
    assert s[..n] == a[..n];
    while m > 0 && Less(key(a[m]), key(a[m - 1]))
      invariant 0 <= m <= n && a[..] == Moved(s, m, n)
      invariant forall i :: m <= i < n ==> Less(key(s[n]), key(s[i]))
    {
      MovedAt(s, m, n);
      assert a[m] == a[..][m] && a[m - 1] == a[..][m - 1];
      SwapDown(a, s, m, n);
      m := m - 1;
    }
    MovedAt(s, m, n);
    assert m > 0 ==> a[m] == a[..][m] && a[m - 1] == a[..][m - 1];
    MovedKeepsElements(s, m, n);
    MovedIsSorted(key, s, m, n);
    assert a[..n + 1] == a[..][..n + 1];
  }

  /** A strictly sorted list is determined by its elements. */
  lemma {:induction false} SortedListUnique<T>(key: T -> string, s: seq<T>, t: seq<T>)
    requires StrictlySorted(key, s) && StrictlySorted(key, t)
    requires forall x :: x in s <==> x in t
    ensures s == t
    decreases |s|
  {
    assert t != [] ==> t[0] in t;
    if s == [] {
    } else {
      assert s[0] in t;
      LastIsLess(key, s, t);
      LastIsLess(key, t, s);
      var m, n := |s| - 1, |t| - 1;
      LessTotal(key(s[m]), key(t[n]));
      assert s[m] == t[n];
      forall x
        ensures x in s[..m] <==> x in t[..n]
      {
        if x in s[..m] {
          NotInPrefix(key, s, x);
          assert x in s;
        }
        if x in t[..n] {
          NotInPrefix(key, t, x);
          assert x in t;
        }
      }
      SortedListUnique(key, s[..m], t[..n]);
      assert s == s[..m] + [s[m]] && t == t[..n] + [t[n]];
    }
  }

  lemma NotInPrefix<T>(key: T -> string, s: seq<T>, x: T)
    requires s != [] && StrictlySorted(key, s) && x in s[..|s| - 1]
    ensures x != s[|s| - 1]
  {
    var i :| 0 <= i < |s| - 1 && s[i] == x;
    assert Less(key(s[i]), key(s[|s| - 1]));
    LessIrreflexive(key(x));
  }

  /** The last entry of `s` is at the end of `t` or below the end of `t`. */
  lemma LastIsLess<T>(key: T -> string, s: seq<T>, t: seq<T>)
    requires s != [] && t != [] && StrictlySorted(key, t) && s[|s| - 1] in t
    ensures s[|s| - 1] == t[|t| - 1] || (Less(key(s[|s| - 1]), key(t[|t| - 1])) && !Less(key(t[|t| - 1]), key(s[|s| - 1])))
  {
    var i :| 0 <= i < |t| && t[i] == s[|s| - 1];
    if i < |t| - 1 {
      assert Less(key(t[i]), key(t[|t| - 1]));
      if Less(key(t[|t| - 1]), key(t[i])) {
        LessTransitive(key(t[i]), key(t[|t| - 1]), key(t[i]));
        LessIrreflexive(key(t[i]));
      }
    }
  }
}

/** The order in which the input manifest lists its files: a selection sort with a used array. */
module InputManifest {
  import opened Model
  import opened Text
  import opened Pigeonhole

  datatype InputFile = InputFile(path: Option<string>, sha256: Option<string>)

  function PathOf(f: InputFile): string {
    if f.path.Some? then f.path.value else ""
  }

  /** Lower path first, and caller order among equal paths. */
  predicate Precedes(files: seq<InputFile>, i: nat, j: nat)
    requires i < |files| && j < |files|
  {
    Less(PathOf(files[i]), PathOf(files[j])) || (PathOf(files[i]) == PathOf(files[j]) && i < j)
  }

  lemma PrecedesTransitive(files: seq<InputFile>, i: nat, j: nat, k: nat)
    requires i < |files| && j < |files| && k < |files|
    requires Precedes(files, i, j) && Precedes(files, j, k)
    ensures Precedes(files, i, k)
  {
    if Less(PathOf(files[i]), PathOf(files[j])) && Less(PathOf(files[j]), PathOf(files[k])) {
      LessTransitive(PathOf(files[i]), PathOf(files[j]), PathOf(files[k]));
    }
  }

  lemma PrecedesIrreflexive(files: seq<InputFile>, i: nat)
    requires i < |files|
    ensures !Precedes(files, i, i)
  {
    LessIrreflexive(PathOf(files[i]));
  }

  /** Every file once, in the stable order. */
  ghost predicate IsStableOrder(files: seq<InputFile>, order: seq<nat>) {
    && |order| == |files|
    && (forall k :: 0 <= k < |order| ==> order[k] < |files|)
    && (forall i: nat :: i < |files| ==> i in order)
    && forall a, b :: 0 <= a < b < |order| ==> Precedes(files, order[a], order[b])
  }

  /** The unused file that precedes all others, if any is unused. */
  method FindNextInput(files: seq<InputFile>, used: array<bool>) returns (best: Option<nat>)
    requires used.Length == |files|
    ensures best.None? ==> forall i :: 0 <= i < |files| ==> used[i]
    ensures best.Some? ==> best.value < |files| && !used[best.value]
    ensures best.Some? ==>
      forall i: nat :: i < |files| && !used[i] && i != best.value ==> Precedes(files, best.value, i)
  {
    best := None;
    for index := 0 to |files|
      invariant best.None? ==> forall i :: 0 <= i < index ==> used[i]
      invariant best.Some? ==> best.value < index && !used[best.value]
      invariant best.Some? ==>
        forall i: nat :: i < index && !used[i] && i != best.value ==> Precedes(files, best.value, i)
    {
      if used[index] {
        continue;
      }
      if best.None? {
        best := Some(index);
      } else if Less(PathOf(files[index]), PathOf(files[best.value])) {
        forall i: nat | i < index && !used[i]
          ensures Precedes(files, index, i)
        {
          if i != best.value {
            PrecedesTransitive(files, index, best.value, i);
          }
        }
        best := Some(index);
      } else {
        LessTotal(PathOf(files[index]), PathOf(files[best.value]));
      }
    }
  }

  /** The emission loop. The selector finds a record every time. */
  method EmitInputs(files: seq<InputFile>) returns (order: seq<nat>, emitted: seq<InputFile>)
    ensures IsStableOrder(files, order)
    ensures |emitted| == |files| && forall k :: 0 <= k < |emitted| ==> emitted[k] == files[order[k]]
  {
    hide Precedes;
    var used := new bool[|files|](_ => false);
    order, emitted := [], [];
    for count := 0 to |files|
      invariant |order| == |emitted| == count
      invariant forall k :: 0 <= k < |order| ==> order[k] < |files| && emitted[k] == files[order[k]]
      invariant forall i: nat :: i < |files| ==> (used[i] <==> i in order)
      invariant forall a, b :: 0 <= a < b < |order| ==> Precedes(files, order[a], order[b])
      invariant forall a, i: nat :: 0 <= a < |order| && i < |files| && i !in order ==> Precedes(files, order[a], i)
    {
      MissingIndex(order, |files|);
      ghost var missing: nat :| missing < |files| && missing !in order;
      var next := FindNextInput(files, used);
      assert !used[missing];
      var index := next.value;
      used[index] := true;
      ghost var before := order;
      order := order + [index];
      emitted := emitted + [files[index]];
      assert forall i: nat :: i in order <==> i in before || i == index;
    }
    forall i: nat | i < |files|
      ensures i in order
    {
      AllEmitted(files, order, i);
    }
  }

  lemma AllEmitted(files: seq<InputFile>, order: seq<nat>, i: nat)
    requires |order| == |files| && forall k :: 0 <= k < |order| ==> order[k] < |files|
    requires forall a, b :: 0 <= a < b < |order| ==> Precedes(files, order[a], order[b])
    requires i < |files|
    ensures i in order
  {
    forall a, b | 0 <= a < b < |order|
      ensures order[a] != order[b]
    {
      PrecedesIrreflexive(files, order[a]);
    }
    if i !in order {
      DistinctBound(order + [i], |files|);
    }
  }

  /** There is only one stable order. */
  lemma StableOrderUnique(files: seq<InputFile>, p: seq<nat>, q: seq<nat>)
    requires IsStableOrder(files, p) && IsStableOrder(files, q)
    ensures p == q
  {
    hide Precedes;
    SamePrefix(files, p, q, |files|);
    assert p[..|files|] == p && q[..|files|] == q;
  }

  lemma {:induction false} SamePrefix(files: seq<InputFile>, p: seq<nat>, q: seq<nat>, n: nat)
    requires IsStableOrder(files, p) && IsStableOrder(files, q) && n <= |files|
    ensures p[..n] == q[..n]
  {
    hide Precedes;
    if n > 0 {
      SamePrefix(files, p, q, n - 1);
      NotLater(files, p, q, n - 1);
      NotLater(files, q, p, n - 1);
      if p[n - 1] != q[n - 1] {
        PrecedesTransitive(files, p[n - 1], q[n - 1], p[n - 1]);
        PrecedesIrreflexive(files, p[n - 1]);
      }
      assert p[..n] == p[..n - 1] + [p[n - 1]] && q[..n] == q[..n - 1] + [q[n - 1]];
    }
  }

  /** After a common prefix, the next file of `p` does not come after the next file of `q`. */
  lemma NotLater(files: seq<InputFile>, p: seq<nat>, q: seq<nat>, n: nat)
    requires IsStableOrder(files, p) && IsStableOrder(files, q) && n < |files| && p[..n] == q[..n]
    ensures p[n] == q[n] || Precedes(files, p[n], q[n])
  {
    hide Precedes;
    assert q[n] in p;
    var m :| 0 <= m < |p| && p[m] == q[n];
    if m < n {
      assert q[m] == q[..n][m] == p[..n][m] == p[m];
      PrecedesIrreflexive(files, q[n]);
    }
  }
}

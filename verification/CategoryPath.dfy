/** Slash-separated category paths: their validation and their segments. */
module CategoryPath {
  import opened Model

  const MAX_LENGTH := 63

  /** The parts between slashes. */
  function Segments(path: string): (s: seq<string>)
    ensures |s| > 0
  {
    if path == "" then [""]
    else
      var rest := Segments(path[1..]);
      if path[0] == '/' then [""] + rest else [[path[0]] + rest[0]] + rest[1..]
  }

  function Join(segments: seq<string>): string
    requires |segments| > 0
  {
    if |segments| == 1 then segments[0] else segments[0] + "/" + Join(segments[1..])
  }

  /** Joining the segments gives the path back, and no segment holds a slash. */
  lemma {:induction false} SegmentsJoin(path: string)
    ensures Join(Segments(path)) == path
    ensures forall i :: 0 <= i < |Segments(path)| ==> '/' !in Segments(path)[i]
  {
    if path != "" {
      SegmentsJoin(path[1..]);
      var rest := Segments(path[1..]);
      var all := Segments(path);
      if path[0] == '/' {
        assert all[1..] == rest;
        assert path == "" + "/" + path[1..];
      } else {
        assert all[1..] == rest[1..];
        assert path == [path[0]] + path[1..];
        if |rest| > 1 {
          assert Join(all) == ([path[0]] + rest[0]) + "/" + Join(rest[1..]);
        }
      }
    }
  }

  /** Neither empty nor too long, and no segment is empty. */
  ghost predicate IsValidPath(path: string) {
    0 < |path| <= MAX_LENGTH && AllFilled(Segments(path))
  }

  ghost predicate AllFilled(segments: seq<string>) {
    forall i :: 0 <= i < |segments| ==> segments[i] != ""
  }

  /** No slash at the front, at the end or before another slash. */
  ghost predicate IsClean(t: string) {
    t != "" && t[0] != '/' && forall i :: 0 <= i < |t| ==> SlashIsInside(t, i)
  }

  predicate SlashIsInside(t: string, i: nat)
    requires i < |t|
  {
    t[i] == '/' ==> i + 1 < |t| && t[i + 1] != '/'
  }

  lemma {:induction false} CleanIffSegments(path: string)
    ensures IsClean(path) <==> AllFilled(Segments(path))
    decreases |path|
  {
    hide IsClean;
    if path == "" || path[0] == '/' {
      assert Segments(path)[0] == "";
      NotClean(path);
    } else if |path| > 1 && path[1] == '/' {
      CleanIffSegments(path[2..]);
      CleanAcrossSlash(path);
      FilledAcrossSlash(path);
    } else if |path| > 1 {
      CleanIffSegments(path[1..]);
      CleanInSegment(path);
      FilledInSegment(path);
    } else {
      assert path[1..] == "" && Segments(path) == [[path[0]] + ""];
      CleanLetter(path);
    }
  }

  lemma NotClean(path: string)
    requires path == "" || path[0] == '/'
    ensures !IsClean(path)
  {
  }

  lemma CleanLetter(path: string)
    requires |path| == 1 && path[0] != '/'
    ensures IsClean(path)
  {
  }

  lemma CleanAcrossSlash(path: string)
    requires |path| > 1 && path[0] != '/' && path[1] == '/'
    ensures IsClean(path) <==> IsClean(path[2..])
  {
    CleanTail(path, 2);
    assert SlashIsInside(path, 0);
    assert SlashIsInside(path, 1) <==> path[2..] != "" && path[2..][0] != '/';
  }

  lemma CleanInSegment(path: string)
    requires |path| > 1 && path[0] != '/' && path[1] != '/'
    ensures IsClean(path) <==> IsClean(path[1..])
  {
    CleanTail(path, 1);
    assert SlashIsInside(path, 0);
  }

  lemma FilledAcrossSlash(path: string)
    requires |path| > 1 && path[0] != '/' && path[1] == '/'
    ensures AllFilled(Segments(path)) <==> AllFilled(Segments(path[2..]))
  {
    hide Segments;
    assert path == [path[0]] + "/" + path[2..];
    SegmentsAtSlash([path[0]], path[2..]);
    FilledCons([path[0]], Segments(path[2..]));
  }

  lemma FilledInSegment(path: string)
    requires |path| > 1 && path[0] != '/' && path[1] != '/'
    ensures AllFilled(Segments(path)) <==> AllFilled(Segments(path[1..]))
  {
    var rest := Segments(path[1..]);
    assert rest[0] != "";
    FilledCons([path[0]] + rest[0], rest[1..]);
    FilledCons(rest[0], rest[1..]);
    assert rest == [rest[0]] + rest[1..];
  }

  lemma FilledCons(first: string, rest: seq<string>)
    requires first != ""
    ensures AllFilled([first] + rest) <==> AllFilled(rest)
  {
    var all := [first] + rest;
    assert forall i :: 0 <= i < |rest| ==> all[i + 1] == rest[i];
    assert forall i :: 0 < i < |all| ==> all[i] == rest[i - 1];
  }

  /** Behind the first characters the same slashes are inside. */
  lemma CleanTail(path: string, n: nat)
    requires 0 < n <= |path|
    ensures (forall i :: n <= i < |path| ==> SlashIsInside(path, i))
       <==> (forall i :: 0 <= i < |path[n..]| ==> SlashIsInside(path[n..], i))
  {
    var t := path[n..];
    forall i | 0 <= i < |t|
      ensures SlashIsInside(t, i) == SlashIsInside(path, i + n)
    {
    }
    assert forall i :: n <= i < |path| ==> SlashIsInside(path, i) == SlashIsInside(t, i - n);
  }

  lemma {:induction false} SegmentsAtSlash(segment: string, rest: string)
    requires '/' !in segment
    ensures Segments(segment + "/" + rest) == [segment] + Segments(rest)
    ensures Segments(segment) == [segment]
  {
    var path := segment + "/" + rest;
    if segment == "" {
      assert path[1..] == rest;
    } else {
      SegmentsAtSlash(segment[1..], rest);
      assert path[0] == segment[0] && path[1..] == segment[1..] + "/" + rest;
      assert segment[0] in segment && segment == [segment[0]] + segment[1..];
    }
  }

  function Slashes(t: string): nat {
    if t == "" then 0 else Slashes(t[..|t| - 1]) + if t[|t| - 1] == '/' then 1 else 0
  }

  lemma {:induction false} DepthIsSlashes(path: string)
    ensures |Segments(path)| == Slashes(path) + 1
    decreases |path|
  {
    if '/' in path {
      var i :| 0 <= i < |path| && path[i] == '/';
      SegmentCount(path[..i], path[i + 1..]);
      assert path == path[..i] + "/" + path[i + 1..];
      DepthIsSlashes(path[..i]);
      DepthIsSlashes(path[i + 1..]);
      SlashesAppend(path[..i] + "/", path[i + 1..]);
      assert (path[..i] + "/")[..i] == path[..i];
    } else {
      SegmentsAtSlash(path, "");
      NoSlashes(path);
    }
  }

  lemma {:induction false} SegmentCount(a: string, b: string)
    ensures |Segments(a + "/" + b)| == |Segments(a)| + |Segments(b)|
  {
    var path := a + "/" + b;
    if a == "" {
      assert path[1..] == b;
    } else {
      assert path[0] == a[0] && path[1..] == a[1..] + "/" + b;
      SegmentCount(a[1..], b);
    }
  }

  lemma {:induction false} SlashesAppend(a: string, b: string)
    ensures Slashes(a + b) == Slashes(a) + Slashes(b)
  {
    if b == "" {
      assert a + b == a;
    } else {
      var n := |b| - 1;
      assert (a + b)[..|a + b| - 1] == a + b[..n];
      SlashesAppend(a, b[..n]);
    }
  }

  lemma {:induction false} NoSlashes(t: string)
    requires '/' !in t
    ensures Slashes(t) == 0
  {
    if t != "" {
      assert t[|t| - 1] in t;
      NoSlashes(t[..|t| - 1]);
    }
  }

  /** Accepts exactly the valid paths and counts their segments. */
  method Analyze(path: string) returns (status: Status, depth: nat)
    ensures status == if IsValidPath(path) then Ok else SchemaError
    ensures status == Ok ==> depth == |Segments(path)|
  {
    hide Segments, Slashes;
    CleanIffSegments(path);
    depth := 0;
    if |path| == 0 || |path| > MAX_LENGTH {
      return SchemaError, 0;
    }
    if path[0] == '/' || path[|path| - 1] == '/' {
      assert path[|path| - 1] == '/' ==> !SlashIsInside(path, |path| - 1);
      return SchemaError, 0;
    }
    depth := 1;
    NoSlashes("");
    assert path[..0] == "";
    for index := 0 to |path|
      invariant depth == Slashes(path[..index]) + 1
      invariant forall i :: 0 <= i < index ==> SlashIsInside(path, i)
    {
      SlashesNext(path, index);
      if path[index] != '/' {
        continue;
      }
      if index + 1 >= |path| || path[index + 1] == '/' {
        assert !SlashIsInside(path, index);
        return SchemaError, 0;
      }
      depth := depth + 1;
    }
    assert path[..|path|] == path;
    DepthIsSlashes(path);
    return Ok, depth;
  }

  lemma SlashesNext(path: string, i: nat)
    requires i < |path|
    ensures Slashes(path[..i + 1]) == Slashes(path[..i]) + if path[i] == '/' then 1 else 0
  {
    assert path[..i + 1][..i] == path[..i];
  }

  /** Where segment `index` of a valid path is. */
  method SegmentAt(path: string, index: nat) returns (status: Status, begin: nat, size: nat)
    ensures status == if IsValidPath(path) && index < |Segments(path)| then Ok else InvalidArgument
    ensures status == Ok ==> begin + size <= |path| && path[begin..begin + size] == Segments(path)[index]
  {
    hide Segments;
    begin, size := 0, 0;
    var analyzed, depth := Analyze(path);
    if analyzed != Ok || index >= depth {
      return InvalidArgument, 0, 0;
    }
    var segmentIndex := 0;
    var cursor := 0;
    assert path[0..] == path;
    while cursor < |path|
      invariant begin <= cursor <= |path| && segmentIndex <= index
      invariant '/' !in path[begin..cursor]
      invariant |Segments(path)| == segmentIndex + |Segments(path[begin..])|
      invariant Segments(path)[segmentIndex..] == Segments(path[begin..])
    {
      if path[cursor] == '/' {
        assert path[begin..] == path[begin..cursor] + "/" + path[cursor + 1..];
        SegmentsAtSlash(path[begin..cursor], path[cursor + 1..]);
        if segmentIndex == index {
          assert Segments(path)[index] == Segments(path)[index..][0];
          return Ok, begin, cursor - begin;
        }
        assert Segments(path)[segmentIndex + 1..] == Segments(path)[segmentIndex..][1..];
        segmentIndex := segmentIndex + 1;
        begin := cursor + 1;
      }
      cursor := cursor + 1;
      assert begin < cursor ==> path[begin..cursor] == path[begin..cursor - 1] + [path[cursor - 1]];
    }
    assert path[begin..] == path[begin..cursor];
    SegmentsAtSlash(path[begin..], "");
    assert Segments(path)[index] == Segments(path)[segmentIndex..][0];
    return Ok, begin, cursor - begin;
  }

  /** A path of one segment has one to 63 characters. */
  lemma SingleSegment(path: string)
    requires '/' !in path
    ensures IsValidPath(path) <==> 1 <= |path| <= 63
  {
    SegmentsAtSlash(path, "");
  }
}

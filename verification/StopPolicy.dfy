/** `path_matches_skip`: a greedy left-to-right wildcard matcher, proved exact against the usual
    meaning of a `*` pattern. */
module StopPolicy {

  // ----- what a pattern means -------------------------------------------------------------

  /** `*` stands for any run of characters, every other character for itself. */
  ghost predicate Glob(pattern: string, path: string) {
    if pattern == [] then path == []
    else if pattern[0] == '*' then exists k :: 0 <= k <= |path| && Glob(pattern[1..], path[k..])
    else path != [] && path[0] == pattern[0] && Glob(pattern[1..], path[1..])
  }

  /** `part` occurs in `path` at `pos`. */
  predicate OccursAt(part: string, path: string, pos: nat) {
    pos + |part| <= |path| && path[pos..pos + |part|] == part
  }

  predicate Contains(path: string, part: string) {
    exists pos :: 0 <= pos <= |path| && OccursAt(part, path, pos)
  }

  /** The literal parts of a pattern, as `split('*')` yields them. */
  function Split(pattern: string): (parts: seq<string>)
    ensures parts != []
    ensures '*' in pattern ==> |parts| >= 2
  {
    if pattern == [] then [""]
    else if pattern[0] == '*' then [""] + Split(pattern[1..])
    else
      var rest := Split(pattern[1..]);
      [[pattern[0]] + rest[0]] + rest[1..]
  }

  // ----- the same in terms of parts ---------------------------------------------------------

  predicate StartsWith(path: string, part: string) {
    OccursAt(part, path, 0)
  }

  predicate EndsWith(path: string, part: string) {
    |part| <= |path| && path[|path| - |part|..] == part
  }

  /** `path` is a gap, then the first part, then a gap, then the next, ..., ending in the last. */
  ghost predicate Gapped(parts: seq<string>, path: string)
    requires parts != []
    decreases |parts|
  {
    if |parts| == 1 then EndsWith(path, parts[0])
    else exists k :: 0 <= k <= |path| && OccursAt(parts[0], path, k) && Gapped(parts[1..], path[k + |parts[0]|..])
  }

  lemma FirstGap(parts: seq<string>, path: string) returns (k: nat)
    requires |parts| >= 2 && Gapped(parts, path)
    ensures OccursAt(parts[0], path, k) && Gapped(parts[1..], path[k + |parts[0]|..])
  {
    k :| 0 <= k <= |path| && OccursAt(parts[0], path, k) && Gapped(parts[1..], path[k + |parts[0]|..]);
  }

  /** More characters in front only widen the first gap. */
  lemma GappedWidens(parts: seq<string>, path: string, d: nat)
    requires parts != [] && d <= |path| && Gapped(parts, path[d..])
    ensures Gapped(parts, path)
  {
    var shorter := path[d..];
    if |parts| == 1 {
      assert path[|path| - |parts[0]|..] == shorter[|shorter| - |parts[0]|..];
    } else {
      var k :| 0 <= k <= |shorter| && OccursAt(parts[0], shorter, k) && Gapped(parts[1..], shorter[k + |parts[0]|..]);
      assert path[d + k..d + k + |parts[0]|] == shorter[k..k + |parts[0]|];
      assert path[d + k + |parts[0]|..] == shorter[k + |parts[0]|..];
      assert OccursAt(parts[0], path, d + k);
    }
  }

  /** Taking the leftmost occurrence of the next part loses no match. */
  lemma LeftmostSuffices(parts: seq<string>, path: string, pos: nat)
    requires |parts| >= 2 && pos <= |path| && OccursAt(parts[0], path, pos)
    requires forall k :: 0 <= k < pos ==> !OccursAt(parts[0], path, k)
    ensures Gapped(parts, path) <==> Gapped(parts[1..], path[pos + |parts[0]|..])
  {
    var rest := path[pos + |parts[0]|..];
    if Gapped(parts, path) {
      var k := FirstGap(parts, path);
      assert pos <= k && k + |parts[0]| <= |path|;
      hide Gapped, OccursAt;
      assert rest[k - pos..] == path[k + |parts[0]|..];
      GappedWidens(parts[1..], rest, k - pos);
    }
  }

  /** `path` is the first part, then everything after the first star. */
  ghost predicate Parted(parts: seq<string>, path: string)
    requires parts != []
  {
    if |parts| == 1 then path == parts[0]
    else StartsWith(path, parts[0]) && Gapped(parts[1..], path[|parts[0]|..])
  }

  lemma PartedBehindGap(parts: seq<string>, path: string, k: nat)
    requires |parts| >= 2 && k <= |path|
    ensures Parted(parts, path[k..]) <==> OccursAt(parts[0], path, k) && Gapped(parts[1..], path[k + |parts[0]|..])
  {
    if k + |parts[0]| <= |path| {
      assert path[k..][0..0 + |parts[0]|] == path[k..k + |parts[0]|];
      assert path[k..][|parts[0]|..] == path[k + |parts[0]|..];
    }
  }

  /** A star in front of parts is a gap in front of them. */
  lemma StarIsGap(parts: seq<string>, path: string)
    requires parts != []
    ensures Gapped(parts, path) <==> exists k :: 0 <= k <= |path| && Parted(parts, path[k..])
  {
    if |parts| == 1 {
      if EndsWith(path, parts[0]) {
        assert Parted(parts, path[|path| - |parts[0]|..]);
      }
    } else {
      forall k: nat | k <= |path|
        ensures Parted(parts, path[k..]) <==> OccursAt(parts[0], path, k) && Gapped(parts[1..], path[k + |parts[0]|..])
      {
        PartedBehindGap(parts, path, k);
      }
    }
  }

  lemma CharThenParts(c: char, rest: seq<string>, path: string)
    requires rest != []
    ensures Parted([[c] + rest[0]] + rest[1..], path) <==> path != [] && path[0] == c && Parted(rest, path[1..])
  {
    var parts := [[c] + rest[0]] + rest[1..];
    assert parts[1..] == rest[1..];
    if |parts[0]| <= |path| {
      assert path[0..0 + |parts[0]|] == [path[0]] + path[1..][0..0 + |rest[0]|];
      assert path[|parts[0]|..] == path[1..][|rest[0]|..];
    }
  }

  /** A pattern and its parts mean the same. */
  lemma {:induction false} GlobIsParts(pattern: string, path: string)
    ensures Glob(pattern, path) <==> Parted(Split(pattern), path)
    decreases |pattern|
  {
    if pattern != [] {
      var parts, rest := Split(pattern), Split(pattern[1..]);
      if pattern[0] == '*' {
        assert parts[1..] == rest && path[|parts[0]|..] == path;
        forall k | 0 <= k <= |path| ensures Glob(pattern[1..], path[k..]) <==> Parted(rest, path[k..]) {
          GlobIsParts(pattern[1..], path[k..]);
        }
        StarIsGap(rest, path);
      } else {
        CharThenParts(pattern[0], rest, path);
        if path != [] {
          GlobIsParts(pattern[1..], path[1..]);
        }
      }
    }
  }

  // ----- the matcher ----------------------------------------------------------------------

  /** The leftmost occurrence of `part`, if any. */
  method Find(path: string, part: string) returns (found: bool, pos: nat)
    ensures found ==> pos <= |path| && OccursAt(part, path, pos)
    ensures found ==> forall k :: 0 <= k < pos ==> !OccursAt(part, path, k)
    ensures !found ==> forall k :: 0 <= k <= |path| ==> !OccursAt(part, path, k)
  {
    found, pos := false, 0;
    while pos + |part| <= |path|
      invariant !found && forall k :: 0 <= k < pos ==> !OccursAt(part, path, k)
    {
      if path[pos..pos + |part|] == part {
        return true, pos;
      }
      pos := pos + 1;
    }
  }

  /** What is left to match once parts before `index` have been consumed. */
  ghost predicate Remaining(parts: seq<string>, index: nat, cursor: string)
    requires index < |parts| && |parts| >= 2
  {
    if index == 0 then StartsWith(cursor, parts[0]) && Gapped(parts[1..], cursor[|parts[0]|..])
    else Gapped(parts[index..], cursor)
  }

  /** An empty part consumes nothing; after the last part there is only a free gap. */
  lemma EmptyPart(parts: seq<string>, index: nat, cursor: string)
    requires index < |parts| && |parts| >= 2 && parts[index] == ""
    ensures index == |parts| - 1 ==> Remaining(parts, index, cursor)
    ensures index < |parts| - 1 ==> (Remaining(parts, index, cursor) <==> Remaining(parts, index + 1, cursor))
  {
    if index == 0 {
      assert cursor[0..] == cursor;
    } else if index < |parts| - 1 {
      assert parts[index..][1..] == parts[index + 1..] && cursor[0 + 0..] == cursor;
      LeftmostSuffices(parts[index..], cursor, 0);
    }
  }

  method PathMatchesSkip(path: string, pattern: string) returns (matches: bool)
    ensures matches <==>
      && pattern != ""
      && (if '*' in pattern then Glob(pattern, path) else Contains(path, pattern))
  {
    if pattern == "" {
      return false;
    }
    if '*' in pattern {
      var parts := Split(pattern);
      var cursor := path;
      GlobIsParts(pattern, path);
      var index := 0;
      while index < |parts|
        invariant index <= |parts|
        invariant index < |parts| ==> (Glob(pattern, path) <==> Remaining(parts, index, cursor))
        invariant index == |parts| ==> Glob(pattern, path)
      {
        var part := parts[index];
        if part == "" {
          EmptyPart(parts, index, cursor);
        } else if index == 0 {
          if !StartsWith(cursor, part) {
            return false;
          }
          cursor := cursor[|part|..];
        } else if index == |parts| - 1 {
          return EndsWith(cursor, part);
        } else {
          var found, pos := Find(cursor, part);
          assert parts[index..][0] == part && parts[index..][1..] == parts[index + 1..];
          if !found {
            return false;
          }
          LeftmostSuffices(parts[index..], cursor, pos);
          cursor := cursor[pos + |part|..];
        }
        index := index + 1;
      }
      return true;
    }
    var found, pos := Find(path, pattern);
    return found;
  }

  // ----- what a match looks like -------------------------------------------------------------

  /** The parts with the gaps put back between them. */
  function Weave(parts: seq<string>, gaps: seq<string>): string
    requires |parts| == |gaps| + 1
    decreases |parts|
  {
    if gaps == [] then parts[0] else parts[0] + gaps[0] + Weave(parts[1..], gaps[1..])
  }

  lemma WeaveMore(parts: seq<string>, gap: string, gaps: seq<string>)
    requires |parts| == |gaps| + 2
    ensures Weave(parts, [gap] + gaps) == parts[0] + gap + Weave(parts[1..], gaps)
  {
    assert ([gap] + gaps)[1..] == gaps;
  }

  lemma WeaveFrom(parts: seq<string>, path: string, k: nat, gap: string, gaps: seq<string>)
    requires |parts| == |gaps| + 2 && OccursAt(parts[0], path, k)
    requires path[k + |parts[0]|..] == gap + Weave(parts[1..], gaps)
    ensures path == path[..k] + Weave(parts, [gap] + gaps)
  {
    hide Weave;
    WeaveMore(parts, gap, gaps);
    assert path == path[..k] + (path[k..k + |parts[0]|] + path[k + |parts[0]|..]);
    assert parts[0] + (gap + Weave(parts[1..], gaps)) == parts[0] + gap + Weave(parts[1..], gaps);
  }

  lemma LastGap(parts: seq<string>, path: string)
    requires |parts| == 1 && Gapped(parts, path)
    ensures |parts[0]| <= |path| && path == path[..|path| - |parts[0]|] + Weave(parts, [])
  {
  }

  lemma {:induction false} GappedGivesGaps(parts: seq<string>, path: string) returns (first: string, gaps: seq<string>)
    requires parts != [] && Gapped(parts, path)
    ensures |parts| == |gaps| + 1 && path == first + Weave(parts, gaps)
    decreases |parts|
  {
    hide Gapped, Weave;
    if |parts| == 1 {
      LastGap(parts, path);
      first, gaps := path[..|path| - |parts[0]|], [];
    } else {
      var k := FirstGap(parts, path);
      var next, rest := GappedGivesGaps(parts[1..], path[k + |parts[0]|..]);
      first, gaps := path[..k], [next] + rest;
      WeaveFrom(parts, path, k, next, rest);
    }
  }

  lemma {:induction false} GapsGiveGapped(parts: seq<string>, first: string, gaps: seq<string>)
    requires |parts| == |gaps| + 1
    ensures Gapped(parts, first + Weave(parts, gaps))
    decreases |parts|
  {
    var path := first + Weave(parts, gaps);
    if gaps != [] {
      GapsGiveGapped(parts[1..], gaps[0], gaps[1..]);
      assert path[|first|..|first| + |parts[0]|] == parts[0];
      assert path[|first| + |parts[0]|..] == gaps[0] + Weave(parts[1..], gaps[1..]);
      assert OccursAt(parts[0], path, |first|);
    }
  }

  /** A path matches a starred pattern if and only if it is the pattern's literal parts, in order,
      with some text in place of each star. */
  lemma MatchIsWeave(pattern: string, path: string)
    requires '*' in pattern
    ensures Glob(pattern, path) <==>
      exists gaps: seq<string> :: |Split(pattern)| == |gaps| + 1 && path == Weave(Split(pattern), gaps)
  {
    var parts := Split(pattern);
    GlobIsParts(pattern, path);
    if Glob(pattern, path) {
      var gaps := PartsGiveWeave(parts, path);
    }
    forall gaps: seq<string> | |parts| == |gaps| + 1 && path == Weave(parts, gaps) ensures Glob(pattern, path) {
      WeaveGivesParts(parts, gaps);
    }
  }

  lemma PartsGiveWeave(parts: seq<string>, path: string) returns (gaps: seq<string>)
    requires |parts| >= 2 && StartsWith(path, parts[0]) && Gapped(parts[1..], path[|parts[0]|..])
    ensures |parts| == |gaps| + 1 && path == Weave(parts, gaps)
  {
    var first, rest := GappedGivesGaps(parts[1..], path[|parts[0]|..]);
    gaps := [first] + rest;
    assert path == path[..|parts[0]|] + path[|parts[0]|..];
    assert gaps[1..] == rest;
  }

  lemma WeaveGivesParts(parts: seq<string>, gaps: seq<string>)
    requires |parts| >= 2 && |parts| == |gaps| + 1
    ensures Parted(parts, Weave(parts, gaps))
  {
    hide Weave, Gapped;
    var path, rest := Weave(parts, gaps), gaps[0] + Weave(parts[1..], gaps[1..]);
    assert gaps == [gaps[0]] + gaps[1..];
    WeaveMore(parts, gaps[0], gaps[1..]);
    GapsGiveGapped(parts[1..], gaps[0], gaps[1..]);
    assert path == parts[0] + rest;
    assert path[0..0 + |parts[0]|] == parts[0];
    assert path[|parts[0]|..] == rest;
  }
}

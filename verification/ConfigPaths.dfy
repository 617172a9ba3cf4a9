/** Dotted config paths whose segments may themselves contain dots and backslashes. */
module ConfigPaths {

  function Escape(segment: string): string {
    if segment == "" then ""
    else (if segment[0] == '\\' || segment[0] == '.' then ['\\', segment[0]] else [segment[0]]) + Escape(segment[1..])
  }

  /** Escaped segments with dots between them; no segments give the empty path. */
  function JoinConfigPath(segments: seq<string>): string {
    if segments == [] then ""
    else if |segments| == 1 then Escape(segments[0])
    else Escape(segments[0]) + "." + JoinConfigPath(segments[1..])
  }

  /** What splitting makes of the rest of a path, with `current` already read of the segment at hand. */
  function SplitFrom(path: string, current: string): (segments: seq<string>)
    ensures segments != []
    decreases |path|
  {
    if path == "" then [current]
    else if path[0] == '\\' && |path| > 1 then SplitFrom(path[2..], current + [path[1]])
    else if path[0] == '.' then [current] + SplitFrom(path[1..], "")
    else SplitFrom(path[1..], current + [path[0]])
  }

  method SplitConfigPath(path: string) returns (segments: seq<string>)
    ensures segments == SplitFrom(path, "")
  {
    segments := [];
    var current := "";
    var i := 0;
    assert path[0..] == path;
    while i < |path|
      invariant 0 <= i <= |path|
      invariant segments + SplitFrom(path[i..], current) == SplitFrom(path, "")
    {
      var c := path[i];
      assert path[i..][1..] == path[i + 1..];
      if c == '\\' && i + 1 < |path| {
        assert path[i..][2..] == path[i + 2..];
        current := current + [path[i + 1]];
        i := i + 1;
      } else if c == '.' {
        assert segments + ([current] + SplitFrom(path[i + 1..],
            "")) == (segments + [current]) + SplitFrom(path[i + 1..], "");
        segments := segments + [current];
        current := "";
      } else {
        current := current + [c];
      }
      i := i + 1;
    }
    segments := segments + [current];
  }

  /** Reading an escaped segment back. */
  lemma {:induction false} SplitReadsEscaped(segment: string, rest: string, current: string)
    ensures SplitFrom(Escape(segment) + rest, current) == SplitFrom(rest, current + segment)
    decreases |segment|
  {
    if segment == "" {
      assert Escape(segment) + rest == rest;
      assert current + segment == current;
    } else {
      var c := segment[0];
      var path := Escape(segment) + rest;
      var tail := Escape(segment[1..]) + rest;
      assert current + segment == (current + [c]) + segment[1..];
      if c == '\\' || c == '.' {
        assert path[0] == '\\' && path[1] == c && path[2..] == tail;
      } else {
        assert path[0] == c && path[1..] == tail;
      }
      SplitReadsEscaped(segment[1..], rest, current + [c]);
    }
  }

  /** Round trip: splitting a joined path gives back the segments, for every non-empty list, empty segments included. */
  lemma {:induction false} SplitUndoesJoin(segments: seq<string>)
    requires segments != []
    ensures SplitFrom(JoinConfigPath(segments), "") == segments
    decreases |segments|
  {
    var first := segments[0];
    assert "" + first == first;
    if |segments| == 1 {
      assert Escape(first) + "" == Escape(first);
      SplitReadsEscaped(first, "", "");
    } else {
      var rest := "." + JoinConfigPath(segments[1..]);
      assert JoinConfigPath(segments) == Escape(first) + rest;
      SplitReadsEscaped(first, rest, "");
      assert rest[1..] == JoinConfigPath(segments[1..]);
      SplitUndoesJoin(segments[1..]);
    }
  }

  /** Distinct non-empty lists of segments have distinct paths. */
  lemma JoinIsInjective(a: seq<string>, b: seq<string>)
    requires a != [] && b != [] && JoinConfigPath(a) == JoinConfigPath(b)
    ensures a == b
  {
    SplitUndoesJoin(a);
    SplitUndoesJoin(b);
  }

  // ---------------------------------------------------------------- what a path looks like

  predicate PlainSegment(segment: string) {
    '.' !in segment && '\\' !in segment
  }

  /** The segments with dots between them. */
  function Dotted(segments: seq<string>): string {
    if segments == [] then ""
    else if |segments| == 1 then segments[0]
    else segments[0] + "." + Dotted(segments[1..])
  }

  lemma {:induction false} PlainIsNotEscaped(segment: string)
    requires PlainSegment(segment)
    ensures Escape(segment) == segment
    decreases |segment|
  {
    if segment != "" {
      assert segment == [segment[0]] + segment[1..];
      PlainIsNotEscaped(segment[1..]);
    }
  }

  /**
   * Segments without dots and backslashes join as they stand, and a dotted path without backslashes
   * splits at its dots.
   */
  lemma {:induction false} PlainSegmentsJoinAsTheyStand(segments: seq<string>)
    requires forall segment :: segment in segments ==> PlainSegment(segment)
    ensures JoinConfigPath(segments) == Dotted(segments)
    ensures segments != [] ==> SplitFrom(Dotted(segments), "") == segments
    decreases |segments|
  {
    if segments != [] {
      PlainIsNotEscaped(segments[0]);
      PlainSegmentsJoinAsTheyStand(segments[1..]);
      SplitUndoesJoin(segments);
    }
  }

  /** Exactly the dots and backslashes of a segment are escaped, each with one backslash. */
  lemma {:induction false} EscapingAddsBackslashes(segment: string)
    ensures |Escape(segment)| == |segment| + SpecialCount(segment)
    decreases |segment|
  {
    if segment != "" { EscapingAddsBackslashes(segment[1..]); }
  }

  function SpecialCount(segment: string): nat {
    if segment == "" then 0
    else (if segment[0] in {'.', '\\'} then 1 else 0) + SpecialCount(segment[1..])
  }

  /**
   * Paths no join writes: a backslash before any other character stands for that character, and one
   * at the very end for itself.
   */
  lemma {:induction false} StrayBackslashes(segments: seq<string>, c: char)
    requires segments != []
    ensures var path := JoinConfigPath(segments); var front := segments[..|segments| - 1];
            var last := segments[|segments| - 1];
            && SplitFrom(path + ['\\', c], "") == front + [last + [c]]
            && SplitFrom(path + ['\\'], "") == front + [last + ['\\']]
    decreases |segments|
  {
    var first := segments[0];
    assert "" + first == first;
    if |segments| == 1 {
      SplitReadsEscaped(first, ['\\', c], "");
      SplitReadsEscaped(first, ['\\'], "");
      assert ['\\', c][2..] == "" && ['\\'][1..] == "";
      assert segments[..0] + [first + [c]] == [first + [c]];
      assert segments[..0] + [first + ['\\']] == [first + ['\\']];
    } else {
      AfterFirst(segments, ['\\', c]);
      AfterFirst(segments, ['\\']);
      StrayBackslashes(segments[1..], c);
      assert segments[..|segments| - 1] == [first] + segments[1..][..|segments| - 2];
    }
  }

  lemma AfterFirst(segments: seq<string>, more: string)
    requires |segments| > 1
    ensures SplitFrom(JoinConfigPath(segments) + more, "")
            == [segments[0]] + SplitFrom(JoinConfigPath(segments[1..]) + more, "")
  {
    var first, rest := segments[0], "." + (JoinConfigPath(segments[1..]) + more);
    assert JoinConfigPath(segments) + more == Escape(first) + rest;
    SplitReadsEscaped(first, rest, "");
    assert "" + first == first;
    assert rest[1..] == JoinConfigPath(segments[1..]) + more;
  }
}

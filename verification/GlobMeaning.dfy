/** What path-scope patterns mean, apart from how they are parsed and matched: the notation of each
    element, and the stretch of a path that each element takes. */
module GlobMeaning {
  import opened Glob
  import opened Wrappers

  // -------------------------------------------------------------- the notation

  function Opening(negated: bool): (s: string)
    ensures |s| == (if negated then 2 else 1) && s[0] == '[' && (negated ==> s[1] == '!')
  {
    if negated then "[!" else "["
  }

  /** The text of a class. */
  function ClassText(spec: string, negated: bool): string {
    Opening(negated) + spec + "]"
  }

  /** From `i` to `j` the pattern writes the element `t`. */
  predicate Writes(p: string, i: nat, j: nat, t: Token)
    requires i <= j <= |p|
  {
    match t
    case Literal(c) => p[i..j] == [c] && c !in {'*', '?', '['}
    case AnyChar => p[i..j] == "?"
    case Class(spec, negated) =>
      && spec != [] && ']' !in spec[1..] && (spec[0] == '!' ==> negated)
      && p[i..j] == ClassText(spec, negated)
    case AnySequence => p[i..j] == "*" && !(j < |p| && p[j] == '*')
    case AnyRecursive =>
      // A whole component, and the separator after it.
      && (i == 0 || p[i - 1] == '/')
      && (p[i..j] == "**/" || (p[i..j] == "**" && j == |p|))
  }

  /** From `i` on the pattern writes these elements, one after the other. */
  ghost predicate WritesAll(p: string, i: nat, ts: seq<Token>)
    requires i <= |p|
    decreases |ts|
  {
    if ts == [] then i == |p|
    else exists j :: i < j <= |p| && Writes(p, i, j, ts[0]) && WritesAll(p, j, ts[1..])
  }

  lemma SliceOf(p: string, i: nat, j: nat, s: string)
    requires i <= j <= |p| && p[i..j] == s
    ensures j == i + |s| && forall k :: 0 <= k < |s| ==> p[i + k] == s[k]
  {
    forall k | 0 <= k < |s| ensures p[i + k] == s[k] {
      assert p[i..j][k] == p[i + k];
    }
  }

  lemma SliceIs(p: string, i: nat, s: string)
    requires i + |s| <= |p| && forall k :: 0 <= k < |s| ==> p[i + k] == s[k]
    ensures p[i..i + |s|] == s
  {}

  lemma {:induction false} ClosesAt(p: string, i: nat, j: nat)
    requires i <= j < |p| && p[j] == ']' && forall k :: i <= k < j ==> p[k] != ']'
    ensures CloseBracket(p, i) == j
    decreases j - i
  {
    if i < j { ClosesAt(p, i + 1, j); }
  }

  lemma SliceParts(p: string, i: nat, j: nat, a: string, b: string, c: string)
    requires i <= j <= |p| && p[i..j] == a + b + c
    ensures j == i + |a| + |b| + |c|
    ensures p[i..i + |a|] == a && p[i + |a|..i + |a| + |b|] == b && p[j - |c|..j] == c
  {
    var s, m, n := p[i..j], |a|, |a| + |b|;
    Inner(p, i, j, 0, m);
    Inner(p, i, j, m, n);
    Inner(p, i, j, n, j - i);
    assert s[0..m] == a && s[m..n] == b && s[n..j - i] == c;
  }

  lemma Inner(p: string, i: nat, j: nat, x: nat, y: nat)
    requires i <= j <= |p| && x <= y <= j - i
    ensures p[i..j][x..y] == p[i + x..i + y]
  {
    var s, a, b := p[i..j], p[i..j][x..y], p[i + x..i + y];
    assert |a| == |b|;
    forall k | 0 <= k < |a| ensures a[k] == b[k] {
      assert a[k] == s[x + k];
      assert s[x + k] == p[i + (x + k)];
      assert b[k] == p[(i + x) + k];
    }
  }

  /** Where the parts of a class stand. */
  lemma ClassShape(p: string, i: nat, j: nat, spec: string, negated: bool)
    requires i < j <= |p| && Writes(p, i, j, Class(spec, negated))
    ensures var first := if negated then i + 2 else i + 1;
            && p[i] == '[' && (negated <==> i + 1 < |p| && p[i + 1] == '!')
            && first + 1 < j && CloseBracket(p, first + 1) == j - 1 && p[first..j - 1] == spec
  {
    hide *;
    var open := Opening(negated);
    ClassIs(p, i, j, spec, negated);
    SliceParts(p, i, j, open, spec, "]");
    var first := i + |open|;
    SliceOf(p, i, first, open);
    SliceOf(p, first, j - 1, spec);
    SliceOf(p, j - 1, j, "]");
    forall k | first + 1 <= k < j - 1 ensures p[k] != ']' {
      assert spec[1..][k - first - 1] == spec[k - first];
      assert p[first + (k - first)] == spec[k - first];
    }
    ClosesAt(p, first + 1, j - 1);
  }

  lemma ClassIs(p: string, i: nat, j: nat, spec: string, negated: bool)
    requires i < j <= |p| && Writes(p, i, j, Class(spec, negated))
    ensures p[i..j] == Opening(negated) + spec + "]"
    ensures spec != [] && ']' !in spec[1..] && (spec[0] == '!' ==> negated)
  {}

  lemma ClassReads(p: string, i: nat, j: nat, spec: string, negated: bool)
    requires i < j <= |p| && Writes(p, i, j, Class(spec, negated))
    ensures CompileFrom(p, i) == Prepend(Class(spec, negated), CompileFrom(p, j))
  {
    ClassShape(p, i, j, spec, negated);
    hide Writes;
    hide CloseBracket;
  }

  /** An element that is written at the head is read there. */
  lemma HeadReads(p: string, i: nat, j: nat, t: Token)
    requires i < j <= |p| && Writes(p, i, j, t)
    ensures CompileFrom(p, i) == Prepend(t, CompileFrom(p, j))
  {
    match t
    case Literal(c) => SliceOf(p, i, j, [c]);
    case AnyChar => SliceOf(p, i, j, "?");
    case Class(spec, negated) => ClassReads(p, i, j, spec, negated);
    case AnySequence => SliceOf(p, i, j, "*");
    case AnyRecursive =>
      if p[i..j] == "**/" {
        SliceOf(p, i, j, "**/");
      } else {
        SliceOf(p, i, j, "**");
        assert CompileFrom(p, j) == Some([]) && [AnyRecursive] + [] == [AnyRecursive];
      }
  }

  lemma StarsWritten(p: string, i: nat) returns (j: nat, t: Token)
    requires i < |p| && p[i] == '*' && CompileFrom(p, i).Some?
    ensures i < j <= |p| && Writes(p, i, j, t) && CompileFrom(p, i) == Prepend(t, CompileFrom(p, j))
  {
    if i + 1 < |p| && p[i + 1] == '*' {
      t := AnyRecursive;
      if i + 2 == |p| {
        j := i + 2;
        SliceIs(p, i, "**");
        assert [AnyRecursive] + [] == [AnyRecursive];
      } else {
        j := i + 3;
        SliceIs(p, i, "**/");
      }
    } else {
      j, t := i + 1, AnySequence;
      SliceIs(p, i, "*");
    }
  }

  lemma ClassWritten(p: string, i: nat) returns (j: nat, t: Token)
    requires i < |p| && p[i] == '[' && CompileFrom(p, i).Some?
    ensures i < j <= |p| && Writes(p, i, j, t) && CompileFrom(p, i) == Prepend(t, CompileFrom(p, j))
  {
    var negated := i + 1 < |p| && p[i + 1] == '!';
    var first := if negated then i + 2 else i + 1;
    var close := CloseBracket(p, first + 1);
    j := close + 1;
    var spec := p[first..close];
    t := Class(spec, negated);
    hide CompileFrom;
    ClassIsText(p, i, first, close, negated);
    forall k | 0 <= k < |spec[1..]| ensures spec[1..][k] != ']' { assert spec[1..][k] == p[first + 1 + k]; }
  }

  lemma ClassIsText(p: string, i: nat, first: nat, close: nat, negated: bool)
    requires i < first < close < |p| && p[i] == '[' && p[close] == ']'
    requires first == if negated then i + 2 else i + 1
    requires negated ==> p[i + 1] == '!'
    ensures p[i..close + 1] == ClassText(p[first..close], negated)
  {
    assert p[i..close + 1] == p[i..first] + p[first..close] + [p[close]];
    assert p[i..first] == if negated then "[!" else "[";
  }

  lemma PlainWritten(p: string, i: nat) returns (j: nat, t: Token)
    requires i < |p| && p[i] != '*' && p[i] != '[' && CompileFrom(p, i).Some?
    ensures i < j <= |p| && Writes(p, i, j, t) && CompileFrom(p, i) == Prepend(t, CompileFrom(p, j))
  {
    j, t := i + 1, if p[i] == '?' then AnyChar else Literal(p[i]);
    SliceIs(p, i, [p[i]]);
  }

  /** Whatever is read at the head is written there. */
  lemma HeadWrites(p: string, i: nat) returns (j: nat)
    requires i < |p| && CompileFrom(p, i).Some?
    ensures i < j <= |p| && CompileFrom(p, i).value != [] && Writes(p, i, j, CompileFrom(p, i).value[0])
    ensures CompileFrom(p, j) == Some(CompileFrom(p, i).value[1..])
  {
    hide CompileFrom;
    hide Writes;
    var t;
    if p[i] == '*' {
      j, t := StarsWritten(p, i);
    } else if p[i] == '[' {
      j, t := ClassWritten(p, i);
    } else {
      j, t := PlainWritten(p, i);
    }
    assert ([t] + CompileFrom(p, j).value)[1..] == CompileFrom(p, j).value;
  }

  /** The parser, exactly: a pattern has these elements if and only if it writes them. */
  lemma {:induction false} CompileIsExact(p: string, i: nat, ts: seq<Token>)
    requires i <= |p|
    ensures CompileFrom(p, i) == Some(ts) <==> WritesAll(p, i, ts)
    decreases |p| - i
  {
    hide Writes;
    if WritesAll(p, i, ts) && ts != [] {
      var j :| i < j <= |p| && Writes(p, i, j, ts[0]) && WritesAll(p, j, ts[1..]);
      HeadReads(p, i, j, ts[0]);
      CompileIsExact(p, j, ts[1..]);
      assert ts == [ts[0]] + ts[1..];
    }
    if CompileFrom(p, i) == Some(ts) && i < |p| {
      var j := HeadWrites(p, i);
      CompileIsExact(p, j, ts[1..]);
    }
  }

  // --------------------------------------------------------------- the match

  /** The capital and the small form of one letter. */
  predicate IsCapitalOf(c: char, d: char) {
    'A' <= c <= 'Z' && 'a' <= d <= 'z' && c as int - 'A' as int == d as int - 'a' as int
  }

  /** The same character, or outside Unix the same letter of the ASCII alphabet. */
  predicate SameLetter(c: char, d: char, o: Options) {
    c == d || (!o.unix && (IsCapitalOf(c, d) || IsCapitalOf(d, c)))
  }

  /** An element takes this stretch of the path, with which the path ends or not. */
  predicate Takes(t: Token, stretch: string, ends: bool, o: Options) {
    match t
    case Literal(c) => |stretch| == 1 && SameLetter(stretch[0], c, o)
    case AnyChar => |stretch| == 1 && stretch[0] != '/'
    case Class(spec, negated) =>
      |stretch| == 1 && stretch[0] != '/' && (o.inClass(spec, stretch[0]) <==> !negated)
    case AnySequence => '/' !in stretch
    case AnyRecursive => ends || stretch == [] || stretch[|stretch| - 1] == '/'
  }

  /** The path is cut into stretches, one for each element. */
  ghost predicate Covers(ts: seq<Token>, path: string, o: Options)
    decreases |ts|
  {
    if ts == [] then path == []
    else exists n :: 0 <= n <= |path| && Takes(ts[0], path[..n], n == |path|, o) && Covers(ts[1..], path[n..], o)
  }

  lemma FoldMeans(c: char, d: char, o: Options)
    ensures Fits(Literal(d), c, o) <==> SameLetter(c, d, o)
  {}

  lemma FitsTakes(t: Token, path: string, n: nat, o: Options)
    requires !Star(t) && n <= |path|
    ensures Takes(t, path[..n], n == |path|, o) <==> n == 1 && Fits(t, path[0], o)
  {
    if n > 0 {
      assert path[..n][0] == path[0];
      if t.Literal? { FoldMeans(path[0], t.c, o); }
    }
  }

  lemma OneCharacter(path: string, n: nat)
    requires 0 < n <= |path|
    ensures path[..n] == [path[0]] + path[1..][..n - 1] && path[n..] == path[1..][n - 1..]
  {}

  lemma {:induction false} SequenceMeans(ts: seq<Token>, path: string, o: Options)
    requires ts != [] && ts[0] == AnySequence
    ensures Accepts(ts, path, o) <==>
              exists n :: 0 <= n <= |path| && '/' !in path[..n] && Accepts(ts[1..], path[n..], o)
    decreases |path|
  {
    assert path[0..] == path && path[..0] == [];
    if path != [] {
      var rest := path[1..];
      SequenceMeans(ts, rest, o);
      if n :| 0 <= n <= |path| && '/' !in path[..n] && Accepts(ts[1..], path[n..], o) {
        if n > 0 { OneCharacter(path, n); }
      }
      if path[0] != '/' && Accepts(ts, rest, o) {
        var n :| 0 <= n <= |rest| && '/' !in rest[..n] && Accepts(ts[1..], rest[n..], o);
        OneCharacter(path, n + 1);
      }
    }
  }

  /** Where a recursive token may give way. */
  predicate GivesWay(path: string, n: int) {
    0 < n <= |path| && (n == |path| || path[n - 1] == '/')
  }

  /** A recursive token may give way after some of the path. */
  ghost predicate GivesWaySomewhere(rest: seq<Token>, path: string, o: Options) {
    exists n :: GivesWay(path, n) && Accepts(rest, path[n..], o)
  }

  lemma GivesWayNext(rest: seq<Token>, path: string, o: Options)
    requires path != []
    ensures var tail := path[1..];
            GivesWaySomewhere(rest, path, o) <==>
              || ((path[0] == '/' || tail == []) && Accepts(rest, tail, o))
              || GivesWaySomewhere(rest, tail, o)
  {
    hide Accepts;
    var tail := path[1..];
    if n :| GivesWay(path, n) && Accepts(rest, path[n..], o) {
      if n > 1 { assert GivesWay(tail, n - 1) && path[n..] == tail[n - 1..]; }
    }
    if (path[0] == '/' || tail == []) && Accepts(rest, tail, o) { assert GivesWay(path, 1); }
    if n :| GivesWay(tail, n) && Accepts(rest, tail[n..], o) {
      assert GivesWay(path, n + 1) && path[n + 1..] == tail[n..];
    }
  }

  lemma SkipNext(rest: seq<Token>, path: string, o: Options)
    ensures SkipComponents(rest, path, o) <==>
              if path == [] then Accepts(rest, [], o)
              else (path[0] == '/' && Accepts(rest, path[1..], o)) || SkipComponents(rest, path[1..], o)
  {
    hide Accepts;
  }

  lemma {:induction false} SkipMeans(rest: seq<Token>, path: string, o: Options)
    ensures SkipComponents(rest, path, o) <==>
              if path == [] then Accepts(rest, [], o) else GivesWaySomewhere(rest, path, o)
    decreases |path|
  {
    SkipNext(rest, path, o);
    hide Accepts;
    hide SkipComponents;
    if path != [] {
      GivesWayNext(rest, path, o);
      SkipMeans(rest, path[1..], o);
      NowhereInEmpty(rest, o);
      hide GivesWaySomewhere;
    }
  }

  lemma NowhereInEmpty(rest: seq<Token>, o: Options)
    ensures !GivesWaySomewhere(rest, [], o)
  {}

  lemma RecursiveMeans(ts: seq<Token>, path: string, o: Options)
    requires ts != [] && ts[0] == AnyRecursive
    ensures Accepts(ts, path, o) <==>
              exists n :: 0 <= n <= |path| && Takes(AnyRecursive, path[..n], n == |path|, o)
                && Accepts(ts[1..], path[n..], o)
  {
    SkipMeans(ts[1..], path, o);
    hide SkipComponents;
    assert path[0..] == path && path[..0] == [] && path[|path|..] == [];
    if Accepts(ts[1..], path, o) { assert Takes(AnyRecursive, path[..0], 0 == |path|, o); }
    if n :| GivesWay(path, n) && Accepts(ts[1..], path[n..], o) {
      assert path[..n][n - 1] == path[n - 1];
      assert Takes(AnyRecursive, path[..n], n == |path|, o);
    }
    if n :| 0 <= n <= |path| && Takes(AnyRecursive, path[..n], n == |path|, o) && Accepts(ts[1..], path[n..], o) {
      if n > 0 {
        assert path[..n][n - 1] == path[n - 1];
        assert GivesWay(path, n);
      }
    }
  }

  /** One element's stretch, and then the rest. */
  lemma AcceptsNext(ts: seq<Token>, path: string, o: Options)
    requires ts != []
    ensures Accepts(ts, path, o) <==>
              exists n :: 0 <= n <= |path| && Takes(ts[0], path[..n], n == |path|, o) && Accepts(ts[1..], path[n..], o)
  {
    if ts[0] == AnySequence {
      SequenceMeans(ts, path, o);
      hide Accepts;
    } else if ts[0] == AnyRecursive {
      RecursiveMeans(ts, path, o);
      hide Accepts;
    } else {
      forall n | 0 <= n <= |path|
        ensures Takes(ts[0], path[..n], n == |path|, o) <==> n == 1 && Fits(ts[0], path[0], o)
      {
        FitsTakes(ts[0], path, n, o);
      }
      hide Takes;
      hide Fits;
    }
  }

  /** The matcher, exactly: a path is accepted if and only if it can be cut so that each element takes
      its stretch. */
  lemma {:induction false} MatcherIsExact(ts: seq<Token>, path: string, o: Options)
    ensures Accepts(ts, path, o) <==> Covers(ts, path, o)
    decreases |ts|
  {
    hide Takes;
    if ts != [] {
      AcceptsNext(ts, path, o);
      hide Accepts;
      forall n | 0 <= n <= |path| ensures Accepts(ts[1..], path[n..], o) <==> Covers(ts[1..], path[n..], o) {
        MatcherIsExact(ts[1..], path[n..], o);
      }
    }
  }

  /** The pattern is the one for everywhere, or writes elements that cover the path. */
  ghost predicate Describes(pattern: string, path: string, o: Options) {
    pattern == "*" || exists ts :: WritesAll(pattern, 0, ts) && Covers(ts, path, o)
  }

  /** A pattern and the paths it scopes to, without its parser and its matcher. */
  lemma PatternMeans(pattern: string, path: string, o: Options)
    ensures GlobAccepts(pattern, path, o) <==> Describes(pattern, path, o)
  {
    hide WritesAll;
    hide Covers;
    hide Accepts;
    hide CompileFrom;
    if Compile(pattern).Some? {
      CompileIsExact(pattern, 0, Compile(pattern).value);
      MatcherIsExact(Compile(pattern).value, path, o);
    }
    if ts :| WritesAll(pattern, 0, ts) && Covers(ts, path, o) {
      CompileIsExact(pattern, 0, ts);
      MatcherIsExact(ts, path, o);
    }
  }
}

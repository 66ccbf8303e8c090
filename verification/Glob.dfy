/** Path-scope globs (src/allowlist.rs): the pattern syntax, a backtracking matcher that
    requires literal separators, and the audit that recognises patterns matching every
    working directory. */
module Glob {
  import opened Wrappers

  /** One parsed pattern element. `**` together with the separator after it is a single token. */
  datatype Token =
    | Literal(c: char)
    | AnyChar
    | Class(spec: string, negated: bool)
    | AnySequence
    | AnyRecursive

  /** `unix` selects case-sensitive letters and the Unix root; what a bracket class contains is left open. */
  datatype Options = Options(unix: bool, inClass: (string, char) -> bool)

  const SEP: Token := Literal('/')

  // ---------------------------------------------------------------- syntax

  /** The first `]` at or after `i`, or |p|. */
  function CloseBracket(p: string, i: nat): (j: nat)
    requires i <= |p|
    ensures i <= j <= |p|
    ensures j < |p| ==> p[j] == ']'
    ensures forall k :: i <= k < j ==> p[k] != ']'
    decreases |p| - i
  {
    if i == |p| || p[i] == ']' then i else CloseBracket(p, i + 1)
  }

  function Prepend(t: Token, rest: Option<seq<Token>>): Option<seq<Token>> {
    if rest.Some? then Some([t] + rest.value) else None
  }

  /** Parse `p` from position `i`. Runs of three stars, a `**` that is not a whole component,
      and an unclosed class are errors. */
  function CompileFrom(p: string, i: nat): Option<seq<Token>>
    requires i <= |p|
    decreases |p| - i
  {
    if i == |p| then
      Some([])
    else if p[i] == '*' then
      if i + 1 < |p| && p[i + 1] == '*' then
        if i + 2 < |p| && p[i + 2] == '*' then None
        else if i != 0 && p[i - 1] != '/' then None
        else if i + 2 == |p| then Some([AnyRecursive])
        else if p[i + 2] == '/' then Prepend(AnyRecursive, CompileFrom(p, i + 3))
        else None
      else
        Prepend(AnySequence, CompileFrom(p, i + 1))
    else if p[i] == '?' then
      Prepend(AnyChar, CompileFrom(p, i + 1))
    else if p[i] == '[' then
      var negated := i + 1 < |p| && p[i + 1] == '!';
      var first := if negated then i + 2 else i + 1;
      // The first character of a class is a member even when it is `]`.
      if first + 1 > |p| then None else
      var close := CloseBracket(p, first + 1);
      if close == |p| then None
      else Prepend(Class(p[first..close], negated), CompileFrom(p, close + 1))
    else
      Prepend(Literal(p[i]), CompileFrom(p, i + 1))
  }

  function Compile(p: string): Option<seq<Token>> {
    CompileFrom(p, 0)
  }

  // --------------------------------------------------------------- matcher

  function Fold(c: char): char {
    if 'A' <= c <= 'Z' then (c as int + 32) as char else c
  }

  /** Whether a one-character token takes `c`. Only a literal `/` takes a separator. */
  predicate Fits(t: Token, c: char, o: Options) {
    match t
    case Literal(d) => c == d || (!o.unix && Fold(c) == Fold(d))
    case AnyChar => c != '/'
    case Class(spec, negated) => c != '/' && o.inClass(spec, c) != negated
    case AnySequence => false
    case AnyRecursive => false
  }

  /** Backtracking match of the whole path. */
  predicate Accepts(ts: seq<Token>, path: string, o: Options)
    decreases |ts|, |path|, 0
  {
    if ts == [] then
      path == []
    else match ts[0]
      case AnySequence =>
        Accepts(ts[1..], path, o) || (path != [] && path[0] != '/' && Accepts(ts, path[1..], o))
      case AnyRecursive =>
        Accepts(ts[1..], path, o) || SkipComponents(ts[1..], path, o)
      case _ =>
        path != [] && Fits(ts[0], path[0], o) && Accepts(ts[1..], path[1..], o)
  }

  /** A recursive token gives way only after a separator or at the end of the path. */
  predicate SkipComponents(rest: seq<Token>, path: string, o: Options)
    decreases |rest|, |path|, 1
  {
    if path == [] then
      Accepts(rest, [], o)
    else
      (path[0] == '/' && Accepts(rest, path[1..], o)) || SkipComponents(rest, path[1..], o)
  }

  /** `path_matches_glob` on text that is already normalised: `*` alone is "anywhere". */
  predicate GlobAccepts(pattern: string, path: string, o: Options) {
    pattern == "*" || (Compile(pattern).Some? && Accepts(Compile(pattern).value, path, o))
  }

  // ------------------------------------------------- acceptance, by shape

  predicate Star(t: Token) { t == AnySequence || t == AnyRecursive }

  predicate Stars(ts: seq<Token>) { forall k :: 0 <= k < |ts| ==> Star(ts[k]) }

  /** A lone star is followed by nothing, or by something that is not a star. */
  predicate Separated(ts: seq<Token>) {
    forall k :: 0 <= k < |ts| - 1 && ts[k] == AnySequence ==> !Star(ts[k + 1])
  }

  lemma {:induction false} StarsAcceptEmpty(ts: seq<Token>, o: Options)
    requires Stars(ts)
    ensures Accepts(ts, [], o)
  {
    if ts != [] {
      assert Star(ts[0]);
      StarsAcceptEmpty(ts[1..], o);
    }
  }

  lemma {:induction false} SkipToEnd(rest: seq<Token>, path: string, o: Options)
    requires Accepts(rest, [], o)
    ensures SkipComponents(rest, path, o)
    decreases |path|
  {
    if path != [] {
      SkipToEnd(rest, path[1..], o);
    }
  }

  /** Recursive tokens and an optional final star cover every path. */
  lemma RecursiveCoversAll(ts: seq<Token>, path: string, o: Options)
    requires Stars(ts) && Separated(ts) && AnyRecursive in ts
    ensures Accepts(ts, path, o)
  {
    var k :| 0 <= k < |ts| && ts[k] == AnyRecursive;
    assert ts[0] == AnyRecursive by {
      assert Star(ts[0]) && (k > 0 ==> Star(ts[1]));
    }
    StarsAcceptEmpty(ts[1..], o);
    SkipToEnd(ts[1..], path, o);
  }

  lemma {:induction false} SequenceCovers(ts: seq<Token>, part: string, path: string, o: Options)
    requires ts != [] && ts[0] == AnySequence && '/' !in part
    requires Accepts(ts[1..], path, o)
    ensures Accepts(ts, part + path, o)
    decreases |part|
  {
    if part == [] {
      assert part + path == path;
    } else {
      SequenceCovers(ts, part[1..], path, o);
      assert (part + path)[1..] == part[1..] + path;
      assert (part + path)[0] == part[0];
    }
  }

  lemma {:induction false} SkipTo(rest: seq<Token>, dirs: string, path: string, o: Options)
    requires dirs != [] && dirs[|dirs| - 1] == '/'
    requires Accepts(rest, path, o)
    ensures SkipComponents(rest, dirs + path, o)
    decreases |dirs|
  {
    assert (dirs + path)[0] == dirs[0];
    assert (dirs + path)[1..] == dirs[1..] + path;
    if |dirs| == 1 {
      assert dirs[1..] + path == path;
    } else {
      SkipTo(rest, dirs[1..], path, o);
    }
  }

  lemma {:induction false} RecursivesCoverDirs(rs: seq<Token>, rest: seq<Token>, dirs: string, path: string, o: Options)
    requires forall k :: 0 <= k < |rs| ==> rs[k] == AnyRecursive
    requires dirs == [] || (rs != [] && dirs[|dirs| - 1] == '/')
    requires Accepts(rest, path, o)
    ensures Accepts(rs + rest, dirs + path, o)
  {
    if rs == [] {
      assert rs + rest == rest && dirs + path == path;
    } else {
      assert (rs + rest)[1..] == rs[1..] + rest;
      RecursivesCoverDirs(rs[1..], rest, [], path, o);
      assert [] + path == path;
      if dirs == [] {
        assert dirs + path == path;
      } else {
        SkipTo(rs[1..] + rest, dirs, path, o);
      }
    }
  }

  /** The position just after the last separator of `s`, or 0. */
  function LastComponent(s: string): (i: nat)
    ensures i <= |s|
    ensures '/' !in s[i..]
    ensures i > 0 ==> s[i - 1] == '/'
  {
    if s == [] then 0
    else if s[|s| - 1] == '/' then |s|
    else
      var i := LastComponent(s[..|s| - 1]);
      assert s[i..] == s[..|s| - 1][i..] + [s[|s| - 1]];
      i
  }

  function FirstSlash(s: string): (i: nat)
    requires '/' in s
    ensures i < |s| && s[i] == '/' && '/' !in s[..i]
  {
    if s[0] == '/' then 0
    else
      var i := FirstSlash(s[1..]) + 1;
      assert s[..i] == [s[0]] + s[1..][..i - 1];
      i
  }

  /** A separator-free text is covered by any nonempty run of stars. */
  lemma StarsCoverComponent(ts: seq<Token>, part: string, o: Options)
    requires Stars(ts) && Separated(ts) && ts != [] && '/' !in part
    ensures Accepts(ts, part, o)
  {
    if AnyRecursive in ts {
      RecursiveCoversAll(ts, part, o);
    } else {
      var second := if |ts| > 1 then ts[1] else SEP;
      assert Star(ts[0]);
      assert |ts| > 1 ==> !Star(second) && second in ts;
      assert ts == [AnySequence];
      assert ts[1..] == [];
      SequenceCovers(ts, part, [], o);
      assert part + [] == part;
    }
  }

  lemma ComponentPathAccepted(rs: seq<Token>, post: seq<Token>, dirs: string, part: string, after: string, o: Options)
    requires forall k :: 0 <= k < |rs| ==> rs[k] == AnyRecursive
    requires dirs == [] || (rs != [] && dirs[|dirs| - 1] == '/')
    requires '/' !in part && Accepts(post, after, o)
    ensures Accepts(rs + ([AnySequence, SEP] + post), dirs + (part + (['/'] + after)), o)
  {
    var tail := [AnySequence, SEP] + post;
    assert tail[1..] == [SEP] + post;
    assert ([SEP] + post)[1..] == post && (['/'] + after)[1..] == after;
    assert Accepts([SEP] + post, ['/'] + after, o);
    SequenceCovers(tail, part, ['/'] + after, o);
    RecursivesCoverDirs(rs, tail, dirs, part + (['/'] + after), o);
  }

  /** Cut a path at its first separator, or at its last one with the component before it singled out. */
  lemma CutPath(path: string, first: bool) returns (dirs: string, part: string, after: string)
    requires '/' in path
    ensures path == dirs + (part + (['/'] + after)) && '/' !in part
    ensures if first then dirs == [] else '/' !in after && (dirs == [] || dirs[|dirs| - 1] == '/')
  {
    if first {
      var k := FirstSlash(path);
      dirs, part, after := [], path[..k], path[k + 1..];
    } else {
      var last := LastComponent(path);
      assert path[0..] == path;
      var start := LastComponent(path[..last - 1]);
      dirs, part, after := path[..start], path[..last - 1][start..], path[last..];
    }
  }

  /** `<stars>*` `/` `<stars>` with a recursive token on either side covers every path that has a separator. */
  lemma ComponentBeforeCovers(pre: seq<Token>, post: seq<Token>, path: string, o: Options)
    requires Stars(pre) && Separated(pre) && Stars(post) && Separated(post)
    requires pre != [] && pre[|pre| - 1] == AnySequence && post != []
    requires AnyRecursive in pre || AnyRecursive in post
    requires '/' in path
    ensures Accepts(pre + [SEP] + post, path, o)
  {
    var rs := pre[..|pre| - 1];
    forall k | 0 <= k < |rs| ensures rs[k] == AnyRecursive {
      assert Star(pre[k]) && Star(pre[k + 1]);
    }
    var dirs, part, after := CutPath(path, AnyRecursive in post);
    if AnyRecursive in post {
      RecursiveCoversAll(post, after, o);
    } else {
      StarsCoverComponent(post, after, o);
    }
    ComponentPathAccepted(rs, post, dirs, part, after, o);
    assert pre + [SEP] + post == rs + ([AnySequence, SEP] + post);
  }

  /** `<recursive>` `/` `<stars>` with a recursive token after the separator covers every rooted path. */
  lemma RootThenRecursiveCovers(pre: seq<Token>, post: seq<Token>, path: string, o: Options)
    requires forall k :: 0 <= k < |pre| ==> pre[k] == AnyRecursive
    requires Stars(post) && Separated(post) && AnyRecursive in post
    requires Rooted(path)
    ensures Accepts(pre + [SEP] + post, path, o)
  {
    RecursiveCoversAll(post, path[1..], o);
    assert ([SEP] + post)[1..] == post;
    assert Accepts([SEP] + post, path, o);
    RecursivesCoverDirs(pre, [SEP] + post, [], path, o);
    assert [] + path == path;
    assert pre + [SEP] + post == pre + ([SEP] + post);
  }

  // -------------------------------------------------- rejection, by counting

  function Count(s: string, sep: bool): nat {
    if s == [] then 0 else (if (s[0] == '/') == sep then 1 else 0) + Count(s[1..], sep)
  }

  /** Tokens that take exactly one separator (`sep`) or exactly one other character. */
  function Needs(ts: seq<Token>, sep: bool): nat {
    if ts == [] then 0
    else (if !Star(ts[0]) && (ts[0] == SEP) == sep then 1 else 0) + Needs(ts[1..], sep)
  }

  lemma FoldKeepsSlash(c: char)
    ensures Fold(c) == '/' <==> c == '/'
  {}

  /** A match supplies every token that needs a character with a character of that sort, and
      without a recursive token it supplies no separator beyond the literal ones. */
  lemma {:induction false} MatchSupplies(ts: seq<Token>, path: string, o: Options)
    requires Accepts(ts, path, o)
    ensures Needs(ts, true) <= Count(path, true) && Needs(ts, false) <= Count(path, false)
    ensures AnyRecursive !in ts ==> Needs(ts, true) == Count(path, true)
    decreases |ts|, |path|, 0
  {
    if ts != [] {
      match ts[0]
      case AnySequence =>
        if Accepts(ts[1..], path, o) {
          MatchSupplies(ts[1..], path, o);
        } else {
          MatchSupplies(ts, path[1..], o);
        }
      case AnyRecursive =>
        if Accepts(ts[1..], path, o) {
          MatchSupplies(ts[1..], path, o);
        } else {
          SkipSupplies(ts[1..], path, o);
        }
      case _ =>
        FoldKeepsSlash(path[0]);
        MatchSupplies(ts[1..], path[1..], o);
    }
  }

  lemma {:induction false} SkipSupplies(rest: seq<Token>, path: string, o: Options)
    requires SkipComponents(rest, path, o)
    ensures Needs(rest, true) <= Count(path, true) && Needs(rest, false) <= Count(path, false)
    decreases |rest|, |path|, 1
  {
    if path == [] {
      MatchSupplies(rest, [], o);
    } else if path[0] == '/' && Accepts(rest, path[1..], o) {
      MatchSupplies(rest, path[1..], o);
    } else {
      SkipSupplies(rest, path[1..], o);
    }
  }

  /** A pattern whose last token is a literal separator only matches paths that end in one. */
  lemma {:induction false} FinalSeparator(ts: seq<Token>, path: string, o: Options)
    requires ts != [] && ts[|ts| - 1] == SEP && Accepts(ts, path, o)
    ensures path != [] && path[|path| - 1] == '/'
    decreases |ts|, |path|, 0
  {
    match ts[0]
    case AnySequence =>
      if Accepts(ts[1..], path, o) { FinalSeparator(ts[1..], path, o); } else { FinalSeparator(ts, path[1..], o); }
    case AnyRecursive =>
      if Accepts(ts[1..], path, o) { FinalSeparator(ts[1..], path, o); } else { SkipFinalSeparator(ts[1..], path, o); }
    case _ =>
      FoldKeepsSlash(path[0]);
      if |ts| > 1 { FinalSeparator(ts[1..], path[1..], o); }
  }

  lemma {:induction false} SkipFinalSeparator(rest: seq<Token>, path: string, o: Options)
    requires rest != [] && rest[|rest| - 1] == SEP && SkipComponents(rest, path, o)
    ensures path != [] && path[|path| - 1] == '/'
    decreases |rest|, |path|, 1
  {
    if path == [] {
      FinalSeparator(rest, [], o);
    } else if path[0] == '/' && Accepts(rest, path[1..], o) {
      FinalSeparator(rest, path[1..], o);
    } else {
      SkipFinalSeparator(rest, path[1..], o);
    }
  }

  /** A match of recursive tokens followed by `/` needs the path to start with a separator
      or to contain two adjacent ones; what follows the `/` is matched by the rest. */
  lemma {:induction false} SeparatorAtBoundary(pre: seq<Token>, post: seq<Token>, path: string, o: Options)
    returns (k: nat)
    requires forall j :: 0 <= j < |pre| ==> pre[j] == AnyRecursive
    requires Accepts(pre + [SEP] + post, path, o)
    ensures k < |path| && path[k] == '/' && (k == 0 || path[k - 1] == '/')
    ensures Accepts(post, path[k + 1..], o)
    decreases |pre|, |path|, 0
  {
    var ts := pre + [SEP] + post;
    if pre == [] {
      assert ts[0] == SEP && ts[1..] == post;
      FoldKeepsSlash(path[0]);
      k := 0;
    } else {
      assert ts[0] == AnyRecursive;
      assert ts[1..] == pre[1..] + [SEP] + post;
      if Accepts(ts[1..], path, o) {
        k := SeparatorAtBoundary(pre[1..], post, path, o);
      } else {
        k := SkipAtBoundary(pre[1..], post, path, o);
      }
    }
  }

  lemma {:induction false} SkipAtBoundary(pre: seq<Token>, post: seq<Token>, path: string, o: Options) returns (k: nat)
    requires forall j :: 0 <= j < |pre| ==> pre[j] == AnyRecursive
    requires SkipComponents(pre + [SEP] + post, path, o)
    ensures 0 < k < |path| && path[k] == '/' && path[k - 1] == '/'
    ensures Accepts(post, path[k + 1..], o)
    decreases |pre|, |path|, 1
  {
    if path == [] {
      k := SeparatorAtBoundary(pre, post, [], o);
      assert false;
    } else {
      var j: nat;
      if path[0] == '/' && Accepts(pre + [SEP] + post, path[1..], o) {
        j := SeparatorAtBoundary(pre, post, path[1..], o);
      } else {
        j := SkipAtBoundary(pre, post, path[1..], o);
      }
      assert path[1..][j + 1..] == path[j + 2..];
      k := j + 1;
    }
  }

  // ------------------------------------------------------------- the audit

  predicate Rooted(path: string) {
    path != [] && path[0] == '/'
  }

  /** The paths the audit speaks about: every rooted path on Unix, every path with a separator elsewhere. */
  predicate Absolute(path: string, o: Options) {
    if o.unix then Rooted(path) else '/' in path
  }

  ghost predicate Universal(pattern: string, o: Options) {
    forall path :: Absolute(path, o) ==> GlobAccepts(pattern, path, o)
  }

  /** Four directories that between them refuse every pattern with a restriction. */
  const SAMPLES: seq<string> := ["/", "/a", "/a/b", "a/"]

  predicate CoversSamples(pattern: string, o: Options) {
    forall k :: 0 <= k < |SAMPLES| && Absolute(SAMPLES[k], o) ==> GlobAccepts(pattern, SAMPLES[k], o)
  }

  lemma RefusesSample(pattern: string, path: string, o: Options)
    requires path in SAMPLES && Absolute(path, o) && !GlobAccepts(pattern, path, o)
    ensures !CoversSamples(pattern, o) && !Universal(pattern, o)
  {}

  /** What the scan knows about the tokens of the text it has passed. */
  datatype Shape = Shape(pre: seq<Token>, sep: bool, post: seq<Token>) {
    function Tokens(): seq<Token> { if sep then pre + [SEP] + post else pre }

    predicate Valid() {
      && Stars(pre) && Separated(pre)
      && Stars(post) && Separated(post)
      && (!sep ==> post == [])
    }

    predicate ComponentBefore() { sep && pre != [] && pre[|pre| - 1] == AnySequence }

    predicate EndsWithSeparator() { sep && post == [] }

    predicate Recursive() { AnyRecursive in pre || AnyRecursive in post }

    /** The last token the scan passed, when it is a lone star. */
    predicate EndsWithSequence() {
      if sep then post != [] && post[|post| - 1] == AnySequence
      else pre != [] && pre[|pre| - 1] == AnySequence
    }

    function Add(t: Token): Shape
      requires Star(t)
    {
      if sep then this.(post := post + [t]) else this.(pre := pre + [t])
    }

    /** The audit's verdict. */
    predicate Unrestricted(unix: bool) {
      Recursive() && !EndsWithSeparator() && (!sep || ComponentBefore() || (unix && AnyRecursive in post))
    }
  }

  lemma AllRecursive(ts: seq<Token>)
    requires Stars(ts) && Separated(ts) && ts != [] && ts[|ts| - 1] != AnySequence
    ensures forall k :: 0 <= k < |ts| ==> ts[k] == AnyRecursive
  {
    forall k | 0 <= k < |ts| ensures ts[k] == AnyRecursive {
      assert Star(ts[k]);
      if k + 1 < |ts| { assert Star(ts[k + 1]); }
    }
  }

  /** A positive verdict is sound. */
  lemma ShapeCovers(s: Shape, path: string, o: Options)
    requires s.Valid() && s.Unrestricted(o.unix) && Absolute(path, o)
    ensures Accepts(s.Tokens(), path, o)
  {
    if !s.sep {
      RecursiveCoversAll(s.pre, path, o);
    } else if s.ComponentBefore() {
      ComponentBeforeCovers(s.pre, s.post, path, o);
    } else {
      if s.pre != [] { AllRecursive(s.pre); }
      RootThenRecursiveCovers(s.pre, s.post, path, o);
    }
  }

  lemma {:induction false} StarsNeedNothing(ts: seq<Token>)
    requires Stars(ts)
    ensures Needs(ts, true) == 0 && Needs(ts, false) == 0
  {
    if ts != [] {
      assert Star(ts[0]);
      StarsNeedNothing(ts[1..]);
    }
  }

  lemma {:induction false} NeedsConcat(a: seq<Token>, b: seq<Token>, sep: bool)
    ensures Needs(a + b, sep) == Needs(a, sep) + Needs(b, sep)
  {
    if a == [] {
      assert a + b == b;
    } else {
      NeedsConcat(a[1..], b, sep);
      assert (a + b)[1..] == a[1..] + b;
    }
  }

  lemma ShapeNeeds(s: Shape, sep: bool)
    requires s.Valid()
    ensures Needs(s.Tokens(), sep) == if s.sep && sep then 1 else 0
  {
    StarsNeedNothing(s.pre);
    StarsNeedNothing(s.post);
    NeedsConcat(s.pre + [SEP], s.post, sep);
    NeedsConcat(s.pre, [SEP], sep);
    assert [SEP][1..] == [];
    assert Needs([SEP], sep) == if sep then 1 else 0;
  }

  /** How many separators the sample directories hold. */
  lemma SampleCounts()
    ensures Count("/", true) == 1 && Count("/", false) == 0
    ensures Count("a/b", true) == 1 && Count("/a/b", true) == 2
  {
    assert "/"[1..] == [];
    assert "a/b"[1..] == "/b" && "/b"[1..] == "b" && "b"[1..] == [];
    assert "/a/b"[1..] == "a/b";
  }

  /** A negative verdict on a star-and-separator pattern is complete: some absolute path is refused. */
  lemma ShapeRefuses(s: Shape, o: Options) returns (path: string)
    requires s.Valid() && !s.Unrestricted(o.unix)
    ensures path in SAMPLES && Absolute(path, o) && !Accepts(s.Tokens(), path, o)
  {
    assert SAMPLES[1] == "/a" && SAMPLES[2] == "/a/b" && SAMPLES[3] == "a/";
    var ts := s.Tokens();
    ShapeNeeds(s, true);
    SampleCounts();
    if s.EndsWithSeparator() {
      path := "/a";
      if Accepts(ts, path, o) { FinalSeparator(ts, path, o); }
    } else if !s.Recursive() {
      path := "/a/b";
      if Accepts(ts, path, o) { MatchSupplies(ts, path, o); }
    } else {
      if s.pre != [] { AllRecursive(s.pre); }
      if AnyRecursive in s.post {
        path := "a/";
        if Accepts(ts, path, o) { var k := SeparatorAtBoundary(s.pre, s.post, path, o); }
      } else {
        path := "/a/b";
        if Accepts(ts, path, o) {
          var k := SeparatorAtBoundary(s.pre, s.post, path, o);
          assert path[k + 1..] == "a/b";
          StarsNeedNothing(s.post);
          MatchSupplies(s.post, "a/b", o);
        }
      }
    }
  }

  /** Any other character in a valid pattern, or a second separator, keeps it from matching `/`. */
  lemma RootRefused(ts: seq<Token>, o: Options)
    requires Needs(ts, false) > 0 || Needs(ts, true) > 1
    ensures !Accepts(ts, "/", o) && Absolute("/", o)
  {
    SampleCounts();
    if Accepts(ts, "/", o) {
      MatchSupplies(ts, "/", o);
    }
  }

  /** The text up to `i` parses to `s`, and the parse goes on from `i`. */
  predicate Passed(p: string, i: nat, s: Shape)
    requires i <= |p|
  {
    && CompileFrom(p, i).Some?
    && Compile(p) == Some(s.Tokens() + CompileFrom(p, i).value)
    && (s.EndsWithSequence() ==> i > 0 && p[i - 1] == '*' && (i > 1 ==> p[i - 2] != '*') && (i < |p| ==> p[i] != '*'))
    && (!s.EndsWithSequence() ==> i == 0 || i == |p| || p[i - 1] == '/')
  }

  lemma Advance(p: string, i: nat, j: nat, s: Shape, t: Token, s': Shape)
    requires i <= |p| && j <= |p| && Passed(p, i, s)
    requires CompileFrom(p, i) == Prepend(t, CompileFrom(p, j))
    requires s'.Tokens() == s.Tokens() + [t]
    ensures CompileFrom(p, j).Some? && Compile(p) == Some(s'.Tokens() + CompileFrom(p, j).value)
  {
    hide CompileFrom;
    var rest := CompileFrom(p, j).value;
    assert s.Tokens() + ([t] + rest) == s'.Tokens() + rest;
  }

  /** The star token that starts at `i`, and where the parse goes on. */
  function StarToken(p: string, i: nat): (Token, nat)
    requires i < |p|
  {
    if i + 1 < |p| && p[i + 1] == '*' then
      (AnyRecursive, if i + 2 < |p| && p[i + 2] == '/' then i + 3 else i + 2)
    else
      (AnySequence, i + 1)
  }

  lemma AdvanceStar(p: string, i: nat, s: Shape)
    requires i < |p| && s.Valid() && Passed(p, i, s) && p[i] == '*'
    ensures var (t, j) := StarToken(p, i);
            Star(t) && j <= |p| && s.Add(t).Valid() && Passed(p, j, s.Add(t))
  {
    var (t, j) := StarToken(p, i);
    assert !s.EndsWithSequence();
    StarCompiles(p, i);
    hide CompileFrom;
    hide Compile;
    StarAdds(s, t);
    Advance(p, i, j, s, t, s.Add(t));
  }

  lemma StarCompiles(p: string, i: nat)
    requires i < |p| && p[i] == '*' && CompileFrom(p, i).Some?
    ensures var (t, j) := StarToken(p, i);
            && j <= |p| && CompileFrom(p, i) == Prepend(t, CompileFrom(p, j))
            && (t == AnyRecursive ==> j == |p| || p[j - 1] == '/')
  {
    assert [AnyRecursive] + [] == [AnyRecursive];
  }

  lemma StarAdds(s: Shape, t: Token)
    requires s.Valid() && Star(t) && !s.EndsWithSequence()
    ensures s.Add(t).Valid() && s.Add(t).Tokens() == s.Tokens() + [t]
    ensures s.Add(t).EndsWithSequence() <==> t == AnySequence
  {
    if s.sep { assert (s.pre + [SEP] + s.post) + [t] == s.pre + [SEP] + (s.post + [t]); }
  }

  lemma AdvanceSeparator(p: string, i: nat, s: Shape)
    requires i < |p| && s.Valid() && Passed(p, i, s) && p[i] == '/' && !s.sep
    ensures s.(sep := true).Valid() && Passed(p, i + 1, s.(sep := true))
    ensures s.(sep := true).ComponentBefore() <==> i >= 1 && p[i - 1] == '*' && !(i >= 2 && p[i - 2] == '*')
  {
    Advance(p, i, i + 1, s, SEP, s.(sep := true));
  }

  lemma AtStart(p: string)
    requires Compile(p).Some?
    ensures var s := Shape([], false, []);
            && s.Valid() && Passed(p, 0, s)
            && !s.Recursive() && !s.ComponentBefore() && !s.EndsWithSeparator()
  {
    assert Shape([], false, []).Tokens() + Compile(p).value == Compile(p).value;
  }

  /** What the scan's flags see of the star at `i`. */
  lemma StarSeen(p: string, i: nat, s: Shape)
    requires i < |p| && s.Valid() && Star(StarToken(p, i).0)
    ensures var (t, j) := StarToken(p, i);
            if i + 1 < |p| && p[i + 1] == '*' then t == AnyRecursive
              && j == (if i + 2 < |p| && p[i + 2] == '/' then i + 3 else i + 2)
            else t == AnySequence && j == i + 1
    ensures var t := StarToken(p, i).0;
            var s' := s.Add(t);
            && s'.sep == s.sep && s'.ComponentBefore() == s.ComponentBefore() && !s'.EndsWithSeparator()
            && (s'.Recursive() <==> s.Recursive() || t == AnyRecursive)
            && (AnyRecursive in s'.post <==> AnyRecursive in s.post || (s.sep && t == AnyRecursive))
  {}

  lemma SeparatorSeen(s: Shape)
    requires s.Valid() && !s.sep
    ensures var s' := s.(sep := true); s'.EndsWithSeparator() && (s'.Recursive() <==> s.Recursive()) && s'.post == []
    ensures s.post == []
  {}

  lemma Verdict(s: Shape, unix: bool)
    requires s.Valid()
    ensures s.Unrestricted(unix) <==>
              s.Recursive() && !s.EndsWithSeparator()
                && (!s.sep || s.ComponentBefore() || (unix && AnyRecursive in s.post))
  {}

  lemma RefusedAt(p: string, i: nat, s: Shape, o: Options)
    requires i < |p| && s.Valid() && Passed(p, i, s)
    requires p[i] != '*' && (p[i] == '/' ==> s.sep)
    ensures !CoversSamples(p, o) && !Universal(p, o)
  {
    var rest := CompileFrom(p, i).value;
    ShapeNeeds(s, true);
    ShapeNeeds(s, false);
    NeedsConcat(s.Tokens(), rest, true);
    NeedsConcat(s.Tokens(), rest, false);
    assert rest != [] && !Star(rest[0]) && (rest[0] == SEP ==> p[i] == '/');
    RootRefused(s.Tokens() + rest, o);
    assert p != "*";
    assert SAMPLES[0] == "/";
    RefusesSample(p, "/", o);
  }

  lemma InvalidNotUniversal(p: string, o: Options)
    requires p != "*" && Compile(p).None?
    ensures !CoversSamples(p, o) && !Universal(p, o)
  {
    assert SAMPLES[0] == "/";
    RefusesSample(p, "/", o);
  }

  lemma VerdictAtEnd(p: string, s: Shape, o: Options)
    requires p != "*" && s.Valid() && Passed(p, |p|, s)
    ensures s.Unrestricted(o.unix) <==> Universal(p, o)
    ensures Universal(p, o) <==> CoversSamples(p, o)
  {
    assert s.Tokens() + [] == s.Tokens();
    if s.Unrestricted(o.unix) {
      forall path | Absolute(path, o) ensures GlobAccepts(p, path, o) { ShapeCovers(s, path, o); }
    } else {
      var path := ShapeRefuses(s, o);
      RefusesSample(p, path, o);
    }
  }

  lemma {:induction false} VerdictFrom(p: string, i: nat, s: Shape, o: Options)
    requires p != "*" && i <= |p| && s.Valid() && Passed(p, i, s)
    ensures Universal(p, o) <==> CoversSamples(p, o)
    decreases |p| - i
  {
    if i == |p| {
      VerdictAtEnd(p, s, o);
    } else if p[i] == '*' {
      AdvanceStar(p, i, s);
      VerdictFrom(p, StarToken(p, i).1, s.Add(StarToken(p, i).0), o);
    } else if p[i] == '/' && !s.sep {
      AdvanceSeparator(p, i, s);
      VerdictFrom(p, i + 1, s.(sep := true), o);
    } else {
      RefusedAt(p, i, s, o);
    }
  }

  /** A pattern that matches the sample directories matches every absolute path. */
  lemma SamplesDecide(p: string, o: Options)
    ensures Universal(p, o) <==> CoversSamples(p, o)
  {
    if p != "*" {
      if Compile(p).None? {
        InvalidNotUniversal(p, o);
      } else {
        assert Shape([], false, []).Tokens() + Compile(p).value == Compile(p).value;
        VerdictFrom(p, 0, Shape([], false, []), o);
      }
    }
  }

  lemma StarIsUniversal(o: Options)
    ensures Universal("*", o) && CoversSamples("*", o)
  {}

  /** `glob_has_unrestricted_path_scope`: the structural scan answers exactly whether the
      pattern matches every absolute path, and four sample directories would settle the same. */
  method HasUnrestrictedPathScope(pattern: string, o: Options) returns (r: bool)
    ensures r <==> Universal(pattern, o)
    ensures r <==> CoversSamples(pattern, o)
  {
    hide *;
    if pattern == "*" {
      StarIsUniversal(o);
      return true;
    }
    if Compile(pattern).None? {
      InvalidNotUniversal(pattern, o);
      return false;
    }
    var index := 0;
    var hasRecursive := false;
    var recursiveAfterSeparator := false;
    var componentBeforeSeparator := false;
    var literalSeparators := 0;
    var endsWithSeparator := false;
    ghost var s := Shape([], false, []);
    AtStart(pattern);
    while index < |pattern|
      invariant 0 <= index <= |pattern|
      invariant s.Valid() && Passed(pattern, index, s)
      invariant literalSeparators == if s.sep then 1 else 0
      invariant hasRecursive == s.Recursive()
      invariant recursiveAfterSeparator == (AnyRecursive in s.post)
      invariant componentBeforeSeparator == s.ComponentBefore()
      invariant endsWithSeparator == s.EndsWithSeparator()
    {
      if pattern[index] == '*' {
        AdvanceStar(pattern, index, s);
        StarSeen(pattern, index, s);
        s := s.Add(StarToken(pattern, index).0);
        index := index + 1;
        if index < |pattern| && pattern[index] == '*' {
          hasRecursive := true;
          recursiveAfterSeparator := recursiveAfterSeparator || literalSeparators == 1;
          index := index + 1;
          if index < |pattern| && pattern[index] == '/' {
            index := index + 1;
          }
        }
        endsWithSeparator := false;
      } else if pattern[index] == '/' {
        literalSeparators := literalSeparators + 1;
        if literalSeparators > 1 {
          RefusedAt(pattern, index, s, o);
          return false;
        }
        AdvanceSeparator(pattern, index, s);
        SeparatorSeen(s);
        s := s.(sep := true);
        componentBeforeSeparator := index >= 1 && pattern[index - 1] == '*'
          && !(index >= 2 && pattern[index - 2] == '*');
        index := index + 1;
        endsWithSeparator := true;
      } else {
        RefusedAt(pattern, index, s, o);
        return false;
      }
    }
    VerdictAtEnd(pattern, s, o);
    Verdict(s, o.unix);
    return hasRecursive && !endsWithSeparator
      && (literalSeparators == 0 || componentBeforeSeparator || (o.unix && recursiveAfterSeparator));
  }
}

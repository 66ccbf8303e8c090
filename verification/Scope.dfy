/** Directory scopes of allowlist entries (src/allowlist.rs): which working directories a
    `paths` list contains, and the audit for lists that restrict nothing. */
module Scope {
  import opened Wrappers
  import opened Glob

  /** How scopes are read: the glob options, and for a pattern its spelling with the literal
      prefix resolved, where that differs. */
  datatype Reader = Reader(options: Options, prefix: string -> Option<string>)

  type Paths = Option<seq<string>>

  // --------------------------------------------------------- normalisation

  function ToSlashes(s: string): (r: string)
    ensures |r| == |s|
    ensures forall k :: 0 <= k < |s| ==> r[k] == if s[k] == '\\' then '/' else s[k]
  {
    if s == [] then [] else [if s[0] == '\\' then '/' else s[0]] + ToSlashes(s[1..])
  }

  /** `normalize_scope_text`. */
  function Normalize(text: string): string {
    var t := ToSlashes(text);
    if "//?/UNC/" <= t then "//" + t[8..]
    else if "//?/" <= t then t[4..]
    else t
  }

  lemma NormalizeKeeps(s: string)
    requires '\\' !in s && '?' !in s
    ensures Normalize(s) == s
  {
    assert ToSlashes(s) == s;
    assert "//?/"[2] == '?' && "//?/UNC/"[2] == '?';
  }

  /** `path_matches_glob`. */
  predicate PathMatchesGlob(pattern: string, path: string, o: Options) {
    GlobAccepts(Normalize(pattern), Normalize(path), o)
  }

  // ---------------------------------------------------------------- scopes

  /** `entry_is_path_scoped`. */
  predicate IsScoped(paths: Paths) {
    paths.Some? && paths.value != [] && "*" !in paths.value
  }

  predicate PatternContains(pattern: string, cwd: string, r: Reader) {
    || PathMatchesGlob(pattern, cwd, r.options)
    || (r.prefix(pattern).Some? && PathMatchesGlob(r.prefix(pattern).value, cwd, r.options))
  }

  /** `entry_scope_contains`. */
  predicate Contains(paths: Paths, cwd: string, r: Reader) {
    !IsScoped(paths) || exists k :: 0 <= k < |paths.value| && PatternContains(paths.value[k], cwd, r)
  }

  ghost predicate PatternUnrestricted(pattern: string, r: Reader) {
    || Universal(Normalize(pattern), r.options)
    || (r.prefix(pattern).Some? && Universal(r.prefix(pattern).value, r.options))
  }

  ghost predicate Unrestricted(paths: Paths, r: Reader) {
    !IsScoped(paths) || exists k :: 0 <= k < |paths.value| && PatternUnrestricted(paths.value[k], r)
  }

  /** `entry_has_unrestricted_path_scope`. */
  method EntryHasUnrestrictedPathScope(paths: Paths, r: Reader) returns (unrestricted: bool)
    ensures unrestricted <==> Unrestricted(paths, r)
  {
    if !IsScoped(paths) {
      return true;
    }
    hide Universal;
    var i := 0;
    while i < |paths.value|
      invariant 0 <= i <= |paths.value|
      invariant forall k :: 0 <= k < i ==> !PatternUnrestricted(paths.value[k], r)
    {
      var pattern := paths.value[i];
      var universal := HasUnrestrictedPathScope(Normalize(pattern), r.options);
      if !universal && r.prefix(pattern).Some? {
        universal := HasUnrestrictedPathScope(r.prefix(pattern).value, r.options);
      }
      if universal {
        assert PatternUnrestricted(paths.value[i], r);
        return true;
      }
      i := i + 1;
    }
    return false;
  }

  // ------------------------------------------------------- what it promises

  /** A parse without one-character tokens comes from stars and separators alone. */
  lemma {:induction false} OnlyStars(p: string, i: nat, k: nat)
    requires i <= k < |p| && CompileFrom(p, i).Some? && Needs(CompileFrom(p, i).value, false) == 0
    ensures p[k] == '*' || p[k] == '/'
    decreases |p| - i
  {
    var ts := CompileFrom(p, i).value;
    if p[i] == '*' {
      var (t, j) := StarToken(p, i);
      if k >= j {
        assert ts == [t] + CompileFrom(p, j).value;
        assert ts[1..] == CompileFrom(p, j).value;
        OnlyStars(p, j, k);
      }
    } else {
      assert ts[0] == SEP;
      if k > i {
        assert ts[1..] == CompileFrom(p, i + 1).value;
        OnlyStars(p, i + 1, k);
      }
    }
  }

  /** A universal pattern is the same text before and after normalisation. */
  lemma UniversalIsNormal(p: string, o: Options)
    requires Universal(p, o)
    ensures Normalize(p) == p
  {
    assert Absolute("/", o) && GlobAccepts(p, "/", o);
    if p != "*" {
      var ts := Compile(p).value;
      if Needs(ts, false) > 0 { RootRefused(ts, o); }
      forall k | 0 <= k < |p| ensures p[k] == '*' || p[k] == '/' { OnlyStars(p, 0, k); }
    }
    NormalizeKeeps(p);
  }

  /** The audit is sound: a scope it calls unrestricted contains every absolute directory. */
  lemma UnrestrictedContainsAll(paths: Paths, r: Reader, cwd: string)
    requires Unrestricted(paths, r) && Absolute(Normalize(cwd), r.options)
    ensures Contains(paths, cwd, r)
  {
    if IsScoped(paths) {
      var k :| 0 <= k < |paths.value| && PatternUnrestricted(paths.value[k], r);
      var pattern := paths.value[k];
      if !Universal(Normalize(pattern), r.options) {
        UniversalIsNormal(r.prefix(pattern).value, r.options);
      }
      assert PatternContains(pattern, cwd, r);
    }
  }

  ghost predicate ContainsAll(paths: Paths, r: Reader) {
    forall cwd :: Absolute(Normalize(cwd), r.options) ==> Contains(paths, cwd, r)
  }

  /** For a scope of one pattern with nothing to resolve the audit misses nothing: it answers
      exactly whether the pattern contains every absolute directory. */
  lemma OnePatternDecided(pattern: string, r: Reader)
    requires r.prefix(pattern).None?
    ensures ContainsAll(Some([pattern]), r) <==> Unrestricted(Some([pattern]), r)
  {
    var paths := Some([pattern]);
    if Unrestricted(paths, r) {
      forall cwd | Absolute(Normalize(cwd), r.options) ensures Contains(paths, cwd, r) {
        UnrestrictedContainsAll(paths, r, cwd);
      }
    }
    if ContainsAll(paths, r) && IsScoped(paths) {
      hide Universal;
      forall k | 0 <= k < |SAMPLES| && Absolute(SAMPLES[k], r.options)
        ensures GlobAccepts(Normalize(pattern), SAMPLES[k], r.options)
      {
        NormalizeKeeps(SAMPLES[k]);
        assert Contains(paths, SAMPLES[k], r);
        assert PatternContains(pattern, SAMPLES[k], r);
      }
      SamplesDecide(Normalize(pattern), r.options);
      assert PatternUnrestricted(paths.value[0], r);
    }
  }

  /** The patterns of the union below, parsed. */
  lemma UnionTokens()
    ensures Compile("/*") == Some([SEP, AnySequence])
    ensures Compile("/*/**") == Some([SEP, AnySequence, SEP, AnyRecursive])
  {
    var p, q := "/*", "/*/**";
    assert [AnySequence] + [] == [AnySequence] && [SEP] + [AnySequence] == [SEP, AnySequence];
    assert [SEP] + [AnyRecursive] == [SEP, AnyRecursive];
    assert [AnySequence] + [SEP, AnyRecursive] == [AnySequence, SEP, AnyRecursive];
    assert [SEP] + [AnySequence, SEP, AnyRecursive] == [SEP, AnySequence, SEP, AnyRecursive];
    assert CompileFrom(p, 2) == Some([]) && CompileFrom(p, 1) == Some([AnySequence]);
    assert CompileFrom(q, 3) == Some([AnyRecursive]) && CompileFrom(q, 2) == Some([SEP, AnyRecursive]);
    assert CompileFrom(q, 1) == Some([AnySequence, SEP, AnyRecursive]);
  }

  lemma UnionAccepts(path: string, o: Options)
    requires Rooted(path)
    ensures GlobAccepts("/*", path, o) || GlobAccepts("/*/**", path, o)
  {
    UnionTokens();
    var one, two := [SEP, AnySequence], [SEP, AnySequence, SEP, AnyRecursive];
    var rest := path[1..];
    if '/' in rest {
      var i := FirstSlash(rest);
      assert rest[i..][1..] == rest[i + 1..];
      RecursiveCoversAll([AnyRecursive], rest[i + 1..], o);
      assert two[1..][1..] == [SEP, AnyRecursive] && [SEP, AnyRecursive][1..] == [AnyRecursive];
      assert Accepts([SEP, AnyRecursive], rest[i..], o);
      SequenceCovers(two[1..], rest[..i], rest[i..], o);
      assert rest[..i] + rest[i..] == rest;
      assert Accepts(two, path, o);
    } else {
      assert one[1..] == [AnySequence] && [AnySequence][1..] == [];
      SequenceCovers([AnySequence], rest, [], o);
      assert rest + [] == rest;
      assert Accepts(one, path, o);
    }
  }

  lemma UnionMembersRestrict(o: Options)
    requires o.unix
    ensures !Universal("/*", o) && !Universal("/*/**", o)
  {
    UnionTokens();
    SampleCounts();
    assert Absolute("/a/b", o) && Absolute("/", o);
    if Accepts(Compile("/*").value, "/a/b", o) { MatchSupplies(Compile("/*").value, "/a/b", o); }
    RootRefused(Compile("/*/**").value, o);
    assert !GlobAccepts("/*", "/a/b", o) && !GlobAccepts("/*/**", "/", o);
  }

  /** For more than one pattern the audit is sound only: these two contain every directory
      between them, and neither is universal. */
  lemma UnionIsMissed(r: Reader)
    requires r.options.unix && r.prefix("/*").None? && r.prefix("/*/**").None?
    ensures ContainsAll(Some(["/*", "/*/**"]), r) && !Unrestricted(Some(["/*", "/*/**"]), r)
  {
    var paths := Some(["/*", "/*/**"]);
    NormalizeKeeps("/*");
    NormalizeKeeps("/*/**");
    UnionMembersRestrict(r.options);
    forall cwd | Absolute(Normalize(cwd), r.options) ensures Contains(paths, cwd, r) {
      UnionAccepts(Normalize(cwd), r.options);
      assert PatternContains(paths.value[0], cwd, r) || PatternContains(paths.value[1], cwd, r);
    }
  }
}

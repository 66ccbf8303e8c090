/** When an allowlist entry counts, apart from how that is tested: how long it lasts, for which session,
    under which conditions and in which directories. */
module Validity {
  import opened Glob
  import opened GlobMeaning
  import opened Lookup
  import opened Scope
  import ShellWords
  import opened Wrappers

  // ----------------------------------------------------------------- expiry

  /** What a timestamp says in full, or else by its day. */
  predicate Stands(t: string, w: Lookup.World, at: int) {
    w.instants(t) == Some(at) || (w.instants(t).None? && w.days(t) == Some(at))
  }

  /** `end` is the last instant at which the entry counts, by its timestamp or by its duration. */
  ghost predicate EndsAt(e: Entry, w: Lookup.World, end: int) {
    if e.expiresAt.Some? then
      || w.instants(e.expiresAt.value) == Some(end)
      || (w.instants(e.expiresAt.value).None? && w.days(e.expiresAt.value) == Some(end - 86_399_000_000_000))
    else
      && e.ttl.Some? && e.addedAt.Some? && end <= w.latest
      && exists start, duration ::
           Stands(e.addedAt.value, w, start) && w.durations(e.ttl.value) == Some(duration) && end == start + duration
  }

  /** An entry lasts if it names no limit, or up to an end that can be made out from what it says. */
  ghost predicate Lasts(e: Entry, w: Lookup.World) {
    (e.expiresAt.None? && e.ttl.None?) || exists end :: EndsAt(e, w, end) && w.now <= end
  }

  lemma ExpiryIsExact(e: Entry, w: Lookup.World)
    ensures !IsExpired(e, w) <==> Lasts(e, w)
  {
    if e.expiresAt.Some? {
      var t := e.expiresAt.value;
      if w.instants(t).Some? {
        assert EndsAt(e, w, w.instants(t).value);
      } else if w.days(t).Some? {
        assert EndsAt(e, w, w.days(t).value + 86_399_000_000_000);
      }
    } else if e.ttl.Some? && e.addedAt.Some? {
      var start, duration := ParseTimestamp(e.addedAt.value, w), w.durations(e.ttl.value);
      if start.Some? && duration.Some? && start.value + duration.value <= w.latest {
        assert Stands(e.addedAt.value, w, start.value);
        assert EndsAt(e, w, start.value + duration.value);
      }
    }
  }

  /** What has expired stays so: as the clock goes on, validity is only lost. */
  lemma ExpiredForGood(e: Entry, w: Lookup.World, later: int, cwd: Option<string>, session: Option<string>)
    requires w.now <= later
    ensures IsValid(e, w.(now := later), cwd, session) ==> IsValid(e, w, cwd, session)
  {
    hide Scope.Contains;
  }

  // ---------------------------------------------------------------- session

  predicate IsSpace(c: char) { c in ShellWords.WHITE_SPACE }

  predicate IsBlank(s: string) {
    forall k :: 0 <= k < |s| ==> IsSpace(s[k])
  }

  /** `core` is what `s` comes to without the white space around it. */
  predicate Framed(s: string, core: string) {
    && (core != [] ==> !IsSpace(core[0]) && !IsSpace(core[|core| - 1]))
    && exists i, j :: 0 <= i <= j <= |s| && s[i..j] == core && IsBlank(s[..i]) && IsBlank(s[j..])
  }

  lemma BlankConcat(a: string, b: string)
    ensures IsBlank(a + b) <==> IsBlank(a) && IsBlank(b)
  {
    hide IsSpace;
    forall k | 0 <= k < |b| ensures b[k] == (a + b)[|a| + k] {}
    forall k | 0 <= k < |a| ensures a[k] == (a + b)[k] {}
  }

  lemma TrimStartStep(s: string)
    ensures TrimStart(s) == if s != [] && IsSpace(s[0]) then TrimStart(s[1..]) else s
  {
    if s != [] { ShellWords.WhitespaceExact(s[0]); }
  }

  lemma TrimEndStep(s: string)
    ensures TrimEnd(s) == if s != [] && IsSpace(s[|s| - 1]) then TrimEnd(s[..|s| - 1]) else s
  {
    if s != [] { ShellWords.WhitespaceExact(s[|s| - 1]); }
  }

  lemma Single(c: char)
    ensures IsBlank([c]) <==> IsSpace(c)
  {
    hide IsSpace;
    assert [c][0] == c;
  }

  /** `s` is white space, `core` and white space; `core` stays. */
  lemma {:induction false} StartIsLeft(blank: string, core: string)
    requires IsBlank(blank) && (core != [] ==> !IsSpace(core[0]))
    ensures TrimStart(blank + core) == core
  {
    hide TrimStart;
    hide IsSpace;
    TrimStartStep(blank + core);
    if blank == [] {
      assert blank + core == core;
    } else {
      assert (blank + core)[0] == blank[0] && (blank + core)[1..] == blank[1..] + core;
      StartIsLeft(blank[1..], core);
    }
  }

  lemma {:induction false} EndIsLeft(core: string, blank: string)
    requires IsBlank(blank) && (core != [] ==> !IsSpace(core[|core| - 1]))
    ensures TrimEnd(core + blank) == core
  {
    hide TrimEnd;
    hide IsSpace;
    TrimEndStep(core + blank);
    if blank == [] {
      assert core + blank == core;
    } else {
      var n := |blank| - 1;
      assert (core + blank)[|core| + n] == blank[n] && (core + blank)[..|core| + n] == core + blank[..n];
      EndIsLeft(core, blank[..n]);
    }
  }

  lemma {:induction false} Ink(s: string) returns (blank: string, ink: string)
    ensures s == blank + ink && IsBlank(blank) && (ink != [] ==> !IsSpace(ink[0]))
  {
    hide IsSpace;
    blank, ink := [], s;
    if s != [] && IsSpace(s[0]) {
      var rest;
      rest, ink := Ink(s[1..]);
      Single(s[0]);
      BlankConcat([s[0]], rest);
      hide IsBlank;
      blank := [s[0]] + rest;
    }
  }

  lemma {:induction false} LastInk(s: string) returns (ink: string, blank: string)
    ensures s == ink + blank && IsBlank(blank) && (ink != [] ==> !IsSpace(ink[|ink| - 1]))
  {
    hide IsSpace;
    ink, blank := s, [];
    if s != [] && IsSpace(s[|s| - 1]) {
      var rest;
      ink, rest := LastInk(s[..|s| - 1]);
      Single(s[|s| - 1]);
      BlankConcat(rest, [s[|s| - 1]]);
      hide IsBlank;
      blank := rest + [s[|s| - 1]];
    }
  }

  /** A text in three parts, of which the middle one is framed. */
  lemma PartsAreFramed(a: string, core: string, b: string)
    requires IsBlank(a) && IsBlank(b) && (core != [] ==> !IsSpace(core[0]) && !IsSpace(core[|core| - 1]))
    ensures Framed(a + core + b, core)
  {
    hide IsBlank;
    hide IsSpace;
    var s, i, j := a + core + b, |a|, |a| + |core|;
    assert s[..i] == a && s[i..j] == core && s[j..] == b;
  }

  lemma TrimIsFramed(s: string)
    ensures Framed(s, Trim(s))
  {
    hide *;
    var a, ink := Ink(s);
    var core, b := LastInk(ink);
    CoreStarts(core, b, ink);
    StartIsLeft(a, ink);
    EndIsLeft(core, b);
    TrimIs(s);
    PartsAreFramed(a, core, b);
    assert a + core + b == s;
  }

  lemma CoreStarts(core: string, b: string, ink: string)
    requires ink == core + b && (ink != [] ==> !IsSpace(ink[0]))
    ensures core != [] ==> !IsSpace(core[0])
  {
    hide IsSpace;
    if core != [] { assert ink[0] == core[0]; }
  }

  lemma TrimIs(s: string)
    ensures Trim(s) == TrimEnd(TrimStart(s))
  {}

  lemma NothingIsBlank()
    ensures IsBlank([])
  {}

  lemma CutTwice(s: string, i: nat, j: nat)
    requires i <= j <= |s|
    ensures s == s[..i] + (s[i..j] + s[j..])
  {}

  lemma FramedParts(s: string, core: string) returns (a: string, b: string)
    requires Framed(s, core)
    ensures s == a + (core + b) && IsBlank(a) && IsBlank(b)
    ensures core != [] ==> !IsSpace(core[0]) && !IsSpace(core[|core| - 1])
  {
    hide IsBlank;
    hide IsSpace;
    var i, j :| 0 <= i <= j <= |s| && s[i..j] == core && IsBlank(s[..i]) && IsBlank(s[j..]);
    CutTwice(s, i, j);
    a, b := s[..i], s[j..];
  }

  lemma FramedIsTrim(s: string, core: string)
    requires Framed(s, core)
    ensures Trim(s) == core
  {
    hide *;
    var a, b := FramedParts(s, core);
    TrimIs(s);
    if core == [] {
      BlankConcat(a, b);
      assert a + (core + b) == (a + b) + [];
      StartIsLeft(a + b, []);
      NothingIsBlank();
      EndIsLeft([], []);
      assert [] + [] == core;
    } else {
      assert (core + b)[0] == core[0];
      StartIsLeft(a, core + b);
      EndIsLeft(core, b);
    }
  }

  /** An entry for one session: its identifier and the current one are the same, apart from white space,
      and more than white space. */
  ghost predicate ForSession(e: Entry, session: Option<string>) {
    e.session == Some(true) ==>
      && e.sessionId.Some? && session.Some?
      && exists core :: core != [] && Framed(e.sessionId.value, core) && Framed(session.value, core)
  }

  lemma SessionIsExact(e: Entry, session: Option<string>)
    ensures SessionScopeMatches(e, session) <==> ForSession(e, session)
  {
    hide Framed;
    hide Trim;
    if e.sessionId.Some? && session.Some? {
      var a, b := e.sessionId.value, session.value;
      TrimIsFramed(a);
      TrimIsFramed(b);
      forall core | Framed(a, core) && Framed(b, core) ensures Trim(a) == core && Trim(b) == core {
        FramedIsTrim(a, core);
        FramedIsTrim(b, core);
      }
    }
  }

  // -------------------------------------------------------------- directory

  predicate WithSlashes(s: string, u: string) {
    |u| == |s| && forall k :: 0 <= k < |s| ==> u[k] == if s[k] == '\\' then '/' else s[k]
  }

  /** `t` is `u` without the prefix of a verbatim path; a verbatim share keeps its two slashes. */
  ghost predicate Stripped(u: string, t: string) {
    || (exists share :: u == "//?/UNC/" + share && t == "//" + share)
    || (!("//?/UNC/" <= u) && u == "//?/" + t)
    || (!("//?/" <= u) && t == u)
  }

  ghost predicate NormalForm(s: string, t: string) {
    exists u :: WithSlashes(s, u) && Stripped(u, t)
  }

  lemma NormalIsExact(s: string, t: string)
    ensures Normalize(s) == t <==> NormalForm(s, t)
  {
    var u := ToSlashes(s);
    forall v | WithSlashes(s, v) ensures v == u {}
    StrippedIs(u, t);
    hide Stripped;
  }

  lemma StrippedIs(u: string, t: string)
    ensures Stripped(u, t) <==>
              t == if "//?/UNC/" <= u then "//" + u[8..] else if "//?/" <= u then u[4..] else u
  {
    assert "//?/" <= "//?/UNC/" && |"//?/UNC/"| == 8 && |"//?/"| == 4;
    if "//?/UNC/" <= u {
      assert u == "//?/UNC/" + u[8..];
      forall share | u == "//?/UNC/" + share ensures share == u[8..] {}
    } else if "//?/" <= u {
      assert u == "//?/" + u[4..];
      assert ("//?/" + t)[4..] == t;
    }
  }

  /** The directory is one that the pattern fits, or its other spelling. */
  ghost predicate Allows(pattern: string, cwd: string, r: Reader) {
    exists spelling, p, d ::
      && (spelling == pattern || r.prefix(pattern) == Some(spelling)) && NormalForm(spelling, p) && NormalForm(cwd, d)
      && Describes(p, d, r.options)
  }

  predicate Everywhere(paths: Paths) {
    paths.None? || paths.value == [] || "*" in paths.value
  }

  ghost predicate InScope(paths: Paths, cwd: string, r: Reader) {
    Everywhere(paths) || exists p :: p in paths.value && Allows(p, cwd, r)
  }

  lemma AllowsIsExact(pattern: string, cwd: string, r: Reader)
    ensures PatternContains(pattern, cwd, r) <==> Allows(pattern, cwd, r)
  {
    hide NormalForm;
    hide GlobAccepts;
    hide Normalize;
    forall s, t ensures Normalize(s) == t <==> NormalForm(s, t) { NormalIsExact(s, t); }
    hide Describes;
    forall s ensures PathMatchesGlob(s, cwd, r.options) <==> Describes(Normalize(s), Normalize(cwd), r.options) {
      PatternMeans(Normalize(s), Normalize(cwd), r.options);
    }
    assert NormalForm(cwd, Normalize(cwd)) && NormalForm(pattern, Normalize(pattern));
    if r.prefix(pattern).Some? {
      assert NormalForm(r.prefix(pattern).value, Normalize(r.prefix(pattern).value));
    }
  }

  lemma ScopeIsExact(paths: Paths, cwd: string, r: Reader)
    ensures Scope.Contains(paths, cwd, r) <==> InScope(paths, cwd, r)
    ensures IsScoped(paths) <==> !Everywhere(paths)
  {
    hide PatternContains;
    hide Allows;
    if paths.Some? {
      forall p ensures PatternContains(p, cwd, r) <==> Allows(p, cwd, r) { AllowsIsExact(p, cwd, r); }
    }
  }

  /** The audit calls a scope unrestricted if and only if it is everywhere, or one of its patterns, in normal
      form or as resolved, fits every absolute path. */
  lemma AuditIsExact(paths: Paths, r: Reader)
    ensures Unrestricted(paths, r) <==>
              Everywhere(paths) || exists p, spelling ::
                && p in paths.value && (NormalForm(p, spelling) || r.prefix(p) == Some(spelling))
                && forall d :: Absolute(d, r.options) ==> Describes(spelling, d, r.options)
  {
    ScopeIsExact(paths, "", r);
    hide Scope.Contains;
    hide IsScoped;
    hide Normalize;
    hide NormalForm;
    hide Describes;
    hide Absolute;
    hide Universal;
    hide InScope;
    if !Everywhere(paths) {
      forall s ensures Universal(s, r.options) <==> forall d :: Absolute(d, r.options) ==> Describes(s, d, r.options) {
        UniversalMeans(s, r.options);
      }
      forall p ensures NormalForm(p, Normalize(p)) && forall s :: NormalForm(p, s) ==> s == Normalize(p) {
        NormalOnly(p);
      }
      forall k | 0 <= k < |paths.value| ensures paths.value[k] in paths.value {}
    }
  }

  lemma NormalOnly(p: string)
    ensures NormalForm(p, Normalize(p)) && forall s :: NormalForm(p, s) ==> s == Normalize(p)
  {
    hide NormalForm;
    hide Normalize;
    forall s ensures Normalize(p) == s <==> NormalForm(p, s) { NormalIsExact(p, s); }
  }

  lemma UniversalMeans(s: string, o: Options)
    ensures Universal(s, o) <==> forall d :: Absolute(d, o) ==> Describes(s, d, o)
  {
    hide GlobAccepts;
    hide Absolute;
    hide Describes;
    forall d ensures GlobAccepts(s, d, o) <==> Describes(s, d, o) { PatternMeans(s, d, o); }
  }

  /** An entry is valid if and only if it lasts, is for this session, finds its conditions among the
      environment's variables, is acknowledged if it is a pattern, and its scope takes the directory;
      an unknown directory is taken only by an entry for everywhere. */
  lemma ValidityIsExact(e: Entry, w: Lookup.World, cwd: Option<string>, session: Option<string>)
    ensures IsValid(e, w, cwd, session) <==>
              && Lasts(e, w) && ForSession(e, session) && e.conditions.Items <= w.environment.Items
              && (e.selector.RegexPattern? ==> e.riskAcknowledged)
              && if cwd.None? then Everywhere(e.paths) else InScope(e.paths, cwd.value, w.reader)
  {
    ExpiryIsExact(e, w);
    SessionIsExact(e, session);
    ConditionsAreExact(e, w);
    ScopeIsExact(e.paths, if cwd.Some? then cwd.value else "", w.reader);
    hide IsExpired;
    hide Lasts;
    hide SessionScopeMatches;
    hide ForSession;
    hide ConditionsMet;
    hide Scope.Contains;
    hide InScope;
    hide IsScoped;
    hide Everywhere;
  }

  lemma ConditionsAreExact(e: Entry, w: Lookup.World)
    ensures ConditionsMet(e, w) <==> e.conditions.Items <= w.environment.Items
  {
    if e.conditions.Items <= w.environment.Items {
      forall key | key in e.conditions ensures key in w.environment && w.environment[key] == e.conditions[key] {
        assert (key, e.conditions[key]) in e.conditions.Items;
      }
    }
  }

  // ---------------------------------------------------------------- question

  /** `prefix` and then nothing, or white space and what neither chains nor redirects. */
  ghost predicate StartsPlainly(command: string, prefix: string) {
    exists tail ::
      && command == prefix + tail && (tail != [] ==> tail[0] in {' ', '\t', '\n', '\U{000C}', '\r'})
      && forall i :: 0 <= i < |tail| ==>
           tail[i] !in {'\0', '\n', '\r', ';', '&', '|', '`', '<', '>'} && !("$(" <= tail[i..])
  }

  /** The questions that an entry of each kind answers. */
  ghost predicate Speaks(tier: Tier, s: Selector, want: Want, w: Lookup.World) {
    match s
    case Rule(pack, name) =>
      || (exists n :: want == Finding(pack, n) && name in {n, "*"})
      || (exists legacy :: want == Ancestor(pack, legacy) && name in legacy && tier in {Project, User, System})
      || want == Exactly(pack, name)
    case ExactCommand(command) => want == Command(command)
    case CommandPrefix(prefix) => exists command :: want == PrefixOf(command) && StartsPlainly(command, prefix)
    case RegexPattern(regex) => exists command :: want == PatternFor(command) && w.regexMatches(regex, command)
  }

  lemma RulesSpeak(h: Hit, want: Want, w: Lookup.World)
    requires h.entry.selector.Rule?
    ensures Answers(h, want, w) <==> Speaks(h.tier, h.entry.selector, want, w)
  {
    var s := h.entry.selector;
    match want
    case Finding(pack, name) =>
      assert want == Finding(pack, name);
    case Ancestor(pack, legacy) =>
      assert want == Ancestor(pack, legacy);
    case Exactly(_, _) =>
    case Command(_) =>
    case PrefixOf(_) =>
    case PatternFor(_) =>
  }

  lemma PrefixesSpeak(h: Hit, want: Want, w: Lookup.World)
    requires h.entry.selector.CommandPrefix?
    ensures Answers(h, want, w) <==> Speaks(h.tier, h.entry.selector, want, w)
  {
    if want.PrefixOf? { ShellWords.GuardIsExact(want.command, h.entry.selector.prefix); }
    hide ShellWords.PrefixSafelyMatches;
  }

  lemma OthersSpeak(h: Hit, want: Want, w: Lookup.World)
    requires h.entry.selector.ExactCommand? || h.entry.selector.RegexPattern?
    ensures Answers(h, want, w) <==> Speaks(h.tier, h.entry.selector, want, w)
  {
    hide ShellWords.PrefixSafelyMatches;
    hide StartsPlainly;
  }

  lemma AnswersAreExact(h: Hit, want: Want, w: Lookup.World)
    ensures Answers(h, want, w) <==> Speaks(h.tier, h.entry.selector, want, w)
  {
    hide *;
    match h.entry.selector
    case Rule(_, _) => RulesSpeak(h, want, w);
    case CommandPrefix(_) => PrefixesSpeak(h, want, w);
    case ExactCommand(_) => OthersSpeak(h, want, w);
    case RegexPattern(_) => OthersSpeak(h, want, w);
  }
}

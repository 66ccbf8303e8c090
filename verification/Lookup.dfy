/** The layered allowlist (src/allowlist.rs): entries, their validity, the five lookups with
    the per-lookup session cache, and in-memory rule grants. */
module Lookup {
  import opened Wrappers
  import Scope
  import Seqs
  import ShellWords

  datatype Selector =
    | Rule(pack: string, name: string)
    | ExactCommand(command: string)
    | CommandPrefix(prefix: string)
    | RegexPattern(regex: string)

  datatype Entry = Entry(
    selector: Selector,
    reason: string,
    addedBy: Option<string>,
    addedAt: Option<string>,
    expiresAt: Option<string>,
    ttl: Option<string>,
    session: Option<bool>,
    sessionId: Option<string>,
    conditions: map<string, string>,
    paths: Option<seq<string>>,
    riskAcknowledged: bool)

  datatype Tier = Agent | Project | User | System

  datatype Layer = Layer(tier: Tier, entries: seq<Entry>)

  datatype Hit = Hit(tier: Tier, entry: Entry)

  /** What a lookup takes from outside: the clock, in nanoseconds, and how dates and durations are
      read; the environment, the regex engine and the file system behind directory scopes. `instants`
      reads RFC 3339 and the form without a zone, `days` a date alone as the instant the day begins,
      and no time is later than `latest`. */
  datatype World = World(
    now: int,
    instants: string -> Option<int>,
    days: string -> Option<int>,
    durations: string -> Option<int>,
    latest: int,
    environment: map<string, string>,
    regexMatches: (string, string) -> bool,
    reader: Scope.Reader)

  // -------------------------------------------------------------- validity

  /** From the start of a day to its 23:59:59. */
  const TO_DAY_END := 86_399_000_000_000

  /** `is_timestamp_expired`: a date alone lasts through its day, and what cannot be read has expired. */
  predicate IsTimestampExpired(t: string, w: World) {
    if w.instants(t).Some? then w.instants(t).value < w.now
    else if w.days(t).Some? then w.days(t).value + TO_DAY_END < w.now
    else true
  }

  /** `parse_timestamp`: here a date alone is the start of its day. */
  function ParseTimestamp(t: string, w: World): Option<int> {
    if w.instants(t).Some? then w.instants(t) else w.days(t)
  }

  /** `is_ttl_expired`: what has no start, or cannot be read or added up, has run out. */
  predicate IsTtlExpired(ttl: string, addedAt: Option<string>, w: World) {
    if addedAt.None? then true else
    var start, duration := ParseTimestamp(addedAt.value, w), w.durations(ttl);
    if start.None? || duration.None? || start.value + duration.value > w.latest then true
    else start.value + duration.value < w.now
  }

  /** `is_expiration_expired`: a timestamp settles it, and only without one a duration counts. */
  predicate IsExpired(e: Entry, w: World) {
    if e.expiresAt.Some? then IsTimestampExpired(e.expiresAt.value, w)
    else if e.ttl.Some? then IsTtlExpired(e.ttl.value, e.addedAt, w)
    else false
  }

  function TrimStart(s: string): string {
    if s != [] && ShellWords.IsWhitespace(s[0]) then TrimStart(s[1..]) else s
  }

  function TrimEnd(s: string): string {
    if s != [] && ShellWords.IsWhitespace(s[|s| - 1]) then TrimEnd(s[..|s| - 1]) else s
  }

  function Trim(s: string): string {
    TrimEnd(TrimStart(s))
  }

  predicate IsSessionScoped(e: Entry) {
    e.session == Some(true)
  }

  /** `session_scope_matches`. */
  predicate SessionScopeMatches(e: Entry, current: Option<string>) {
    !IsSessionScoped(e) || (
      && e.sessionId.Some?
      && Trim(e.sessionId.value) != ""
      && current.Some?
      && Trim(e.sessionId.value) == Trim(current.value))
  }

  predicate ConditionsMet(e: Entry, w: World) {
    forall key :: key in e.conditions ==> key in w.environment && w.environment[key] == e.conditions[key]
  }

  predicate HasRequiredRiskAck(e: Entry) {
    e.selector.RegexPattern? ==> e.riskAcknowledged
  }

  /** `is_entry_valid_at_path_with_session`: an unknown working directory is in no scope. */
  predicate IsValid(e: Entry, w: World, cwd: Option<string>, session: Option<string>) {
    && !IsExpired(e, w)
    && SessionScopeMatches(e, session)
    && ConditionsMet(e, w)
    && HasRequiredRiskAck(e)
    && (if cwd.None? then !Scope.IsScoped(e.paths) else Scope.Contains(e.paths, cwd.value, w.reader))
  }

  // ------------------------------------------------- what a lookup answers

  /** The questions of the lookups. `Ancestor` is the fallback of a finding: an entry for an id
      the finding's rule was split out of. */
  datatype Want =
    | Finding(pack: string, name: string)
    | Ancestor(pack: string, legacy: seq<string>)
    | Exactly(pack: string, name: string)
    | Command(command: string)
    | PrefixOf(command: string)
    | PatternFor(command: string)

  /** A question as asked: the world, the working directory, and the session it is asked in. */
  datatype Context = Context(world: World, cwd: Option<string>, session: Option<string>)

  ghost predicate Answers(h: Hit, want: Want, w: World) {
    var s := h.entry.selector;
    match want
    case Finding(pack, name) => s.Rule? && s.pack == pack && (s.name == name || s.name == "*")
    case Ancestor(pack, legacy) => h.tier != Agent && s.Rule? && s.pack == pack && s.name in legacy
    case Exactly(pack, name) => s == Rule(pack, name)
    case Command(command) => s == ExactCommand(command)
    case PrefixOf(command) => s.CommandPrefix? && ShellWords.PrefixSafelyMatches(command, s.prefix)
    case PatternFor(command) => s.RegexPattern? && w.regexMatches(s.regex, command)
  }

  predicate Valid(h: Hit, c: Context) {
    IsValid(h.entry, c.world, c.cwd, c.session)
  }

  ghost predicate Usable(h: Hit, want: Want, c: Context) {
    Valid(h, c) && Answers(h, want, c.world)
  }

  function LayerHits(tier: Tier, entries: seq<Entry>): (hits: seq<Hit>)
    ensures |hits| == |entries| && forall k :: 0 <= k < |entries| ==> hits[k] == Hit(tier, entries[k])
  {
    if entries == [] then [] else [Hit(tier, entries[0])] + LayerHits(tier, entries[1..])
  }

  /** Every entry, in layer order and then in file order. */
  function Hits(layers: seq<Layer>): seq<Hit> {
    if layers == [] then [] else LayerHits(layers[0].tier, layers[0].entries) + Hits(layers[1..])
  }

  ghost function First(hits: seq<Hit>, want: Want, c: Context): Option<Hit> {
    if hits == [] then None
    else if Usable(hits[0], want, c) then Some(hits[0])
    else First(hits[1..], want, c)
  }

  /** The entries looked at until the answer is known. */
  ghost function Examined(hits: seq<Hit>, want: Want, c: Context): seq<Hit> {
    if hits == [] then []
    else if Usable(hits[0], want, c) then [hits[0]]
    else [hits[0]] + Examined(hits[1..], want, c)
  }

  /** The answer to a finding: the first usable entry that names it or its pack, else the first
      that names one of its former ids; the wildcard pack is never a question. */
  ghost function RuleAnswer(layers: seq<Layer>, pack: string, name: string, legacy: seq<string>,
                            c: Context): Option<Hit> {
    if pack == "*" then None
    else if First(Hits(layers), Finding(pack, name), c).Some? then First(Hits(layers), Finding(pack, name), c)
    else First(Hits(layers), Ancestor(pack, legacy), c)
  }

  predicate AnyScoped(hits: seq<Hit>) {
    exists k :: 0 <= k < |hits| && IsSessionScoped(hits[k].entry)
  }

  /** `First` is the least position that is usable, or there is none. */
  lemma {:induction false} FirstMeans(hits: seq<Hit>, want: Want, c: Context)
    ensures match First(hits, want, c)
            case None => forall k :: 0 <= k < |hits| ==> !Usable(hits[k], want, c)
            case Some(h) => exists k ::
              && 0 <= k < |hits| && hits[k] == h && Usable(h, want, c)
              && forall j :: 0 <= j < k ==> !Usable(hits[j], want, c)
  {
    hide Usable;
    if hits != [] && !Usable(hits[0], want, c) {
      FirstMeans(hits[1..], want, c);
      var f := First(hits[1..], want, c);
      if f.Some? {
        var k :| 0 <= k < |hits[1..]| && hits[1..][k] == f.value
          && forall j :: 0 <= j < k ==> !Usable(hits[1..][j], want, c);
        assert hits[k + 1] == f.value;
        forall j | 0 <= j < k + 1 ensures !Usable(hits[j], want, c) {
          if j > 0 { assert hits[j] == hits[1..][j - 1]; }
        }
      } else {
        forall k | 0 <= k < |hits| ensures !Usable(hits[k], want, c) {
          if k > 0 { assert hits[k] == hits[1..][k - 1]; }
        }
      }
    }
  }

  ghost predicate NoneUsable(hits: seq<Hit>, want: Want, c: Context) {
    forall k :: 0 <= k < |hits| ==> !Usable(hits[k], want, c)
  }

  /** A search that has passed `seen` in vain goes on as if it began with the rest. */
  lemma {:induction false} Resume(seen: seq<Hit>, rest: seq<Hit>, want: Want, c: Context)
    requires NoneUsable(seen, want, c)
    ensures First(seen + rest, want, c) == First(rest, want, c)
    ensures Examined(seen + rest, want, c) == seen + Examined(rest, want, c)
  {
    hide Usable;
    if seen == [] {
      assert seen + rest == rest;
    } else {
      assert (seen + rest)[1..] == seen[1..] + rest;
      Resume(seen[1..], rest, want, c);
      assert [seen[0]] + (seen[1..] + Examined(rest, want, c)) == seen + Examined(rest, want, c);
    }
  }

  lemma Found(seen: seq<Hit>, h: Hit, rest: seq<Hit>, want: Want, c: Context)
    requires NoneUsable(seen, want, c) && Usable(h, want, c)
    ensures First(seen + ([h] + rest), want, c) == Some(h)
    ensures Examined(seen + ([h] + rest), want, c) == seen + [h]
  {
    hide Usable;
    Resume(seen, [h] + rest, want, c);
  }

  lemma Exhausted(seen: seq<Hit>, want: Want, c: Context)
    requires NoneUsable(seen, want, c)
    ensures First(seen, want, c) == None && Examined(seen, want, c) == seen
  {
    hide Usable;
    Resume(seen, [], want, c);
    assert seen + [] == seen;
  }

  lemma NoneSnoc(seen: seq<Hit>, h: Hit, want: Want, c: Context)
    ensures NoneUsable(seen + [h], want, c) <==> NoneUsable(seen, want, c) && !Usable(h, want, c)
    ensures Usable(h, want, c) <==> Valid(h, c) && Answers(h, want, c.world)
  {
    var all := seen + [h];
    hide Valid;
    hide Answers;
    assert all[|seen|] == h && forall k :: 0 <= k < |seen| ==> all[k] == seen[k];
  }

  // ----------------------------------------------------- the session cache

  /** `current_session_id` as a lookup sees it: each call may answer differently. */
  class SessionResolver {
    const answers: nat -> Option<string>
    var calls: nat

    constructor (answers: nat -> Option<string>)
      ensures this.answers == answers && calls == 0
    {
      this.answers := answers;
      calls := 0;
    }

    method Resolve() returns (id: Option<string>)
      modifies this
      ensures id == answers(old(calls)) && calls == old(calls) + 1
    {
      id := answers(calls);
      calls := calls + 1;
    }
  }

  datatype CachedId = Unresolved | Unavailable | Resolved(id: string)

  class SessionIdCache {
    var state: CachedId

    constructor ()
      ensures state == Unresolved
    {
      state := Unresolved;
    }

    /** Since call `start` of the resolver: asked once if any of the entries seen is
        session-scoped, and that answer is remembered. */
    ghost predicate Remembers(resolver: SessionResolver, start: nat, seen: seq<Hit>)
      reads this, resolver
    {
      if AnyScoped(seen) then
        resolver.calls == start + 1
          && state == match resolver.answers(start) { case Some(id) => Resolved(id) case None => Unavailable }
      else
        resolver.calls == start && state == Unresolved
    }

    lemma Asked(resolver: SessionResolver, start: nat, seen: seq<Hit>)
      requires Remembers(resolver, start, seen)
      ensures resolver.calls == start + if AnyScoped(seen) then 1 else 0
    {}

    lemma NothingAsked(resolver: SessionResolver)
      requires state == Unresolved
      ensures Remembers(resolver, resolver.calls, [])
    {}

    /** `session_id_for_entry_with`. */
    method IdFor(h: Hit, resolver: SessionResolver, ghost start: nat, ghost seen: seq<Hit>) returns (id: Option<string>)
      requires Remembers(resolver, start, seen)
      modifies this, resolver
      ensures Remembers(resolver, start, seen + [h])
      ensures id == if IsSessionScoped(h.entry) then resolver.answers(start) else None
    {
      ScopedSnoc(seen, h);
      if h.entry.session != Some(true) {
        return None;
      }
      if state.Unresolved? {
        var answer := resolver.Resolve();
        state := match answer { case Some(i) => Resolved(i) case None => Unavailable };
      }
      id := match state { case Resolved(i) => Some(i) case Unresolved => None case Unavailable => None };
    }

    /** One entry's validity, with the session identifier fetched only if the entry asks for it. */
    method Admits(h: Hit, w: World, cwd: Option<string>, resolver: SessionResolver, ghost start: nat,
                  ghost seen: seq<Hit>)
      returns (valid: bool)
      requires Remembers(resolver, start, seen)
      modifies this, resolver
      ensures Remembers(resolver, start, seen + [h])
      ensures valid == Valid(h, Context(w, cwd, resolver.answers(start)))
    {
      hide ConditionsMet;
      var id := IdFor(h, resolver, start, seen);
      valid := IsValid(h.entry, w, cwd, id);
    }
  }

  lemma ScopedSnoc(seen: seq<Hit>, h: Hit)
    ensures AnyScoped(seen + [h]) <==> AnyScoped(seen) || IsSessionScoped(h.entry)
  {
    assert (seen + [h])[|seen|] == h;
    if AnyScoped(seen) {
      var k :| 0 <= k < |seen| && IsSessionScoped(seen[k].entry);
      assert (seen + [h])[k] == seen[k];
    }
  }

  // ------------------------------------------------------------ the lookups

  method Matches(h: Hit, want: Want, w: World) returns (r: bool)
    ensures r <==> Answers(h, want, w)
  {
    var s := h.entry.selector;
    match want
    case Finding(pack, name) => r := s.Rule? && s.pack == pack && (s.name == name || s.name == "*");
    case Ancestor(pack, legacy) => r := h.tier != Agent && s.Rule? && s.pack == pack && s.name in legacy;
    case Exactly(pack, name) => r := s == Rule(pack, name);
    case Command(command) => r := s == ExactCommand(command);
    case PrefixOf(command) =>
      r := false;
      if s.CommandPrefix? { r := ShellWords.CommandPrefixSafelyMatches(command, s.prefix); }
    case PatternFor(command) => r := s.RegexPattern? && w.regexMatches(s.regex, command);
  }

  /** Where a scan of all entries stands: `seen` is behind it, then the entries from `j` of
      layer `i`, then the later layers. */
  ghost predicate At(layers: seq<Layer>, i: nat, j: nat, seen: seq<Hit>) {
    && i < |layers| && j <= |layers[i].entries|
    && Hits(layers) == seen + (LayerHits(layers[i].tier, layers[i].entries)[j..] + Hits(layers[i + 1..]))
  }

  lemma StepAt(layers: seq<Layer>, i: nat, j: nat, seen: seq<Hit>) returns (rest: seq<Hit>)
    requires At(layers, i, j, seen) && j < |layers[i].entries|
    ensures var h := Hit(layers[i].tier, layers[i].entries[j]);
            Hits(layers) == seen + ([h] + rest) && At(layers, i, j + 1, seen + [h])
  {
    hide Hits;
    var mine, later := LayerHits(layers[i].tier, layers[i].entries), Hits(layers[i + 1..]);
    rest := mine[j + 1..] + later;
    var h := mine[j];
    assert mine[j..] == [h] + mine[j + 1..];
    assert mine[j..] + later == [h] + rest;
    assert seen + ([h] + rest) == (seen + [h]) + rest;
  }

  lemma NextLayer(layers: seq<Layer>, i: nat, seen: seq<Hit>)
    requires i < |layers| && At(layers, i, |layers[i].entries|, seen)
    ensures Hits(layers) == seen + Hits(layers[i + 1..])
  {
    hide Hits;
    assert LayerHits(layers[i].tier, layers[i].entries)[|layers[i].entries|..] + Hits(layers[i + 1..])
      == Hits(layers[i + 1..]);
  }

  lemma EnterLayer(layers: seq<Layer>, i: nat, seen: seq<Hit>)
    requires i < |layers| && Hits(layers) == seen + Hits(layers[i..])
    ensures At(layers, i, 0, seen)
  {
    assert layers[i..][0] == layers[i] && layers[i..][1..] == layers[i + 1..];
    var mine := LayerHits(layers[i].tier, layers[i].entries);
    assert mine[0..] == mine;
  }

  lemma StartAt(layers: seq<Layer>)
    ensures Hits(layers) == [] + Hits(layers[0..])
  {
    assert layers[0..] == layers;
  }

  lemma EndAt(layers: seq<Layer>, seen: seq<Hit>)
    requires Hits(layers) == seen + Hits(layers[|layers|..])
    ensures Hits(layers) == seen
  {
    assert layers[|layers|..] == [];
  }

  lemma NoneAtStart(want: Want, c: Context)
    ensures NoneUsable([], want, c) && First([], want, c) == None
  {}

  /** The loop of the exact-rule, exact-command, prefix and pattern lookups. It answers as if the
      session identifier had been resolved up front, and asks for it once or not at all: exactly
      when an entry that it examined is session-scoped. */
  method Search(layers: seq<Layer>, want: Want, w: World, cwd: Option<string>, resolver: SessionResolver)
    returns (hit: Option<Hit>)
    modifies resolver
    ensures var c := Context(w, cwd, resolver.answers(old(resolver.calls)));
            && hit == First(Hits(layers), want, c)
            && resolver.calls == old(resolver.calls) + if AnyScoped(Examined(Hits(layers), want, c)) then 1 else 0
  {
    hide *;
    var cache := new SessionIdCache();
    ghost var start := resolver.calls;
    ghost var c := Context(w, cwd, resolver.answers(start));
    ghost var seen: seq<Hit> := [];
    var i := 0;
    StartAt(layers);
    NoneAtStart(want, c);
    cache.NothingAsked(resolver);
    while i < |layers|
      invariant 0 <= i <= |layers|
      invariant Hits(layers) == seen + Hits(layers[i..])
      invariant NoneUsable(seen, want, c)
      invariant fresh(cache) && cache.Remembers(resolver, start, seen)
    {
      EnterLayer(layers, i, seen);
      var j := 0;
      while j < |layers[i].entries|
        invariant 0 <= j <= |layers[i].entries|
        invariant At(layers, i, j, seen)
        invariant NoneUsable(seen, want, c)
        invariant fresh(cache) && cache.Remembers(resolver, start, seen)
      {
        var h := Hit(layers[i].tier, layers[i].entries[j]);
        ghost var rest := StepAt(layers, i, j, seen);
        var valid := cache.Admits(h, w, cwd, resolver, start, seen);
        var answers := false;
        if valid { answers := Matches(h, want, w); }
        NoneSnoc(seen, h, want, c);
        if answers {
          Found(seen, h, rest, want, c);
          cache.Asked(resolver, start, seen + [h]);
          return Some(h);
        }
        seen := seen + [h];
        j := j + 1;
      }
      NextLayer(layers, i, seen);
      i := i + 1;
    }
    EndAt(layers, seen);
    Exhausted(seen, want, c);
    cache.Asked(resolver, start, seen);
    return None;
  }

  /** What the first answer becomes when one more entry is seen; after a first answer nothing is taken. */
  lemma {:induction false} FirstSnoc(seen: seq<Hit>, h: Hit, want: Want, c: Context, before: Option<Hit>, taken: bool)
    requires before == First(seen, want, c)
    requires taken ==> before.None?
    requires before.None? ==> (taken <==> Valid(h, c) && Answers(h, want, c.world))
    ensures First(seen + [h], want, c) == if taken then Some(h) else before
  {
    hide Valid;
    hide Answers;
    if seen == [] {
      assert [] + [h] == [h] && [h][1..] == [];
    } else if !Usable(seen[0], want, c) {
      assert (seen + [h])[1..] == seen[1..] + [h];
      FirstSnoc(seen[1..], h, want, c, before, taken);
    }
  }

  /** One entry: a direct answer ends the search, a former id is kept if it is the first. */
  method Consider(h: Hit, pack: string, name: string, legacy: seq<string>, w: World, cwd: Option<string>,
                  cache: SessionIdCache,
                  resolver: SessionResolver, before: Option<Hit>, ghost start: nat, ghost seen: seq<Hit>)
    returns (direct: bool, legacyHit: Option<Hit>)
    requires cache.Remembers(resolver, start, seen)
    requires var c := Context(w, cwd, resolver.answers(start));
             NoneUsable(seen, Finding(pack, name), c) && before == First(seen, Ancestor(pack, legacy), c)
    modifies cache, resolver
    ensures cache.Remembers(resolver, start, seen + [h])
    ensures var c := Context(w, cwd, resolver.answers(start));
            && (direct <==> Usable(h, Finding(pack, name), c))
            && (!direct ==>
                  && NoneUsable(seen + [h], Finding(pack, name), c)
                  && legacyHit == First(seen + [h], Ancestor(pack, legacy), c))
  {
    hide *;
    legacyHit := before;
    ghost var c := Context(w, cwd, resolver.answers(start));
    var valid := cache.Admits(h, w, cwd, resolver, start, seen);
    NoneSnoc(seen, h, Finding(pack, name), c);
    direct := false;
    var former := false;
    if valid {
      direct := Matches(h, Finding(pack, name), w);
      if direct {
        return;
      }
      if legacyHit.None? {
        former := Matches(h, Ancestor(pack, legacy), w);
      }
    }
    FirstSnoc(seen, h, Ancestor(pack, legacy), c, before, former);
    if former { legacyHit := Some(h); }
  }

  lemma RuleAnswerSplits(layers: seq<Layer>, pack: string, name: string, legacy: seq<string>, c: Context)
    requires pack != "*"
    ensures var direct := First(Hits(layers), Finding(pack, name), c);
            RuleAnswer(layers, pack, name, legacy, c) == if direct.Some? then direct
              else First(Hits(layers), Ancestor(pack, legacy), c)
  {}

  /** `match_rule_at_path`: one pass for the direct answer and the fallback together. */
  method MatchRuleAtPath(layers: seq<Layer>, pack: string, name: string, legacy: seq<string>, w: World,
                         cwd: Option<string>,
                         resolver: SessionResolver)
    returns (hit: Option<Hit>)
    modifies resolver
    ensures var c := Context(w, cwd, resolver.answers(old(resolver.calls)));
            && hit == RuleAnswer(layers, pack, name, legacy, c)
            && resolver.calls == old(resolver.calls) +
                 if pack != "*" && AnyScoped(Examined(Hits(layers), Finding(pack, name), c)) then 1 else 0
  {
    if pack == "*" {
      return None;
    }
    hide *;
    var cache := new SessionIdCache();
    ghost var start := resolver.calls;
    ghost var c := Context(w, cwd, resolver.answers(start));
    var finding, ancestor := Finding(pack, name), Ancestor(pack, legacy);
    ghost var seen: seq<Hit> := [];
    var legacyHit: Option<Hit> := None;
    var i := 0;
    StartAt(layers);
    NoneAtStart(finding, c);
    NoneAtStart(ancestor, c);
    cache.NothingAsked(resolver);
    while i < |layers|
      invariant 0 <= i <= |layers|
      invariant Hits(layers) == seen + Hits(layers[i..])
      invariant NoneUsable(seen, finding, c)
      invariant legacyHit == First(seen, ancestor, c)
      invariant fresh(cache) && cache.Remembers(resolver, start, seen)
    {
      EnterLayer(layers, i, seen);
      var j := 0;
      while j < |layers[i].entries|
        invariant 0 <= j <= |layers[i].entries|
        invariant At(layers, i, j, seen)
        invariant NoneUsable(seen, finding, c)
        invariant legacyHit == First(seen, ancestor, c)
        invariant fresh(cache) && cache.Remembers(resolver, start, seen)
      {
        var h := Hit(layers[i].tier, layers[i].entries[j]);
        ghost var rest := StepAt(layers, i, j, seen);
        var direct;
        direct, legacyHit := Consider(h, pack, name, legacy, w, cwd, cache, resolver, legacyHit, start, seen);
        if direct {
          Found(seen, h, rest, finding, c);
          RuleAnswerSplits(layers, pack, name, legacy, c);
          cache.Asked(resolver, start, seen + [h]);
          return Some(h);
        }
        seen := seen + [h];
        j := j + 1;
      }
      NextLayer(layers, i, seen);
      i := i + 1;
    }
    EndAt(layers, seen);
    Exhausted(seen, finding, c);
    RuleAnswerSplits(layers, pack, name, legacy, c);
    cache.Asked(resolver, start, seen);
    return legacyHit;
  }

  // ----------------------------------------------- invalid entries do nothing

  function ValidOf(hits: seq<Hit>, c: Context): seq<Hit> {
    if hits == [] then [] else (if Valid(hits[0], c) then [hits[0]] else []) + ValidOf(hits[1..], c)
  }

  /** Only the valid entries and their order count. */
  lemma {:induction false} FirstAmongValid(hits: seq<Hit>, want: Want, c: Context)
    ensures First(hits, want, c) == First(ValidOf(hits, c), want, c)
  {
    hide Valid;
    hide Answers;
    if hits != [] {
      FirstAmongValid(hits[1..], want, c);
      var later := ValidOf(hits[1..], c);
      if Valid(hits[0], c) {
        assert ([hits[0]] + later)[1..] == later;
      } else {
        assert [] + later == later;
      }
    }
  }

  /** Two allowlists that differ only in invalid entries, expired, out of scope, for another
      session or unacknowledged, answer every question alike: such an entry never shadows. */
  lemma InvalidNeverShadows(a: seq<Layer>, b: seq<Layer>, c: Context)
    requires ValidOf(Hits(a), c) == ValidOf(Hits(b), c)
    ensures forall want :: First(Hits(a), want, c) == First(Hits(b), want, c)
    ensures forall pack, name, legacy :: RuleAnswer(a, pack, name, legacy, c) == RuleAnswer(b, pack, name, legacy, c)
  {
    hide First;
    forall want ensures First(Hits(a), want, c) == First(Hits(b), want, c) {
      FirstAmongValid(Hits(a), want, c);
      FirstAmongValid(Hits(b), want, c);
    }
  }

  /** An allowlist without its invalid entries. */
  function Purge(layers: seq<Layer>, c: Context): seq<Layer> {
    if layers == [] then [] else [Layer(layers[0].tier, PurgeEntries(layers[0].entries, c))] + Purge(layers[1..], c)
  }

  function PurgeEntries(es: seq<Entry>, c: Context): seq<Entry> {
    if es == [] then []
    else (if IsValid(es[0], c.world, c.cwd, c.session) then [es[0]] else []) + PurgeEntries(es[1..], c)
  }

  lemma {:induction false} ValidConcat(a: seq<Hit>, b: seq<Hit>, c: Context)
    ensures ValidOf(a + b, c) == ValidOf(a, c) + ValidOf(b, c)
  {
    hide Valid;
    if a == [] {
      assert a + b == b;
    } else {
      assert (a + b)[1..] == a[1..] + b;
      ValidConcat(a[1..], b, c);
    }
  }

  lemma {:induction false} PurgedLayer(t: Tier, es: seq<Entry>, c: Context)
    ensures ValidOf(LayerHits(t, PurgeEntries(es, c)), c) == ValidOf(LayerHits(t, es), c)
  {
    hide IsValid;
    if es != [] {
      PurgedLayer(t, es[1..], c);
      var later := PurgeEntries(es[1..], c);
      assert LayerHits(t, es)[1..] == LayerHits(t, es[1..]);
      if IsValid(es[0], c.world, c.cwd, c.session) {
        assert ([es[0]] + later)[1..] == later;
        assert LayerHits(t, [es[0]] + later)[1..] == LayerHits(t, later);
      } else {
        assert [] + later == later;
      }
    }
  }

  /** Deleting every invalid entry changes no answer. */
  lemma {:induction false} PurgeChangesNothing(layers: seq<Layer>, c: Context)
    ensures ValidOf(Hits(Purge(layers, c)), c) == ValidOf(Hits(layers), c)
    ensures forall want :: First(Hits(Purge(layers, c)), want, c) == First(Hits(layers), want, c)
    ensures forall pack, name, legacy ::
              RuleAnswer(Purge(layers, c), pack, name, legacy, c) == RuleAnswer(layers, pack, name, legacy, c)
  {
    hide First;
    hide ValidOf;
    hide PurgeEntries;
    if layers != [] {
      PurgeChangesNothing(layers[1..], c);
      var l := layers[0];
      PurgedLayer(l.tier, l.entries, c);
      ValidConcat(LayerHits(l.tier, l.entries), Hits(layers[1..]), c);
      var purged := Layer(l.tier, PurgeEntries(l.entries, c));
      assert ([purged] + Purge(layers[1..], c))[1..] == Purge(layers[1..], c);
      ValidConcat(LayerHits(purged.tier, purged.entries), Hits(Purge(layers[1..], c)), c);
    }
    InvalidNeverShadows(Purge(layers, c), layers, c);
  }

  /** Not knowing the directory or the session only loses grants: an entry that applies without
      them is one that is not bound to any, and it applies in every directory and session. */
  lemma UnknownOnlyLoses(e: Entry, w: World, cwd: Option<string>, session: Option<string>)
    ensures IsValid(e, w, None, session) <==> IsValid(e, w, cwd, session) && !Scope.IsScoped(e.paths)
    ensures IsValid(e, w, cwd, None) <==> IsValid(e, w, cwd, session) && !IsSessionScoped(e)
  {}

  lemma UsableIsFound(hits: seq<Hit>, want: Want, c: Context)
    ensures First(hits, want, c).Some? <==> exists k :: 0 <= k < |hits| && Usable(hits[k], want, c)
  {
    FirstMeans(hits, want, c);
  }

  lemma HitsAreKept(hits: seq<Hit>, want: Want, w: World, cwd: Option<string>, session: Option<string>)
    requires First(hits, want, Context(w, None, None)).Some?
    ensures First(hits, want, Context(w, cwd, session)).Some?
  {
    var less, more := Context(w, None, None), Context(w, cwd, session);
    UsableIsFound(hits, want, less);
    UsableIsFound(hits, want, more);
    hide First;
    var k :| 0 <= k < |hits| && Usable(hits[k], want, less);
    assert Usable(hits[k], want, more) by {
      UnknownOnlyLoses(hits[k].entry, w, None, session);
      UnknownOnlyLoses(hits[k].entry, w, cwd, session);
      hide IsValid;
      hide Answers;
    }
  }

  /** A command allowed in an unknown directory and session is allowed in every known one. */
  lemma KnowingMoreKeepsHits(layers: seq<Layer>, pack: string, name: string, legacy: seq<string>, want: Want,
                             w: World, cwd: Option<string>, session: Option<string>)
    ensures RuleAnswer(layers, pack, name, legacy, Context(w, None, None)).Some? ==>
              RuleAnswer(layers, pack, name, legacy, Context(w, cwd, session)).Some?
    ensures First(Hits(layers), want, Context(w, None, None)).Some? ==>
              First(Hits(layers), want, Context(w, cwd, session)).Some?
  {
    hide First;
    var less := Context(w, None, None);
    if First(Hits(layers), want, less).Some? { HitsAreKept(Hits(layers), want, w, cwd, session); }
    if First(Hits(layers), Finding(pack, name), less).Some? {
      HitsAreKept(Hits(layers), Finding(pack, name), w, cwd, session);
    }
    if First(Hits(layers), Ancestor(pack, legacy), less).Some? {
      HitsAreKept(Hits(layers), Ancestor(pack, legacy), w, cwd, session);
    }
  }

  // ----------------------------------------------------------- rule grants

  datatype RuleId = RuleId(pack: string, name: string)

  function GrantEntry(id: RuleId, reason: string, source: string): Entry {
    Entry(Rule(id.pack, id.name), reason, Some(source), None, None, None, None, None, map[], None, false)
  }

  function GrantEntries(rules: seq<RuleId>, reason: string, source: string): (es: seq<Entry>)
    ensures |es| == |rules| && forall k :: 0 <= k < |rules| ==> es[k] == GrantEntry(rules[k], reason, source)
  {
    if rules == [] then [] else [GrantEntry(rules[0], reason, source)] + GrantEntries(rules[1..], reason, source)
  }

  /** `with_rule_grants`. */
  function WithRuleGrants(layers: seq<Layer>, rules: seq<RuleId>, reason: string, source: string): seq<Layer> {
    if rules == [] then layers else [Layer(Agent, GrantEntries(rules, reason, source))] + layers
  }

  predicate Names(id: RuleId, pack: string, name: string) {
    id.pack == pack && (id.name == name || id.name == "*")
  }

  lemma GrantsFirst(layers: seq<Layer>, rules: seq<RuleId>, reason: string, source: string)
    ensures Hits(WithRuleGrants(layers, rules, reason, source))
            == LayerHits(Agent, GrantEntries(rules, reason, source)) + Hits(layers)
  {
    var granted := WithRuleGrants(layers, rules, reason, source);
    if rules == [] {
      assert [] + Hits(layers) == Hits(layers);
    } else {
      assert granted[1..] == layers;
    }
  }

  /** Questions that no grant answers are answered as before. */
  lemma GrantsPassOver(layers: seq<Layer>, rules: seq<RuleId>, reason: string, source: string, want: Want, c: Context)
    requires forall k :: 0 <= k < |rules| ==> !Answers(Hit(Agent, GrantEntry(rules[k], reason, source)), want, c.world)
    ensures First(Hits(WithRuleGrants(layers, rules, reason, source)), want, c) == First(Hits(layers), want, c)
  {
    hide Answers;
    hide First;
    GrantsFirst(layers, rules, reason, source);
    var grants := LayerHits(Agent, GrantEntries(rules, reason, source));
    forall k | 0 <= k < |grants| ensures !Usable(grants[k], want, c) {
      assert grants[k] == Hit(Agent, GrantEntry(rules[k], reason, source));
    }
    Resume(grants, Hits(layers), want, c);
  }

  lemma SplitGrants(rules: seq<RuleId>, reason: string, source: string, m: nat)
    returns (before: seq<Hit>, after: seq<Hit>)
    requires m < |rules|
    ensures LayerHits(Agent, GrantEntries(rules, reason, source))
            == before + ([Hit(Agent, GrantEntry(rules[m], reason, source))] + after)
    ensures |before| == m && forall k :: 0 <= k < m ==> before[k] == Hit(Agent, GrantEntry(rules[k], reason, source))
  {
    hide GrantEntry;
    var grants := LayerHits(Agent, GrantEntries(rules, reason, source));
    before, after := grants[..m], grants[m + 1..];
    assert grants == before + ([grants[m]] + after);
  }

  /** The first grant that answers a question is found before every entry of the allowlist. */
  lemma FirstGrantWins(layers: seq<Layer>, rules: seq<RuleId>, reason: string, source: string, want: Want, c: Context,
                       m: nat)
    requires m < |rules|
    requires forall j :: 0 <= j < m ==> !Usable(Hit(Agent, GrantEntry(rules[j], reason, source)), want, c)
    requires Usable(Hit(Agent, GrantEntry(rules[m], reason, source)), want, c)
    ensures First(Hits(WithRuleGrants(layers, rules, reason, source)), want, c)
            == Some(Hit(Agent, GrantEntry(rules[m], reason, source)))
  {
    GrantsFirst(layers, rules, reason, source);
    var before, after := SplitGrants(rules, reason, source, m);
    var h := Hit(Agent, GrantEntry(rules[m], reason, source));
    assert NoneUsable(before, want, c);
    hide *;
    Seqs.Associative(before, [h] + after, Hits(layers));
    Seqs.Associative([h], after, Hits(layers));
    Found(before, h, after + Hits(layers), want, c);
  }

  /** A grant is usable everywhere, for exactly the findings it names. */
  lemma GrantIsUsable(id: RuleId, reason: string, source: string, pack: string, name: string, c: Context)
    ensures Usable(Hit(Agent, GrantEntry(id, reason, source)), Finding(pack, name), c) <==> Names(id, pack, name)
    ensures Usable(Hit(Agent, GrantEntry(id, reason, source)), Exactly(pack, name), c) <==> id == RuleId(pack, name)
  {}

  ghost predicate Granted(after: Option<Hit>, rules: seq<RuleId>, reason: string, source: string, pack: string,
                          name: string) {
    exists k :: 0 <= k < |rules| && Names(rules[k], pack, name)
      && (forall j :: 0 <= j < k ==> !Names(rules[j], pack, name))
      && after == Some(Hit(Agent, GrantEntry(rules[k], reason, source)))
  }

  /** The exact effect of grants on a finding, in every directory and session: a hit in the agent
      layer, from the first grant that names the rule or its whole pack, if some grant does, and
      the old answer, fallback included, if none does. */
  lemma GrantsHaveExactFrame(layers: seq<Layer>, rules: seq<RuleId>, reason: string, source: string,
                             pack: string, name: string, legacy: seq<string>, c: Context)
    requires pack != "*"
    ensures var after := RuleAnswer(WithRuleGrants(layers, rules, reason, source), pack, name, legacy, c);
            if exists k :: 0 <= k < |rules| && Names(rules[k], pack, name) then
              Granted(after, rules, reason, source, pack, name)
            else after == RuleAnswer(layers, pack, name, legacy, c)
  {
    hide First;
    hide Usable;
    if k :| 0 <= k < |rules| && Names(rules[k], pack, name) {
      var m := LeastNamed(rules, pack, name, k);
      forall j | 0 <= j <= m
        ensures Usable(Hit(Agent, GrantEntry(rules[j], reason, source)), Finding(pack, name), c) <==>
                  Names(rules[j], pack, name)
      {
        GrantIsUsable(rules[j], reason, source, pack, name, c);
      }
      FirstGrantWins(layers, rules, reason, source, Finding(pack, name), c, m);
    } else {
      GrantsPassOver(layers, rules, reason, source, Finding(pack, name), c);
      GrantsPassOver(layers, rules, reason, source, Ancestor(pack, legacy), c);
    }
  }

  lemma {:induction false} LeastNamed(rules: seq<RuleId>, pack: string, name: string, k: nat) returns (m: nat)
    requires k < |rules| && Names(rules[k], pack, name)
    ensures m < |rules| && Names(rules[m], pack, name) && forall j :: 0 <= j < m ==> !Names(rules[j], pack, name)
  {
    m := k;
    if j :| 0 <= j < k && Names(rules[j], pack, name) {
      m := LeastNamed(rules, pack, name, j);
    }
  }

  /** Exact commands, prefixes and patterns are looked up as before. */
  lemma GrantsLeaveOtherLookups(layers: seq<Layer>, rules: seq<RuleId>, reason: string, source: string, want: Want,
                                c: Context)
    requires want.Command? || want.PrefixOf? || want.PatternFor?
    ensures First(Hits(WithRuleGrants(layers, rules, reason, source)), want, c) == First(Hits(layers), want, c)
  {
    GrantsPassOver(layers, rules, reason, source, want, c);
  }

  function IndexOf(rules: seq<RuleId>, id: RuleId): (m: nat)
    requires id in rules
    ensures m < |rules| && rules[m] == id && id !in rules[..m]
  {
    if rules[0] == id then 0
    else
      var m := IndexOf(rules[1..], id);
      assert rules[..m + 1] == [rules[0]] + rules[1..][..m];
      m + 1
  }

  /** An exact rule id is found in the grants if it is one of them, and as before if not. */
  lemma GrantsAndExactIds(layers: seq<Layer>, rules: seq<RuleId>, reason: string, source: string, id: RuleId,
                          c: Context)
    ensures First(Hits(WithRuleGrants(layers, rules, reason, source)), Exactly(id.pack, id.name), c) ==
            if id in rules then Some(Hit(Agent, GrantEntry(id, reason, source)))
            else First(Hits(layers), Exactly(id.pack, id.name), c)
  {
    var want := Exactly(id.pack, id.name);
    forall k | 0 <= k < |rules|
      ensures Usable(Hit(Agent, GrantEntry(rules[k], reason, source)), want, c) <==> rules[k] == id
    {
      GrantIsUsable(rules[k], reason, source, id.pack, id.name, c);
    }
    hide First;
    hide IsValid;
    if id in rules {
      var m := IndexOf(rules, id);
      forall j | 0 <= j < m ensures rules[j] != id { assert rules[j] in rules[..m]; }
      FirstGrantWins(layers, rules, reason, source, want, c, m);
    } else {
      GrantsPassOver(layers, rules, reason, source, want, c);
    }
  }
}

/** The complete recovery of shell commands from interpreter literals (src/ast_matcher.rs):
    admission, documentation proof, evaluated dependency, and the collecting walk. */
module Recovery {
  import C = BindingCompleteness
  import BindingSoundness
  import opened Decoding
  import opened InertProof
  import opened LiteralBindings
  import opened Routes
  import ScriptRun
  import opened Seqs
  import opened Syntax
  import opened Worklist
  import opened Wrappers

  /** `l` is found from `n` without passing through a string or a comment. */
  predicate Open(n: Node, l: Node)
    decreases n
  {
    n == l || (!n.IsString() && n.kind != Comment && exists c :: c in n.children && c.named && Open(c, l))
  }

  lemma OpenVia(n: Node, c: Node, l: Node)
    requires !n.IsString() && n.kind != Comment && c in n.children && c.named && Open(c, l)
    ensures Open(n, l)
  {}

  lemma {:induction false} OpenUnwrap(n: Node, tries: nat, l: Node)
    requires Unwrap(n, tries).Some? && Open(Unwrap(n, tries).value, l)
    ensures Open(n, l)
    decreases tries
  {
    hide Open;
    hide Significant;
    if IsWrapper(n.kind) {
      var c := Significant(n.children)[0];
      assert c in Significant(n.children);
      OpenUnwrap(c, tries - 1, l);
      OpenVia(n, c, l);
    }
  }

  lemma {:induction false} ChildrenWellFormed(ns: seq<Node>, lo: nat, hi: nat, c: Node)
    requires WellFormedAll(ns, lo, hi) && c in ns
    ensures WellFormed(c) && lo <= c.start && c.end <= hi
    decreases |ns|
  {
    if ns[0] != c { ChildrenWellFormed(ns[1..], ns[0].end, hi, c); }
    RangeInOrder(ns, lo, hi);
  }

  lemma {:induction false} RangeInOrder(ns: seq<Node>, lo: nat, hi: nat)
    requires WellFormedAll(ns, lo, hi)
    ensures lo <= hi && (ns != [] ==> ns[0].start <= ns[0].end <= hi)
    decreases |ns|
  {
    if ns != [] { RangeInOrder(ns[1..], ns[0].end, hi); }
  }

  lemma {:induction false} OpenWithin(n: Node, l: Node)
    requires WellFormed(n) && Open(n, l)
    ensures n.start <= l.start && l.end <= n.end && WellFormed(l)
    decreases n
  {
    if n != l {
      var c :| c in n.children && c.named && Open(c, l);
      ChildrenWellFormed(n.children, n.start, n.end, c);
      OpenWithin(c, l);
    }
  }

  // ------------------------------------------------ the seed has its place

  predicate InTree(root: Node, n: Node) {
    n == root || n in Below(root)
  }

  /** `c` is the value of the literal `l`, whose parent is `p`. */
  predicate IsValueOf(l: Node, p: Node, root: Node, lang: Language, c: Command) {
    InTree(root, p) && l in p.children && SameRange(l, c) && StaticLiteral(l, Some(p), lang, 0) == Some(c.command)
  }

  /** A literal that the walk could reach has this value, which fits the limit. */
  ghost predicate HasLiteral(root: Node, lang: Language, c: Command) {
    && Utf8Length(c.command) <= MAX_PAYLOAD_BYTES
    && exists l, p :: Open(root, l) && l.IsString() && IsValueOf(l, p, root, lang, c)
  }

  /** Every text binding is the value of such a literal. */
  ghost predicate Rooted(names: Names, lang: Language, root: Node) {
    forall x :: x in names && names[x].TextBinding? ==>
        HasLiteral(root, lang, Command(names[x].value, names[x].start, names[x].end))
  }

  /** The literal behind a recorded text. */
  lemma TextStatement(n: Node, lang: Language) returns (value: Node)
    requires RecordedBinding(n, lang).Some? && RecordedBinding(n, lang).value.1.TextBinding?
    ensures !n.IsString() && n.kind != Comment && value in n.children && value.IsString()
    ensures var b := RecordedBinding(n, lang).value.1;
            && b.start == value.start && b.end == value.end && Utf8Length(b.value) <= MAX_PAYLOAD_BYTES
            && StaticLiteral(value, Some(n), lang, 0) == Some(b.value)
  {
    value := n.GetEither(RightField, ValueField).value;
    hide Utf8Length;
    BindingLiteral(n, value, lang);
    hide BoundValue;
    hide StaticLiteral;
  }

  lemma BoundLiteral(n: Node, lang: Language, root: Node, names: Names)
    requires Recorded(n, lang, names).Some? && Rooted(names, lang, root) && WellFormed(n)
    requires InTree(root, n) && forall l :: Open(n, l) ==> Open(root, l)
    ensures Rooted(Recorded(n, lang, names).value, lang, root)
  {
    hide Open;
    hide RecordedBinding;
    hide Utf8Length;
    hide InTree;
    hide StaticLiteral;
    if RecordedBinding(n, lang).value.1.TextBinding? {
      var value := TextStatement(n, lang);
      var b := RecordedBinding(n, lang).value.1;
      ChildrenWellFormed(n.children, n.start, n.end, value);
      assert value.named;
      hide WellFormed;
      OpenHere(n, value);
      assert Open(root, value);
      assert IsValueOf(value, n, root, lang, Command(b.value, b.start, b.end));
      hide IsValueOf;
    }
    hide HasLiteral;
  }

  lemma {:induction false} OpenInTree(n: Node, l: Node)
    requires Open(n, l)
    ensures InTree(n, l)
    decreases n
  {
    hide Below;
    if n != l {
      var c :| c in n.children && c.named && Open(c, l);
      OpenInTree(c, l);
      BelowChild(n, c);
    }
  }

  lemma OpenHere(n: Node, value: Node)
    requires !n.IsString() && n.kind != Comment && value in n.children && value.named
    ensures Open(n, value)
  {
    assert Open(value, value);
  }

  lemma BindingLiteral(n: Node, value: Node, lang: Language)
    requires BoundValue(value, n, lang).Some? && BoundValue(value, n, lang).value.TextBinding?
    ensures value.IsString()
    ensures var b := BoundValue(value, n, lang).value;
            && b.start == value.start && b.end == value.end && Utf8Length(b.value) <= MAX_PAYLOAD_BYTES
            && StaticLiteral(value, Some(n), lang, 0) == Some(b.value)
  {
    StaticIsString(value, Some(n), lang);
    hide StaticLiteral;
    hide RequiredModule;
  }

  /** Where a report comes from: a recorded text, or the rest of the program. */
  lemma CommandsStep(statements: seq<Node>, lang: Language, names: Names, parse: Parser)
    ensures var r := Commands(statements, lang, names, parse);
            r.Ok? && r.value != [] ==>
              && statements != [] && Unwrap(statements[0], 4).Some?
              && var n := Unwrap(statements[0], 4).value;
                 if n.IsCall() then
                   exists x :: x in names && names[x].TextBinding?
                     && r.value == [Command(names[x].value, names[x].start, names[x].end)]
                 else
                   && Recorded(n, lang, names).Some?
                   && r == Commands(statements[1..], lang, Recorded(n, lang, names).value, parse)
  {
    hide Recorded;
    hide Unwrap;
    hide EvaluatedSource;
    hide Dependency;
  }

  lemma {:induction false} CommandsRooted(statements: seq<Node>, lang: Language, names: Names, parse: Parser,
          root: Node)
    requires Rooted(names, lang, root) && WellFormed(root) && !root.IsString() && root.kind != Comment
    requires forall c :: c in statements ==> c in root.children && c.named
    ensures var r := Commands(statements, lang, names, parse);
            r.Ok? && r.value != [] ==> |r.value| == 1 && HasLiteral(root, lang, r.value[0])
    decreases |statements|
  {
    hide Open;
    hide HasLiteral;
    hide Recorded;
    hide Commands;
    hide Unwrap;
    hide WellFormed;
    hide InTree;
    CommandsStep(statements, lang, names, parse);
    if statements != [] && Unwrap(statements[0], 4).Some? {
      var s, n := statements[0], Unwrap(statements[0], 4).value;
      if !n.IsCall() && Recorded(n, lang, names).Some? {
        forall l | Open(n, l) ensures Open(root, l) {
          OpenUnwrap(s, 4, l);
          OpenVia(root, s, l);
        }
        assert Open(n, n) by { OpenSelf(n); }
        OpenWithin(root, n);
        OpenInTree(root, n);
        BoundLiteral(n, lang, root, names);
        CommandsRooted(statements[1..], lang, Recorded(n, lang, names).value, parse, root);
      }
    }
  }

  lemma OpenSelf(n: Node)
    ensures Open(n, n)
  {}

  /** No command of a walk touches the range of a seeded literal. */
  lemma {:induction false} WalkAvoids(n: Node, ancestors: seq<Node>, x: Context, l: Node)
    requires WellFormed(n) && Open(n, l) && l.IsString() && Seeded(l, x.seeds)
    ensures Avoids(CommandsOf(Walk(n, ancestors, x)), l)
    decreases n, 1
  {
    if n != l {
      var c :| c in n.children && c.named && Open(c, l);
      WalkAllAvoids(n.children, ancestors + [n], x, n.start, n.end, c, l);
    }
  }

  predicate Avoids(cs: seq<Command>, l: Node) {
    forall k :: 0 <= k < |cs| ==> l.end <= cs[k].start || cs[k].end <= l.start
  }

  lemma {:induction false} WalkAllAvoids(ns: seq<Node>, ancestors: seq<Node>, x: Context, lo: nat, hi: nat, c: Node,
          l: Node)
    requires WellFormedAll(ns, lo, hi) && c in ns && c.named && Open(c, l) && l.IsString() && Seeded(l, x.seeds)
    ensures Avoids(CommandsOf(WalkAll(ns, ancestors, x)), l)
    decreases ns, 0
  {
    hide Walk;
    hide Open;
    hide WellFormed;
    var head := if ns[0].named then Walk(ns[0], ancestors, x) else [];
    var rest := WalkAll(ns[1..], ancestors, x);
    CommandsConcat(head, rest);
    WalkWithin(ns[0], ancestors, x);
    WalkAllWithin(ns[1..], ancestors, x, ns[0].end, hi);
    ChildrenWellFormed(ns, lo, hi, c);
    OpenWithin(c, l);
    if ns[0] == c {
      WalkAvoids(c, ancestors, x, l);
    } else {
      ChildrenWellFormed(ns[1..], ns[0].end, hi, c);
      WalkAllAvoids(ns[1..], ancestors, x, ns[0].end, hi, c, l);
    }
  }

  lemma SeedPlaced(root: Node, lang: Language, parse: Parser)
    requires WellFormed(root) && !root.IsString() && root.kind != Comment && EvaluatedCommands(root, lang, parse).Ok?
    ensures var seeds := EvaluatedCommands(root, lang, parse).value;
            && |seeds| <= 1 && Payload(seeds) <= MAX_PAYLOAD_BYTES
            && (seeds != [] ==> HasLiteral(root, lang, seeds[0]))
  {
    hide Open;
    hide WellFormed;
    hide Commands;
    hide IsValueOf;
    CommandsRooted(Significant(root.children), lang, map[], parse, root);
    var seeds := EvaluatedCommands(root, lang, parse).value;
    PayloadOfOne(seeds);
  }

  lemma PayloadOfOne(cs: seq<Command>)
    requires |cs| <= 1
    ensures Payload(cs) == if cs == [] then 0 else Utf8Length(cs[0].command)
  {
    if cs != [] { assert cs[1..] == []; }
  }

  lemma AvoidsApart(cs: seq<Command>, l: Node, seed: Command)
    requires Avoids(cs, l) && SameRange(l, seed)
    ensures forall k :: 0 <= k < |cs| ==> Apart(seed, cs[k])
  {}

  lemma OneSeedApart(root: Node, x: Context, c: Command)
    requires x.seeds == [c] && Payload([c]) <= MAX_PAYLOAD_BYTES && c.start < c.end
    requires forall k :: 0 <= k < |CommandsOf(Walk(root, [], x))| ==> Apart(c, CommandsOf(Walk(root, [], x))[k])
    ensures SeedsApart(root, x)
  {
    hide Walk;
    hide CommandsOf;
    hide Payload;
    hide Apart;
  }

  lemma NoSeedApart(root: Node, x: Context)
    requires x.seeds == []
    ensures SeedsApart(root, x)
  {
    hide Walk;
    hide CommandsOf;
    hide Apart;
  }

  lemma StringRange(l: Node)
    requires WellFormed(l) && l.IsString()
    ensures l.start < l.end
  {}

  /** What the evaluated dependency reports can seed the walk. */
  lemma SeedsFit(root: Node, lang: Language, parse: Parser, starts: seq<nat>)
    requires WellFormed(root) && !root.IsString() && root.kind != Comment && EvaluatedCommands(root, lang, parse).Ok?
    ensures SeedsApart(root, Context(lang, starts, EvaluatedCommands(root, lang, parse).value))
  {
    hide *;
    var seeds := EvaluatedCommands(root, lang, parse).value;
    SeedPlaced(root, lang, parse);
    var x := Context(lang, starts, seeds);
    if seeds == [] {
      NoSeedApart(root, x);
    } else {
      var l := SeedLiteral(root, lang, seeds);
      WalkAvoids(root, [], x, l);
      OpenWithin(root, l);
      StringRange(l);
      AvoidsApart(CommandsOf(Walk(root, [], x)), l, seeds[0]);
      OneSeedApart(root, x, seeds[0]);
    }
  }

  lemma SeedLiteral(root: Node, lang: Language, seeds: seq<Command>) returns (l: Node)
    requires |seeds| == 1 && HasLiteral(root, lang, seeds[0])
    ensures Open(root, l) && l.IsString() && SameRange(l, seeds[0]) && Seeded(l, seeds) && seeds == [seeds[0]]
    ensures seeds[0].start == l.start && seeds[0].end == l.end
  {
    hide Open;
    var p;
    l, p :| Open(root, l) && l.IsString() && IsValueOf(l, p, root, lang, seeds[0]);
  }

  // ---------------------------------------------------------- the analysis

  /** What is known about the source from elsewhere: its tree and where sinks are called. */
  datatype Source = Source(code: string, parse: Parser, namedSinks: Option<seq<nat>>, executingSinks: seq<nat>)

  /** The parser's trees nest properly and their root is a program. */
  predicate Parses(s: Source, lang: Language) {
    var tree := s.parse(s.code, lang);
    tree.Some? ==> WellFormed(tree.value) && !tree.value.IsString() && tree.value.kind != Comment
  }

  predicate Documentation(root: Node, lang: Language) {
    CheckExpression(root, lang, 0, State(map[], [], MAX_STEPS)).Some?
  }

  /** The answer of the analysis, case by case. */
  ghost predicate Analyzes(s: Source, lang: Language, allowDocumentation: bool, r: Result<seq<Command>, Limit>)
    requires Parses(s, lang)
  {
    var tree := s.parse(s.code, lang);
    if Utf8Length(s.code) > MAX_SOURCE_BYTES then r == Err(SourceBytes)
    else if tree.None? then r == Err(SourceGrammar)
    else
      var root := tree.value;
      var admitted := Admit([root] + Below(root), 0);
      var seeds := EvaluatedCommands(root, lang, s.parse);
      if admitted == TooLong then r == Err(SourceNodes)
      else if admitted == Broken then r == Err(SourceGrammar)
      else if allowDocumentation && Documentation(root, lang) then r == Ok([])
      else if s.namedSinks.None? then r == Err(NamedSinks)
      else if seeds.Err? then r == Err(seeds.error)
      else Collects(root, Context(lang, SortStarts(s.namedSinks.value + s.executingSinks), seeds.value), r)
  }

  /** `interpreter_literal_shell_commands_inner`. */
  method ShellCommandsInner(s: Source, lang: Language, allowDocumentation: bool)
    returns (r: Result<seq<Command>, Limit>)
    requires Parses(s, lang)
    ensures Analyzes(s, lang, allowDocumentation, r)
  {
    hide WellFormed;
    hide Admit;
    hide Below;
    hide EvaluatedCommands;
    hide Collects;
    hide Utf8Length;
    hide CheckExpression;
    if Utf8Length(s.code) > MAX_SOURCE_BYTES {
      return Err(SourceBytes);
    }
    var tree := s.parse(s.code, lang);
    if tree.None? {
      return Err(SourceGrammar);
    }
    var root := tree.value;
    var admitted := AdmitTree(root);
    if admitted == TooLong {
      return Err(SourceNodes);
    }
    if admitted == Broken {
      return Err(SourceGrammar);
    }
    if allowDocumentation {
      var proof := new DocumentationProof(lang);
      var kind := proof.Expression(root, 0);
      if kind.Some? {
        return Ok([]);
      }
    }
    if s.namedSinks.None? {
      return Err(NamedSinks);
    }
    var starts := SortStarts(s.namedSinks.value + s.executingSinks);
    var seeds := EvaluatedLiteralCommands(root, lang, s.parse);
    if seeds.Err? {
      return Err(seeds.error);
    }
    SeedsFit(root, lang, s.parse, starts);
    r := Collect(root, Context(lang, starts, seeds.value));
  }

  // ---------------------------------------------------------------- the limits

  /** The program's nodes in source order. */
  function NodesOf(root: Node): seq<Node> {
    [root] + Below(root)
  }

  ghost predicate Admissible(s: Source, lang: Language) {
    && Utf8Length(s.code) <= 262144 && s.parse(s.code, lang).Some?
    && var nodes := NodesOf(s.parse(s.code, lang).value); |nodes| <= 4096 && forall d :: d in nodes ==> C.IsHealthy(d)
  }

  /** The limit that an error names, broken. */
  ghost predicate IsDue(l: Limit, s: Source, lang: Language) {
    var tree := s.parse(s.code, lang);
    match l
    case SourceBytes => Utf8Length(s.code) > 262144
    case SourceGrammar => tree.None? || exists d :: d in NodesOf(tree.value) && !C.IsHealthy(d)
    case SourceNodes => tree.Some? && |NodesOf(tree.value)| > 4096
    case NamedSinks => s.namedSinks.None?
    case EvaluatedBytes => tree.Some? && EvaluatedCommands(tree.value, lang, s.parse) == Err(l)
    case EvaluatedNodes => tree.Some? && EvaluatedCommands(tree.value, lang, s.parse) == Err(l)
    case _ =>
      && tree.Some? && s.namedSinks.Some? && EvaluatedCommands(tree.value, lang, s.parse).Ok?
      && var x := WalkContext(s, tree.value, lang); Exceeds(l, x.seeds, Walk(tree.value, [], x))
  }

  lemma {:induction false} CommandsLimits(ns: seq<Node>, lang: Language, names: Names, parse: Parser)
    ensures var r := Commands(ns, lang, names, parse);
            r.Err? ==> r.error == EvaluatedBytes || r.error == EvaluatedNodes
    decreases |ns|
  {
    hide *;
    CommandsNext(ns, lang, names, parse);
    if ns != [] && Unwrap(ns[0], 4).Some? {
      var n := Unwrap(ns[0], 4).value;
      if n.IsCall() {
        if EvaluatedSource(n, lang).Some? { C.LimitsExact(EvaluatedSource(n, lang).value, lang, names, parse); }
      } else if Recorded(n, lang, names).Some? {
        CommandsLimits(ns[1..], lang, Recorded(n, lang, names).value, parse);
      }
    }
  }

  lemma EvaluatedLimits(root: Node, lang: Language, parse: Parser)
    ensures var r := EvaluatedCommands(root, lang, parse);
            r.Err? ==> r.error == EvaluatedBytes || r.error == EvaluatedNodes
  {
    CommandsLimits(Significant(root.children), lang, map[], parse);
    hide Commands;
    hide NoHoisting;
  }

  /** Case by case, for a program that is parsed. */
  lemma AnalysisCases(s: Source, lang: Language, allowDocumentation: bool, r: Result<seq<Command>, Limit>, root: Node)
    requires Parses(s, lang) && Analyzes(s, lang, allowDocumentation, r) && s.parse(s.code, lang) == Some(root)
    requires Utf8Length(s.code) <= MAX_SOURCE_BYTES
    ensures Admit(NodesOf(root), 0) == TooLong ==> r == Err(SourceNodes)
    ensures Admit(NodesOf(root), 0) == Broken ==> r == Err(SourceGrammar)
    ensures Admit(NodesOf(root), 0) == Whole && !(allowDocumentation && Documentation(root, lang)) ==>
              if s.namedSinks.None? then r == Err(NamedSinks)
              else if EvaluatedCommands(root, lang, s.parse).Err? then
                r == Err(EvaluatedCommands(root, lang, s.parse).error)
              else WellFormed(root) && Collects(root, WalkContext(s, root, lang), r)
    ensures Admit(NodesOf(root), 0) == Whole && allowDocumentation && Documentation(root, lang) ==> r == Ok([])
  {
    hide WellFormed;
    hide Admit;
    hide Below;
    hide EvaluatedCommands;
    hide Collects;
    hide Utf8Length;
    hide Documentation;
  }

  lemma CollectedFits(root: Node, x: Context, r: Result<seq<Command>, Limit>)
    requires WellFormed(root) && Collects(root, x, r)
    ensures r.Ok? ==> |r.value| <= 128 && Payload(r.value) <= 65536
    ensures r.Err? ==>
              Exceeds(r.error, x.seeds, Walk(root, [], x)) && r.error in {LiteralCount, LiteralBytes, AggregateBytes}
  {
    hide Walk;
    hide WellFormed;
    hide Payload;
    hide CommandsOf;
    if r.Ok? {
      var cs := CommandsOf(Walk(root, [], x));
      PlacedSize(x.seeds, cs);
      FewerCommands(Walk(root, [], x));
    }
  }

  lemma {:induction false} FewerCommands(fs: seq<Found>)
    ensures |CommandsOf(fs)| <= |fs|
  {
    if fs != [] { FewerCommands(fs[1..]); }
  }

  lemma {:induction false} InsertSize(cs: seq<Command>, c: Command)
    requires InOrder(cs)
    ensures |Insert(cs, c)| == |cs| + 1 && Payload(Insert(cs, c)) == Payload(cs) + Utf8Length(c.command)
    decreases |cs|
  {
    hide Utf8Length;
    InsertStep(cs, c);
    if cs == [] || c.start < cs[0].start {
      assert ([c] + cs)[1..] == cs;
    } else {
      InsertSize(cs[1..], c);
      var rest := Insert(cs[1..], c);
      hide Insert;
      assert ([cs[0]] + rest)[1..] == rest;
    }
  }

  lemma PlacedSize(seeds: seq<Command>, cs: seq<Command>)
    requires InOrder(cs)
    ensures |Placed(seeds, cs)| <= |seeds| + |cs| && Payload(Placed(seeds, cs)) <= Payload(seeds) + Payload(cs)
  {
    hide Insert;
    hide Utf8Length;
    if seeds != [] { InsertSize(cs, seeds[0]); }
  }

  lemma NoPayload()
    ensures Payload([]) == 0
  {}

  lemma EarlyCases(s: Source, lang: Language, allowDocumentation: bool, r: Result<seq<Command>, Limit>)
    requires Parses(s, lang) && Analyzes(s, lang, allowDocumentation, r)
    ensures Utf8Length(s.code) > 262144 ==> r == Err(SourceBytes)
    ensures Utf8Length(s.code) <= 262144 && s.parse(s.code, lang).None? ==> r == Err(SourceGrammar)
  {
    hide WellFormed;
    hide Admit;
    hide Below;
    hide EvaluatedCommands;
    hide Collects;
    hide Utf8Length;
    hide Documentation;
  }

  /** A limit that is named is broken, and an answer keeps to every limit. */
  lemma LimitsAreExact(s: Source, lang: Language, allowDocumentation: bool, r: Result<seq<Command>, Limit>)
    requires Parses(s, lang) && Analyzes(s, lang, allowDocumentation, r)
    ensures r.Err? ==> IsDue(r.error, s, lang)
    ensures r.Err? && r.error !in {SourceBytes, SourceGrammar, SourceNodes} ==>
              !(allowDocumentation && Documentation(s.parse(s.code, lang).value, lang))
    ensures r.Ok? ==> Admissible(s, lang) && |r.value| <= 128 && Payload(r.value) <= 65536
  {
    hide Analyzes;
    hide Parses;
    hide Utf8Length;
    hide WellFormed;
    hide Admit;
    hide EvaluatedCommands;
    hide WalkContext;
    hide Collects;
    hide Exceeds;
    hide Walk;
    hide Payload;
    hide Below;
    hide C.IsHealthy;
    hide Documentation;
    EarlyCases(s, lang, allowDocumentation, r);
    if Utf8Length(s.code) <= 262144 && s.parse(s.code, lang).Some? {
      var root := s.parse(s.code, lang).value;
      AnalysisCases(s, lang, allowDocumentation, r, root);
      C.AdmitExact(NodesOf(root), 0);
      EvaluatedLimits(root, lang, s.parse);
      NoPayload();
      if WellFormed(root) && s.namedSinks.Some? && EvaluatedCommands(root, lang, s.parse).Ok? {
        if Collects(root, WalkContext(s, root, lang), r) { CollectedFits(root, WalkContext(s, root, lang), r); }
      }
    }
  }

  // ------------------------------------------------- what the answer consists of

  lemma {:induction false} RouteInTree(path: seq<Node>, ancestors: seq<Node>, x: Context, k: nat)
    requires IsRoute(path, ancestors, x) && k < |path|
    ensures InTree(path[0], path[k])
    ensures k > 0 ==> path[k] in path[k - 1].children
    decreases |path|
  {
    hide Passes;
    hide Eligible;
    hide Below;
    if k > 0 {
      RouteInTree(path[1..], ancestors + [path[0]], x, k - 1);
      BelowChild(path[0], path[1]);
    }
  }

  /** What a route carries is the value of a literal of the tree. */
  lemma CarriedIsValue(path: seq<Node>, root: Node, x: Context, c: Command) returns (l: Node, p: Node)
    requires Carries(path, root, x, c) && !root.IsString()
    ensures l.IsString() && IsValueOf(l, p, root, x.lang, c) && Substitutes(c.command)
  {
    hide StaticLiteral;
    hide InTree;
    RouteEnds(path, [], x);
    l := Last(path);
    p := path[|path| - 2];
    RouteInTree(path, [], x, |path| - 1);
    RouteInTree(path, [], x, |path| - 2);
    hide IsRoute;
    assert ParentOf([] + Front(path)) == Some(p);
  }

  lemma {:induction false} RouteEnds(path: seq<Node>, ancestors: seq<Node>, x: Context)
    requires IsRoute(path, ancestors, x)
    ensures Last(path).IsString() && (!path[0].IsString() ==> |path| > 1)
    decreases |path|
  {
    hide Passes;
    if |path| > 1 { RouteEnds(path[1..], ancestors + [path[0]], x); }
  }

  lemma PlacedHolds(seeds: seq<Command>, cs: seq<Command>, c: Command)
    requires InOrder(cs) && |seeds| <= 1
    ensures c in Placed(seeds, cs) <==> c in seeds || c in cs
  {
    hide InOrder;
    hide Insert;
    if seeds != [] {
      InsertKeeps(cs, seeds[0]);
      SameMembers(Insert(cs, seeds[0]), cs, seeds[0], c);
    }
  }

  /** `c` comes from a literal of the tree at its place, and is what that literal is worth when the
      program runs if and only if nothing in it is misread; otherwise it is longer by what is. */
  ghost predicate IsRunTimeValue(root: Node, lang: Language, h: ScriptRun.Host, c: Command) {
    exists l, p :: HasValue(l, p, root, lang, h, c)
  }

  ghost predicate HasValue(l: Node, p: Node, root: Node, lang: Language, h: ScriptRun.Host, c: Command) {
    && InTree(root, p) && l in p.children && l.IsString() && SameRange(l, c)
    && var v := ScriptRun.StringValue(l, Some(p), lang, h);
       (v == c.command <==> NodeMisreadings(l, lang) == 0) && |c.command| == |v| + NodeMisreadings(l, lang)
  }

  lemma ValueAtRunTime(l: Node, p: Node, root: Node, lang: Language, h: ScriptRun.Host, c: Command)
    requires ScriptRun.Honest(h) && IsValueOf(l, p, root, lang, c) && l.IsString()
    ensures IsRunTimeValue(root, lang, h, c)
  {
    hide StaticLiteral;
    hide ScriptRun.StringValue;
    hide ScriptRun.Honest;
    hide InTree;
    hide NodeMisreadings;
    BindingSoundness.StaticIsValue(l, Some(p), lang, 0, h);
    assert HasValue(l, p, root, lang, h, c);
  }

  /** The context of the walk of a source. */
  function WalkContext(s: Source, root: Node, lang: Language): Context
    requires s.namedSinks.Some? && EvaluatedCommands(root, lang, s.parse).Ok?
  {
    Context(lang, SortStarts(s.namedSinks.value + s.executingSinks), EvaluatedCommands(root, lang, s.parse).value)
  }

  lemma AnsweredByWalk(s: Source, lang: Language, allowDocumentation: bool, r: Result<seq<Command>, Limit>)
    returns (root: Node)
    requires Parses(s, lang) && Analyzes(s, lang, allowDocumentation, r) && r.Ok?
    ensures s.parse(s.code, lang) == Some(root) && WellFormed(root) && !root.IsString() && root.kind != Comment
    ensures allowDocumentation && Documentation(root, lang) ==> r.value == []
    ensures !(allowDocumentation && Documentation(root, lang)) ==>
              && s.namedSinks.Some? && EvaluatedCommands(root, lang, s.parse).Ok?
              && Collects(root, WalkContext(s, root, lang), r)
  {
    hide WellFormed;
    hide Admit;
    hide Below;
    hide EvaluatedCommands;
    hide Collects;
    hide Utf8Length;
    hide Documentation;
    root := s.parse(s.code, lang).value;
  }

  lemma CollectedHolds(root: Node, x: Context, r: Result<seq<Command>, Limit>, c: Command)
    requires WellFormed(root) && Collects(root, x, r) && r.Ok? && |x.seeds| <= 1
    ensures c in r.value <==> c in x.seeds || c in CommandsOf(Walk(root, [], x))
  {
    hide WellFormed;
    hide Walk;
    hide CommandsOf;
    hide Placed;
    hide Disjoint;
    hide InOrder;
    PlacedHolds(x.seeds, CommandsOf(Walk(root, [], x)), c);
  }

  /** The answer, exactly: a documentation program has no commands when those are allowed; any other
      admitted one has the evaluated dependency's and those that some route to a literal carries. */
  lemma AnswerIsExact(s: Source, lang: Language, allowDocumentation: bool, r: Result<seq<Command>, Limit>)
    requires Parses(s, lang) && Analyzes(s, lang, allowDocumentation, r) && r.Ok?
    ensures s.parse(s.code, lang).Some?
    ensures var root := s.parse(s.code, lang).value;
            if allowDocumentation && Documentation(root, lang) then r.value == []
            else
              && s.namedSinks.Some? && EvaluatedCommands(root, lang, s.parse).Ok?
              && forall c :: c in r.value <==>
                   || c in EvaluatedCommands(root, lang, s.parse).value
                   || exists path :: Carries(path, root, WalkContext(s, root, lang), c)
  {
    hide *;
    var root := AnsweredByWalk(s, lang, allowDocumentation, r);
    if !(allowDocumentation && Documentation(root, lang)) {
      var x := WalkContext(s, root, lang);
      ContextIsExact(s, root, lang);
      SeedPlaced(root, lang, s.parse);
      forall c ensures c in r.value <==> c in x.seeds || exists path :: Carries(path, root, x, c) {
        CollectedHolds(root, x, r, c);
        WalkIsExact(root, x, c);
      }
    }
  }

  /** The walk knows the sinks of both kinds, and starts with the evaluated dependency's command. */
  lemma ContextIsExact(s: Source, root: Node, lang: Language)
    requires s.namedSinks.Some? && EvaluatedCommands(root, lang, s.parse).Ok?
    ensures WalkContext(s, root, lang).seeds == EvaluatedCommands(root, lang, s.parse).value
    ensures WalkContext(s, root, lang).lang == lang && Ascending(WalkContext(s, root, lang).starts)
    ensures forall y :: y in WalkContext(s, root, lang).starts <==> y in s.namedSinks.value || y in s.executingSinks
  {}

  /** Every command of an answer is, at the reported place, what a literal of the program is worth when
      it runs, unless braces of that literal are misread. */
  lemma AnswersAreLiterals(s: Source, lang: Language, allowDocumentation: bool, r: Result<seq<Command>, Limit>,
                           h: ScriptRun.Host, c: Command)
    requires Parses(s, lang) && Analyzes(s, lang, allowDocumentation, r) && r.Ok? && c in r.value && ScriptRun.Honest(h)
    ensures s.parse(s.code, lang).Some? && IsRunTimeValue(s.parse(s.code, lang).value, lang, h, c)
  {
    hide *;
    AnswerIsExact(s, lang, allowDocumentation, r);
    var root := AnsweredByWalk(s, lang, allowDocumentation, r);
    var x := WalkContext(s, root, lang);
    ContextIsExact(s, root, lang);
    var l, p;
    if c in x.seeds {
      SeedPlaced(root, lang, s.parse);
      l, p := SeedIsValue(root, lang, x.seeds, c);
    } else {
      var path :| Carries(path, root, x, c);
      l, p := CarriedIsValue(path, root, x, c);
    }
    ValueAtRunTime(l, p, root, lang, h, c);
  }

  lemma SeedIsValue(root: Node, lang: Language, seeds: seq<Command>, c: Command) returns (l: Node, p: Node)
    requires |seeds| <= 1 && c in seeds && HasLiteral(root, lang, seeds[0])
    ensures l.IsString() && IsValueOf(l, p, root, lang, c)
  {
    hide IsValueOf;
    hide Open;
    l, p :| Open(root, l) && l.IsString() && IsValueOf(l, p, root, lang, c);
  }
}

/** What the constant propagation of LiteralBindings reports is what the program does, as ScriptRun
    runs it. */
module BindingSoundness {
  import opened Decoding
  import opened LiteralBindings
  import opened ScriptRun
  import opened Spelling
  import opened Syntax
  import opened Wrappers

  // ------------------------------------------------------------ the relation

  function RightSide(n: Node): Option<Node> { n.GetEither(RightField, ValueField) }

  /** What the binding of `x` by the statement `n` is at run time: a module is the library it is named
      after, and a text what its literal is worth. */
  predicate Represents(x: string, b: Binding, n: Node, v: ScriptRun.Value, lang: Language, h: Host) {
    match b
    case TextBinding(s, _, _) =>
      RightSide(n).Some? && StaticLiteral(RightSide(n).value, Some(n), lang, 0) == Some(s)
        && v == LiteralValue(RightSide(n).value, n, lang, h)
    case ModuleBinding(PythonOs) => lang == Python && (x == "os" || x == "posix") && v == LibraryV(x)
    case ModuleBinding(PythonSubprocess) => lang == Python && x == "subprocess" && v == LibraryV(x)
    case ModuleBinding(NodeChildProcess) => lang == JavaScript && v == LibraryV("child_process")
  }

  predicate TracksName(x: string, b: Binding, n: Node, st: State, lang: Language, h: Host) {
    x in st.env && x !in st.dead && Represents(x, b, n, st.env[x], lang, h)
  }

  /** The recorded names that a script can assign have their recorded values, every other name is as
      it was at the start, and there are at most 128 recorded ones. `nodes` are their statements. */
  ghost predicate Tracks(names: Names, nodes: map<string, Node>, st: State, start: State, lang: Language, h: Host) {
    && |names| <= MAX_CANDIDATES && names.Keys == nodes.Keys
    && (forall x :: x in names ==> IsAsciiName(x) && !Protected(x))
    && (forall x :: x in names && x !in h.fixed ==> TracksName(x, names[x], nodes[x], st, lang, h))
    && (forall x :: x !in names || x in h.fixed ==> UseOf(x, st) == UseOf(x, start))
  }

  /** Nothing has a value of interest at the start. */
  predicate IsPlain(start: State) {
    forall x :: x in start.env ==> start.env[x].OtherV?
  }

  /** The built-in functions that the analysis relies on are the language's own at the start. */
  predicate Free(start: State, lang: Language) {
    && UseOf("eval", start) == Builtin
    && UseOf(if lang == Python then "exec" else "require", start) == Builtin
  }

  /** A JavaScript program that cannot load a module. */
  predicate Blocked(start: State, lang: Language) {
    lang == JavaScript && UseOf("require", start) != Builtin
  }

  /** A JavaScript program that can load modules, and declares `eval` further down. */
  predicate Late(start: State, lang: Language) {
    lang == JavaScript && UseOf("require", start) == Builtin && UseOf("eval", start) == Dead
  }

  /** Without the loader no module is ever bound. */
  predicate Loads(names: Names, start: State, lang: Language) {
    Blocked(start, lang) ==> forall x :: x in names ==> names[x].TextBinding?
  }

  /** The program raises, or does something else first. */
  predicate Stuck(b: Behavior) { b.Missing? || b.Raised? || b.Unknown? }

  lemma PlainIsItself(x: string, h: Host)
    requires Honest(h) && IsAsciiName(x)
    ensures h.canon(x) == x
  {
    assert IsPlainName(x);
  }

  lemma ProtectedNames()
    ensures Protected("eval") && Protected("exec") && Protected("require")
  {}

  lemma ProtectedUse(x: string, names: Names, nodes: map<string, Node>, st: State, start: State, lang: Language,
                     h: Host)
    requires Tracks(names, nodes, st, start, lang, h) && Protected(x)
    ensures UseOf(x, st) == UseOf(x, start)
  {}

  lemma TrackedUse(x: string, names: Names, nodes: map<string, Node>, st: State, start: State, lang: Language, h: Host)
    requires Tracks(names, nodes, st, start, lang, h) && x in names && Honest(h)
    ensures h.canon(x) == x && x in nodes
    ensures x in h.fixed ==> UseOf(x, st) == UseOf(x, start)
    ensures x !in h.fixed ==>
              x in st.env && UseOf(x, st) == Bound(st.env[x]) && Represents(x, names[x], nodes[x], st.env[x], lang, h)
  {
    hide Represents;
    assert x !in h.fixed ==> TracksName(x, names[x], nodes[x], st, lang, h);
    PlainIsItself(x, h);
  }

  // ---------------------------------------------------------------- literals

  /** What the decoder vouches for is a literal; its value in any honest host is the decoded one if and
      only if nothing is misread, and shorter by the misread braces otherwise. */
  lemma {:induction false} StaticIsValue(n: Node, parent: Option<Node>, lang: Language, depth: nat, h: Host)
    requires Honest(h) && StaticLiteral(n, parent, lang, depth).Some?
    ensures n.IsString()
    ensures Agrees(StaticLiteral(n, parent, lang, depth), Some(StringValue(n, parent, lang, h)),
              NodeMisreadings(n, lang))
    ensures StringValue(n, parent, lang, h) == StaticLiteral(n, parent, lang, depth).value <==>
              NodeMisreadings(n, lang) == 0
    decreases n, 1
  {
    hide LiteralText;
    hide TextMisreadings;
    hide Spells;
    hide Interpolated;
    hide Tagged;
    hide IsNaming;
    if n.kind == ConcatenatedString {
      JoinedIsValue(n.children, n, lang, depth, h);
    } else {
      TextIsValue(n.text, lang, h);
    }
  }

  lemma TextIsValue(t: string, lang: Language, h: Host)
    requires Honest(h) && LiteralText(t, lang).Some?
    ensures Agrees(LiteralText(t, lang), Some(h.text(t, lang)), TextMisreadings(t, lang))
  {
    hide LiteralText;
    hide TrueText;
    hide TextMisreadings;
    hide Spells;
    hide IsNaming;
    TextsAgree(t, lang);
    TrueTextExact(t, TrueText(t, lang).value, lang);
  }

  lemma AgreeJoined(a: string, a': string, m: nat, b: string, b': string, n: nat)
    requires Agrees(Some(a), Some(a'), m) && Agrees(Some(b), Some(b'), n)
    ensures Agrees(Some(a + b), Some(a' + b'), m + n)
  {}

  lemma {:induction false} JoinedIsValue(ns: seq<Node>, parent: Node, lang: Language, depth: nat, h: Host)
    requires Honest(h) && JoinLiterals(ns, parent, lang, depth).Some?
    ensures Agrees(JoinLiterals(ns, parent, lang, depth), Some(Pieces(ns, parent, lang, h)), JoinMisreadings(ns, lang))
    decreases ns, 0
  {
    hide *;
    JoinCases(ns, parent, lang, depth, h);
    if ns == [] {
      NothingJoined();
    } else {
      JoinedIsValue(ns[1..], parent, lang, depth, h);
      if ns[0].named && ns[0].kind != Comment {
        StaticIsValue(ns[0], Some(parent), lang, depth + 1, h);
        AgreeJoined(StaticLiteral(ns[0], Some(parent), lang, depth + 1).value,
            StringValue(ns[0], Some(parent), lang, h),
                    NodeMisreadings(ns[0], lang), JoinLiterals(ns[1..], parent, lang, depth).value,
                    Pieces(ns[1..], parent, lang, h), JoinMisreadings(ns[1..], lang));
      }
    }
  }

  /** Adjacent literals, one on. */
  lemma JoinCases(ns: seq<Node>, parent: Node, lang: Language, depth: nat, h: Host)
    requires JoinLiterals(ns, parent, lang, depth).Some?
    ensures var r, v, m := JoinLiterals(ns, parent, lang, depth).value, Pieces(ns, parent, lang, h),
              JoinMisreadings(ns, lang);
            if ns == [] then r == [] && v == [] && m == 0
            else
              var r', v', m' := JoinLiterals(ns[1..], parent, lang, depth), Pieces(ns[1..], parent, lang, h),
                  JoinMisreadings(ns[1..], lang);
              && r'.Some?
              && if !ns[0].named || ns[0].kind == Comment then r == r'.value && v == v' && m == m'
                 else
                   var head := StaticLiteral(ns[0], Some(parent), lang, depth + 1);
                   && head.Some? && r == head.value + r'.value
                   && v == StringValue(ns[0], Some(parent), lang, h) + v' && m == NodeMisreadings(ns[0], lang) + m'
  {
    hide StaticLiteral;
    hide StringValue;
    hide NodeMisreadings;
  }

  lemma NothingJoined()
    ensures Agrees(Some([]), Some([]), 0)
  {}

  lemma ScriptTextIsRead(t: string)
    ensures TextMisreadings(t, JavaScript) == 0
  {
    if Split(t, JavaScript).Some? {
      ShapeOfLiteral(t, JavaScript);
      hide Split;
      hide Misreadings;
    }
  }

  /** Nothing is misread in JavaScript. */
  lemma {:induction false} ScriptIsRead(n: Node)
    ensures NodeMisreadings(n, JavaScript) == 0
    decreases n, 1
  {
    hide TextMisreadings;
    if n.kind == ConcatenatedString { PiecesAreRead(n.children); } else { ScriptTextIsRead(n.text); }
  }

  lemma {:induction false} PiecesAreRead(ns: seq<Node>)
    ensures JoinMisreadings(ns, JavaScript) == 0
    decreases ns, 0
  {
    hide TextMisreadings;
    if ns != [] {
      ScriptIsRead(ns[0]);
      PiecesAreRead(ns[1..]);
    }
  }

  // -------------------------------------------------------------- statements

  lemma {:induction false} ExecSignificant(ns: seq<Node>, lang: Language, st: State, h: Host)
    ensures ExecAll(ns, lang, st, h) == ExecAll(Significant(ns), lang, st, h)
    decreases |ns|
  {
    hide Exec;
    if ns != [] {
      if !ns[0].named || ns[0].kind == Comment {
        assert Significant(ns) == Significant(ns[1..]);
        ExecSignificant(ns[1..], lang, st, h);
      } else {
        assert Significant(ns) == [ns[0]] + Significant(ns[1..]);
        assert Significant(ns)[1..] == Significant(ns[1..]);
        match Exec(ns[0], lang, st, h)
        case Halt(_) =>
        case Go(st') => ExecSignificant(ns[1..], lang, st', h);
      }
    }
  }

  lemma ExecOne(n: Node, lang: Language, st: State, h: Host)
    requires n.named && n.kind != Comment
    ensures ExecAll([n], lang, st, h) == Exec(n, lang, st, h)
  {
    hide Exec;
  }

  /** A statement and what is inside its wrappers run alike. */
  lemma {:induction false} UnwrapRuns(n: Node, tries: nat, lang: Language, st: State, h: Host)
    requires Unwrap(n, tries).Some?
    ensures Exec(n, lang, st, h) == Exec(Unwrap(n, tries).value, lang, st, h)
    ensures Peel(n) == Unwrap(n, tries).value
    decreases tries
  {
    hide Exec;
    hide ExecAll;
    hide IsWrapper;
    hide IsStatementOf;
    hide Significant;
    SameWrappers(n.kind);
    if IsWrapper(n.kind) {
      var parts := Significant(n.children);
      assert parts == [parts[0]] && parts[0] in parts;
      WrapperRuns(n, lang, st, h);
      ExecSignificant(n.children, lang, st, h);
      ExecOne(parts[0], lang, st, h);
      UnwrapRuns(parts[0], tries - 1, lang, st, h);
    }
  }

  lemma SameWrappers(k: Kind)
    ensures IsWrapper(k) <==> IsStatementOf(k)
  {}

  lemma WrapperRuns(n: Node, lang: Language, st: State, h: Host)
    requires IsWrapper(n.kind)
    ensures Exec(n, lang, st, h) == ExecAll(n.children, lang, st, h)
  {
    hide ExecAll;
  }

  // ---------------------------------------------------------------- bindings

  lemma LibraryNames()
    ensures Library("child_process") == "child_process" && Library("node:child_process") == "child_process"
  {
    assert "child_process"[0] == 'c' && "node:"[0] == 'n';
  }

  lemma BuiltinNames(h: Host)
    requires Honest(h)
    ensures h.canon("require") == "require" && h.canon("eval") == "eval" && h.canon("exec") == "exec"
  {
    PlainIsItself("require", h);
    PlainIsItself("eval", h);
    PlainIsItself("exec", h);
  }

  /** The parts of a call taken for a module loader's. */
  lemma RequiredModuleParts(n: Node, lang: Language) returns (arguments: Option<Node>, name: Node)
    requires RequiredModule(n, lang).Some?
    ensures lang == JavaScript && n.kind == CallExpression && RequiredModule(n, lang).value == NodeChildProcess
    ensures n.Get(FunctionField).Some? && n.Get(FunctionField).value.kind == Identifier
    ensures n.Get(FunctionField).value.text == "require"
    ensures arguments == n.Get(ArgumentsField) && arguments.Some? && Significant(arguments.value.children) == [name]
    ensures var s := StaticLiteral(name, arguments, lang, 0);
            s == Some("child_process") || s == Some("node:child_process")
  {
    hide StaticLiteral;
    arguments := n.Get(ArgumentsField);
    name := Significant(arguments.value.children)[0];
    hide Significant;
  }

  /** Loading a library by the value of one string. */
  lemma LoadsOne(n: Node, arguments: Option<Node>, name: Node, st: State, h: Host)
    requires arguments == n.Get(ArgumentsField) && arguments.Some? && Significant(arguments.value.children) == [name]
    requires name.IsString()
    ensures UseOf("require", st) == Builtin ==>
              Load(n, st, h) == Known(LibraryV(Library(StringValue(name, arguments, JavaScript, h))))
    ensures UseOf("require", st) != Builtin ==> Load(n, st, h) == Stops(Raised) || Load(n, st, h) == Stops(Unknown)
  {
    hide StringValue;
    hide Library;
    hide Significant;
    hide UseOf;
  }

  lemma IsLoader(n: Node, h: Host)
    requires Honest(h) && n.kind == CallExpression && n.Get(FunctionField).Some?
    requires n.Get(FunctionField).value.kind == Identifier && n.Get(FunctionField).value.text == "require"
    ensures CallsLoader(n, JavaScript, h) && !n.IsString() && n.kind != Identifier
  {
    BuiltinNames(h);
    hide Honest;
  }

  /** What the analysis takes for a loaded module is one, as long as `require` is the loader. */
  lemma RequiredModuleLoads(n: Node, lang: Language, st: State, h: Host)
    requires Honest(h) && RequiredModule(n, lang).Some?
    ensures lang == JavaScript && RequiredModule(n, lang).value == NodeChildProcess
    ensures CallsLoader(n, lang, h) && !n.IsString() && n.kind != Identifier
    ensures UseOf("require", st) == Builtin ==> Load(n, st, h) == Known(LibraryV("child_process"))
    ensures UseOf("require", st) != Builtin ==> Load(n, st, h) == Stops(Raised) || Load(n, st, h) == Stops(Unknown)
  {
    hide *;
    var arguments, name := RequiredModuleParts(n, lang);
    StaticIsValue(name, arguments, lang, 0, h);
    ScriptIsRead(name);
    LibraryNames();
    IsLoader(n, h);
    LoadsOne(n, arguments, name, st, h);
  }

  /** A right-hand side that is recorded has the recorded kind of value. */
  lemma BoundValueRuns(x: string, n: Node, lang: Language, st: State, h: Host)
    requires Honest(h) && RightSide(n).Some? && BoundValue(RightSide(n).value, n, lang).Some?
    ensures var value := RightSide(n).value;
            var b, r := BoundValue(value, n, lang).value, ValueOf(value, n, lang, st, h);
            if b.TextBinding? || UseOf("require", st) == Builtin then r.Known? && Represents(x, b, n, r.v, lang, h)
            else lang == JavaScript && r.Stops? && Stuck(r.b)
  {
    hide StaticLiteral;
    hide RequiredModule;
    hide StringValue;
    hide CallsLoader;
    hide Honest;
    hide Load;
    hide Utf8Length;
    hide IsBytes;
    hide Agrees;
    var value := RightSide(n).value;
    if RequiredModule(value, lang).Some? {
      RequiredModuleLoads(value, lang, st, h);
    } else {
      StaticIsValue(value, Some(n), lang, 0, h);
    }
  }

  lemma PlainLibraries()
    ensures IsAsciiName("os") && IsAsciiName("posix") && IsAsciiName("subprocess")
    ensures !Protected("os") && !Protected("posix") && !Protected("subprocess")
  {}

  lemma ImportForm(name: string)
    ensures "import " <= "import " + name && ("import " + name)[7..] == name
  {}

  lemma ImportForms()
    ensures IsUndotted("os") && IsUndotted("posix") && IsUndotted("subprocess")
    ensures "import " + "os" == "import os" && "import " + "posix" == "import posix"
    ensures "import " + "subprocess" == "import subprocess"
  {}

  lemma ImportRuns(n: Node, st: State, h: Host)
    requires Honest(h) && ImportedModule(n.text).Some?
    ensures var i := ImportedModule(n.text).value;
            && IsAsciiName(i.0) && !Protected(i.0)
            && Represents(i.0, ModuleBinding(i.1), n, LibraryV(i.0), Python, h)
            && Import(n.text, st, h) == Go(Assign(st, i.0, LibraryV(i.0), h))
  {
    hide Honest;
    hide Assign;
    PlainLibraries();
    ImportForms();
    ImportForm(ImportedModule(n.text).value.0);
    hide IsUndotted;
    PlainIsItself(ImportedModule(n.text).value.0, h);
  }

  /** A recorded statement gives, at run time, that variable that value, if a script can assign it;
      only a JavaScript program that cannot load a module does not get past it. */
  lemma RecordedBindingRuns(n: Node, lang: Language, names: Names, nodes: map<string, Node>, st: State, start: State,
                            h: Host)
    returns (v: ScriptRun.Value)
    requires Honest(h) && Tracks(names, nodes, st, start, lang, h) && RecordedBinding(n, lang).Some?
    ensures var r := RecordedBinding(n, lang).value;
            && IsAsciiName(r.0) && !Protected(r.0)
            && if r.1.ModuleBinding? && Blocked(start, lang) then
                 Exec(n, lang, st, h).Halt? && Stuck(Exec(n, lang, st, h).b)
               else Represents(r.0, r.1, n, v, lang, h) && Exec(n, lang, st, h) == Go(Assign(st, r.0, v, h))
  {
    hide BoundValue;
    hide ValueOf;
    hide Import;
    hide ImportedModule;
    hide Honest;
    hide Named;
    hide IsAsciiName;
    hide UseOf;
    hide Assign;
    hide Represents;
    hide Tracks;
    hide Stuck;
    if lang == Python && n.kind == ImportStatement {
      ImportRuns(n, st, h);
      v := LibraryV(ImportedModule(n.text).value.0);
    } else {
      var x := n.GetEither(LeftField, NameField).value.text;
      PlainIsItself(x, h);
      BoundValueRuns(x, n, lang, st, h);
      ProtectedNames();
      ProtectedUse("require", names, nodes, st, start, lang, h);
      var r := ValueOf(RightSide(n).value, n, lang, st, h);
      v := if r.Known? then r.v else OtherV;
    }
  }

  lemma KeysAfter<V>(m: map<string, V>, x: string, v: V)
    requires |m| < MAX_CANDIDATES
    ensures m[x := v].Keys == m.Keys + {x} && |m[x := v]| <= MAX_CANDIDATES
  {
    assert m[x := v].Keys == m.Keys + {x};
    assert |m.Keys + {x}| <= |m.Keys| + 1;
  }

  lemma SameKeys<V>(m: map<string, V>, x: string, v: V)
    ensures m[x := v].Keys == m.Keys + {x}
  {}

  lemma RecordTracks(names: Names, nodes: map<string, Node>, st: State, start: State, lang: Language, h: Host,
                     x: string, b: Binding, n: Node, v: ScriptRun.Value)
    requires Tracks(names, nodes, st, start, lang, h) && |names| < MAX_CANDIDATES
    requires Represents(x, b, n, v, lang, h) && IsAsciiName(x) && !Protected(x)
    ensures Tracks(names[x := b], nodes[x := n], Assign(st, x, v, h), start, lang, h)
  {
    hide IsAsciiName;
    hide Represents;
    hide Protected;
    hide TracksName;
    hide UseOf;
    hide Assign;
    KeysAfter(names, x, b);
    SameKeys(nodes, x, n);
    var next, recorded, stated := Assign(st, x, v, h), names[x := b], nodes[x := n];
    forall y | y in recorded && y !in h.fixed ensures TracksName(y, recorded[y], stated[y], next, lang, h) {
      if y == x {
        AssignTracks(x, b, n, v, st, lang, h);
      } else {
        AssignKeeps(x, v, y, names[y], nodes[y], st, lang, h);
      }
    }
    forall y | y !in recorded || y in h.fixed ensures UseOf(y, next) == UseOf(y, start) {
      AssignUse(x, v, y, st, h);
    }
  }

  lemma AssignTracks(x: string, b: Binding, n: Node, v: ScriptRun.Value, st: State, lang: Language, h: Host)
    requires Represents(x, b, n, v, lang, h) && x !in h.fixed
    ensures TracksName(x, b, n, Assign(st, x, v, h), lang, h)
  {
    hide Represents;
  }

  lemma AssignKeeps(x: string, v: ScriptRun.Value, y: string, b: Binding, n: Node, st: State, lang: Language, h: Host)
    requires x != y && TracksName(y, b, n, st, lang, h)
    ensures TracksName(y, b, n, Assign(st, x, v, h), lang, h)
  {
    hide Represents;
  }

  lemma AssignUse(x: string, v: ScriptRun.Value, y: string, st: State, h: Host)
    requires x != y || y in h.fixed
    ensures UseOf(y, Assign(st, x, v, h)) == UseOf(y, st)
  {}

  // ------------------------------------------------------------------- sinks

  /** What a report rests on: the evaluator and its source, the library function that the source
      calls, by way of which name if any, and the name it hands over, with the statement that
      bound it. */
  datatype Report = Report(evaluator: string, source: Node, code: string,
                           receiver: Option<string>, library: string, sink: string, arg: string, statement: Node)

  function ReceiverName(call: Node): Option<string> {
    var f := call.Get(FunctionField);
    if f.None? || f.value.Get(ObjectField).None? then None
    else
      var target := f.value.Get(ObjectField).value;
      if target.kind == Identifier then Some(target.text) else None
  }

  /** A Python module is bound to its own name only. */
  function LibraryOf(call: Node, lang: Language): string {
    var name := ReceiverName(call);
    if lang == JavaScript then "child_process" else if name.Some? then name.value else []
  }

  function SinkOf(call: Node, lang: Language, names: Names): string {
    var callee := BoundCallee(call, lang, names);
    if callee.Some? then callee.value.sink else []
  }

  /** The value that the reported name has if a script can assign it. */
  function HandedValue(q: Report, lang: Language, h: Host): ScriptRun.Value {
    if RightSide(q.statement).None? then OtherV else LiteralValue(RightSide(q.statement).value, q.statement, lang, h)
  }

  /** Nothing is in the way of the library call: a script can assign both names, the installed library
      has the function, and that takes the value. */
  predicate Carried(q: Report, lang: Language, h: Host) {
    && (q.receiver.Some? ==> q.receiver.value !in h.fixed) && h.offers(q.library, q.sink) && q.arg !in h.fixed
    && var v := HandedValue(q, lang, h); (v.TextV? || v.BytesV?) && Takes(lang, q.sink, v, h)
  }

  /** A shell gets the value if and only if `reached`, and nothing else ever. */
  predicate Lands(b: Behavior, reached: bool, q: Report, lang: Language, h: Host) {
    if reached then
      && (HandedValue(q, lang, h).TextV? || HandedValue(q, lang, h).BytesV?)
      && b == Shell(HandedValue(q, lang, h).s)
    else Stuck(b)
  }

  lemma SinkNames(m: StandardModule, sink: string, h: Host)
    requires IsShellSink(m, sink) && Honest(h)
    ensures h.canon(sink) == sink
  {
    hide Honest;
    assert IsAsciiName("system") && IsAsciiName("popen") && IsAsciiName("getoutput");
    assert IsAsciiName("getstatusoutput") && IsAsciiName("exec") && IsAsciiName("execSync");
    PlainIsItself(sink, h);
  }

  /** The analysis' table of sinks is right about the libraries that the modules stand for. */
  lemma SinkConvention(x: string, m: StandardModule, sink: string, n: Node, v: ScriptRun.Value, lang: Language, h: Host)
    requires IsShellSink(m, sink) && Represents(x, ModuleBinding(m), n, v, lang, h)
    ensures v.LibraryV? && ConventionOf(lang, v.name, sink) == ThroughShell
    ensures v.name == if lang == Python then x else "child_process"
  {}

  lemma PlainUse(x: string, start: State)
    requires IsPlain(start)
    ensures UseOf(x, start) == Dead || UseOf(x, start) == Builtin || UseOf(x, start) == Bound(OtherV)
  {}

  /** The receiver of a recognised call is the library it is taken for, if modules can be loaded and
      a script can assign its name. */
  lemma ReceiverRuns(call: Node, lang: Language, names: Names, nodes: map<string, Node>, st: State, start: State,
                     h: Host)
    requires Honest(h) && Tracks(names, nodes, st, start, lang, h) && Loads(names, start, lang) && IsPlain(start)
    requires BoundCallee(call, lang, names).Some?
    requires IsShellSink(BoundCallee(call, lang, names).value.m, BoundCallee(call, lang, names).value.sink)
    ensures var r, x := Receiver(call.Get(FunctionField).value.Get(ObjectField).value, lang, st, h), ReceiverName(call);
            if Blocked(start, lang) then r.Stops? && Stuck(r.b)
            else if x.Some? && x.value in h.fixed then (r.Stops? && Stuck(r.b)) || r == Known(OtherV)
            else
              && r == Known(LibraryV(LibraryOf(call, lang)))
              && ConventionOf(lang, LibraryOf(call, lang), SinkOf(call, lang, names)) == ThroughShell
  {
    hide Honest;
    hide RequiredModule;
    hide CallsLoader;
    hide Load;
    hide Tracks;
    hide UseOf;
    hide Represents;
    hide IsShellSink;
    hide ConventionOf;
    hide IsPlain;
    var target := call.Get(FunctionField).value.Get(ObjectField).value;
    var callee := BoundCallee(call, lang, names).value;
    if target.kind == Identifier {
      var x := target.text;
      TrackedUse(x, names, nodes, st, start, lang, h);
      PlainUse(x, start);
      if x !in h.fixed { SinkConvention(x, callee.m, callee.sink, nodes[x], st.env[x], lang, h); }
    } else {
      ProtectedNames();
      ProtectedUse("require", names, nodes, st, start, lang, h);
      RequiredModuleLoads(target, lang, st, h);
      NodeConvention(callee.sink);
    }
  }

  lemma NodeConvention(sink: string)
    requires IsShellSink(NodeChildProcess, sink)
    ensures ConventionOf(JavaScript, "child_process", sink) == ThroughShell
  {}

  lemma ArgumentRuns(arg: string, names: Names, nodes: map<string, Node>, st: State, start: State, lang: Language,
                     h: Host)
    requires Honest(h) && Tracks(names, nodes, st, start, lang, h) && IsPlain(start)
    requires arg in names && names[arg].TextBinding?
    ensures h.canon(arg) == arg && arg in nodes
    ensures var u, r := UseOf(arg, st), RightSide(nodes[arg]);
            if arg in h.fixed then u == Dead || u == Builtin || u == Bound(OtherV)
            else
              && r.Some? && u == Bound(LiteralValue(r.value, nodes[arg], lang, h))
              && StaticLiteral(r.value, Some(nodes[arg]), lang, 0).Some?
  {
    hide Honest;
    hide Tracks;
    hide UseOf;
    hide StaticLiteral;
    hide LiteralValue;
    hide IsPlain;
    TrackedUse(arg, names, nodes, st, start, lang, h);
    PlainUse(arg, start);
  }

  /** A library call whose convention is known, case by case. */
  lemma LibraryCallCases(library: string, name: string, arg: Use, lang: Language, h: Host)
    requires ConventionOf(lang, library, name) == ThroughShell
    ensures var b := LibraryCall(library, name, arg, lang, h);
            if h.offers(library, name) && arg.Bound? && (arg.v.TextV? || arg.v.BytesV?) && Takes(lang, name, arg.v, h)
            then b == Shell(arg.v.s) else Stuck(b)
  {
    hide ConventionOf;
  }

  /** A call taken for a shell sink, case by case. */
  lemma SinkCall(call: Node, lang: Language, names: Names, st: State, h: Host, arg: string)
    requires IsCallTo(call, names, lang, arg) && h.canon(arg) == arg
             && h.canon(SinkOf(call, lang, names)) == SinkOf(call, lang, names)
    ensures BoundCallee(call, lang, names).Some?
    ensures IsShellSink(BoundCallee(call, lang, names).value.m, BoundCallee(call, lang, names).value.sink)
    ensures call.Get(FunctionField).Some? && call.Get(FunctionField).value.Get(ObjectField).Some?
    ensures var r, b := Receiver(call.Get(FunctionField).value.Get(ObjectField).value, lang, st, h),
              MethodCall(call, lang, st, h);
            match r
            case Stops(c) => b == c
            case Known(v) =>
              if v.LibraryV? then b == LibraryCall(v.name, SinkOf(call, lang, names), UseOf(arg, st), lang, h)
              else b == Unknown
  {
    hide IsShellSink;
    hide Receiver;
    hide UseOf;
    hide RequiredModule;
    hide LibraryCall;
  }

  lemma SinkIsNamed(call: Node, lang: Language, names: Names, arg: string, h: Host)
    requires IsCallTo(call, names, lang, arg) && Honest(h)
    ensures h.canon(SinkOf(call, lang, names)) == SinkOf(call, lang, names)
  {
    hide IsShellSink;
    hide Honest;
    hide BoundCallee;
    SinkNames(BoundCallee(call, lang, names).value.m, BoundCallee(call, lang, names).value.sink, h);
  }

  /** A call taken for a shell sink hands the value of the named argument to a shell if and only if
      nothing is in the way. */
  lemma SinkRuns(call: Node, lang: Language, names: Names, nodes: map<string, Node>, st: State, start: State, h: Host,
                 q: Report)
    requires Honest(h) && Tracks(names, nodes, st, start, lang, h) && Loads(names, start, lang) && IsPlain(start)
    requires IsCallTo(call, names, lang, q.arg) && q.arg in names && names[q.arg].TextBinding?
    requires q.receiver == ReceiverName(call) && q.library == LibraryOf(call, lang)
             && q.sink == SinkOf(call, lang, names)
    requires q.arg in nodes && q.statement == nodes[q.arg]
    ensures Lands(MethodCall(call, lang, st, h), !Blocked(start, lang) && Carried(q, lang, h), q, lang, h)
  {
    hide *;
    ArgumentRuns(q.arg, names, nodes, st, start, lang, h);
    SinkIsNamed(call, lang, names, q.arg, h);
    SinkCall(call, lang, names, st, h, q.arg);
    ReceiverRuns(call, lang, names, nodes, st, start, h);
    StuckCases();
    var r := Receiver(call.Get(FunctionField).value.Get(ObjectField).value, lang, st, h);
    if r == Known(LibraryV(q.library)) && ConventionOf(lang, q.library, q.sink) == ThroughShell {
      LibraryCallCases(q.library, q.sink, UseOf(q.arg, st), lang, h);
    }
    CarriedCases(q, lang, h);
    LandsCases(MethodCall(call, lang, st, h), !Blocked(start, lang) && Carried(q, lang, h), q, lang, h);
  }

  lemma StuckCases()
    ensures Stuck(Unknown) && Stuck(Raised)
  {}

  lemma CarriedCases(q: Report, lang: Language, h: Host)
    ensures var v := HandedValue(q, lang, h);
            Carried(q, lang, h) <==>
              && (q.receiver.Some? ==> q.receiver.value !in h.fixed) && h.offers(q.library, q.sink) && q.arg !in h.fixed
              && (v.TextV? || v.BytesV?) && Takes(lang, q.sink, v, h)
    ensures HandedValue(q, lang, h) ==
            if RightSide(q.statement).None? then OtherV
            else LiteralValue(RightSide(q.statement).value, q.statement, lang, h)
  {
    hide LiteralValue;
    hide Takes;
  }

  lemma LandsCases(b: Behavior, reached: bool, q: Report, lang: Language, h: Host)
    ensures var v := HandedValue(q, lang, h);
            Lands(b, reached, q, lang, h) <==> if reached then (v.TextV? || v.BytesV?) && b == Shell(v.s) else Stuck(b)
  {
    hide HandedValue;
    hide Stuck;
  }

  lemma DependencyIsCall(code: string, lang: Language, names: Names, parse: Parser, arg: string)
    requires Dependency(code, lang, names, parse) == Ok(Some(arg))
    ensures parse(code, lang).Some?
    ensures var statements := Significant(parse(code, lang).value.children);
            && |statements| == 1 && Unwrap(statements[0], 4).Some?
            && IsCallTo(Unwrap(statements[0], 4).value, names, lang, arg)
  {
    hide BoundCallee;
    hide IsShellSink;
    hide Unwrap;
    hide Admit;
    hide Significant;
    hide Utf8Length;
  }

  /** The name of a followed evaluator and the node of its source. */
  function EvaluatorName(n: Node): string {
    if n.Get(FunctionField).Some? then n.Get(FunctionField).value.text else []
  }

  function SourceNode(n: Node): Node {
    if n.Get(ArgumentsField).Some? && Significant(n.Get(ArgumentsField).value.children) != [] then
      Significant(n.Get(ArgumentsField).value.children)[0]
    else n
  }

  /** A call that the analysis follows evaluates its decoded argument, as long as the name is the
      built-in one, the source is not misread and the evaluator does not refuse it. */
  lemma EvaluatorRuns(n: Node, lang: Language, st: State, h: Host)
    requires Honest(h) && EvaluatedSource(n, lang).Some?
    ensures var name, code, b := EvaluatorName(n), EvaluatedSource(n, lang).value, RunCall(n, lang, st, h);
            && (name == "eval" || (lang == Python && name == "exec"))
            && (UseOf(name, st) == Builtin && NodeMisreadings(SourceNode(n), lang) == 0 ==>
                  b == if h.refuses(name, code) then Raised else Evaluate(code, lang, st, h))
            && (UseOf(name, st) != Builtin ==> Stuck(b))
            && (UseOf(name, st) == Dead ==> b == Raised)
  {
    hide StaticLiteral;
    hide StringValue;
    hide NodeMisreadings;
    hide Agrees;
    hide Honest;
    hide Significant;
    hide Evaluate;
    var arguments := n.Get(ArgumentsField);
    BuiltinNames(h);
    StaticIsValue(Significant(arguments.value.children)[0], arguments, lang, 0, h);
  }

  /** The call that an evaluated source consists of. */
  function EvaluatedCall(code: string, lang: Language, parse: Parser): Node {
    var tree := parse(code, lang);
    if tree.Some? && OnlyStatement(tree.value).Some? then OnlyStatement(tree.value).value
    else Node(OtherKind(""), "", 0, 0, false, [], map[])
  }

  /** Evaluating a recognised call runs it. */
  lemma EvaluationRuns(code: string, lang: Language, names: Names, st: State, h: Host, arg: string)
    requires Dependency(code, lang, names, h.parse) == Ok(Some(arg))
    ensures var call := EvaluatedCall(code, lang, h.parse);
            IsCallTo(call, names, lang, arg) && Evaluate(code, lang, st, h) == MethodCall(call, lang, st, h)
  {
    hide Dependency;
    hide MethodCall;
    hide IsCallTo;
    hide Significant;
    hide Peel;
    hide Unwrap;
    DependencyIsCall(code, lang, names, h.parse, arg);
    var statement := Significant(h.parse(code, lang).value.children)[0];
    UnwrapRuns(statement, 4, lang, st, h);
    IsACall(Unwrap(statement, 4).value, names, lang, arg);
  }

  lemma FreeNames(start: State, lang: Language)
    ensures Free(start, lang) ==>
              !Blocked(start, lang) && UseOf("eval", start) == Builtin
                && (lang == Python ==> UseOf("exec", start) == Builtin)
    ensures lang == JavaScript && !Free(start, lang) ==> Blocked(start, lang) || UseOf("eval", start) != Builtin
    ensures Late(start, lang) ==> lang == JavaScript && UseOf("eval", start) == Dead
  {}

  /** The report that an evaluator call `n` gives. */
  function ReportOf(n: Node, code: string, arg: string, lang: Language, names: Names, nodes: map<string, Node>,
                    parse: Parser): Report {
    var call := EvaluatedCall(code, lang, parse);
    Report(EvaluatorName(n), SourceNode(n), code, ReceiverName(call), LibraryOf(call, lang), SinkOf(call, lang, names),
        arg,
           if arg in nodes then nodes[arg] else n)
  }

  /** A reported evaluation lands in a shell if and only if the evaluator takes its source and nothing
      is in the way. */
  predicate Arrives(q: Report, lang: Language, h: Host) {
    !h.refuses(q.evaluator, q.code) && Carried(q, lang, h)
  }

  lemma EvaluatedCallRuns(n: Node, lang: Language, names: Names, nodes: map<string, Node>, st: State, start: State,
                          h: Host, arg: string)
    requires Honest(h) && Tracks(names, nodes, st, start, lang, h) && Loads(names, start, lang) && IsPlain(start)
    requires EvaluatedSource(n, lang).Some?
    requires Dependency(EvaluatedSource(n, lang).value, lang, names, h.parse) == Ok(Some(arg))
    requires arg in names && names[arg].TextBinding?
    ensures var q, b := ReportOf(n, EvaluatedSource(n, lang).value, arg, lang, names, nodes, h.parse),
              RunCall(n, lang, st, h);
            && (Free(start, lang) && NodeMisreadings(q.source, lang) == 0 ==> Lands(b, Arrives(q, lang, h), q, lang, h))
            && (lang == JavaScript && !Free(start, lang) ==> Stuck(b))
            && (Late(start, lang) ==> b == Raised)
  {
    hide *;
    ProtectedNames();
    var code := EvaluatedSource(n, lang).value;
    var q := ReportOf(n, code, arg, lang, names, nodes, h.parse);
    EvaluatorRuns(n, lang, st, h);
    ProtectedUse(EvaluatorName(n), names, nodes, st, start, lang, h);
    FreeNames(start, lang);
    EvaluationRuns(code, lang, names, st, h, arg);
    TrackedUse(arg, names, nodes, st, start, lang, h);
    ReportCases(n, code, arg, lang, names, nodes, h.parse);
    SinkRuns(EvaluatedCall(code, lang, h.parse), lang, names, nodes, st, start, h, q);
    StuckCases();
    ScriptIsRead(q.source);
    LandsCases(RunCall(n, lang, st, h), Arrives(q, lang, h), q, lang, h);
    LandsCases(RunCall(n, lang, st, h), !Blocked(start, lang) && Carried(q, lang, h), q, lang, h);
    ArrivesCases(q, lang, h);
  }

  lemma ArrivesCases(q: Report, lang: Language, h: Host)
    ensures Arrives(q, lang, h) <==> !h.refuses(q.evaluator, q.code) && Carried(q, lang, h)
  {
    hide Carried;
  }

  lemma ReportCases(n: Node, code: string, arg: string, lang: Language, names: Names, nodes: map<string, Node>,
                    parse: Parser)
    requires arg in nodes
    ensures var q, call := ReportOf(n, code, arg, lang, names, nodes, parse), EvaluatedCall(code, lang, parse);
            && q.evaluator == EvaluatorName(n) && q.source == SourceNode(n) && q.code == code
            && q.receiver == ReceiverName(call) && q.library == LibraryOf(call, lang)
               && q.sink == SinkOf(call, lang, names)
            && q.arg == arg && q.statement == nodes[arg]
  {
    hide EvaluatorName;
    hide SourceNode;
    hide EvaluatedCall;
    hide ReceiverName;
    hide LibraryOf;
    hide SinkOf;
  }

  lemma IsACall(n: Node, names: Names, lang: Language, arg: string)
    requires IsCallTo(n, names, lang, arg)
    ensures n.IsCall()
  {}

  // ----------------------------------------------------------- whole programs

  /** What the report of a program rests on; there is one if and only if there is a report. */
  function Reported(ns: seq<Node>, lang: Language, names: Names, nodes: map<string, Node>,
                    parse: Parser): Option<Report>
    decreases |ns|
  {
    if ns == [] || Unwrap(ns[0], 4).None? then None else
    var n := Unwrap(ns[0], 4).value;
    if !n.IsCall() then
      var r, next := RecordedBinding(n, lang), Recorded(n, lang, names);
      if next.Some? then Reported(ns[1..], lang, next.value, nodes[r.value.0 := n], parse) else None
    else if EvaluatedSource(n, lang).None? then None
    else
      var code := EvaluatedSource(n, lang).value;
      var d := Dependency(code, lang, names, parse);
      if d.Ok? && d.value.Some? && d.value.value in names && names[d.value.value].TextBinding? then
        Some(ReportOf(n, code, d.value.value, lang, names, nodes, parse))
      else None
  }

  predicate AreStatements(ns: seq<Node>) {
    forall n :: n in ns ==> n.named && n.kind != Comment
  }

  lemma CallRuns(n: Node, lang: Language, st: State, h: Host)
    requires n.IsCall()
    ensures Exec(n, lang, st, h) == Halt(RunCall(n, lang, st, h))
  {}

  lemma NextStatement(ns: seq<Node>, lang: Language, st: State, h: Host)
    requires ns != [] && AreStatements(ns) && Unwrap(ns[0], 4).Some?
    ensures AreStatements(ns[1..])
    ensures ExecAll(ns, lang, st, h) ==
            match Exec(Unwrap(ns[0], 4).value, lang, st, h)
            case Halt(b) => Halt(b)
            case Go(st') => ExecAll(ns[1..], lang, st', h)
  {
    hide Exec;
    hide Unwrap;
    UnwrapRuns(ns[0], 4, lang, st, h);
  }

  /** The report is the decoded literal that the statement binds, and rests on it. */
  predicate RestsOn(c: Command, q: Report, lang: Language) {
    && RightSide(q.statement).Some?
    && StaticLiteral(RightSide(q.statement).value, Some(q.statement), lang, 0) == Some(c.command)
  }

  /** What a report says of a run that has come to `next`. */
  predicate Confirmed(r: Result<seq<Command>, Limit>, q: Option<Report>, next: Next, start: State, lang: Language,
                      h: Host) {
    r.Ok? && r.value != [] ==>
      && |r.value| == 1 && q.Some? && next.Halt? && RestsOn(r.value[0], q.value, lang)
      && (Free(start, lang) && NodeMisreadings(q.value.source, lang) == 0 ==>
           Lands(next.b, Arrives(q.value, lang, h), q.value, lang, h))
      && (lang == JavaScript && !Free(start, lang) ==> Stuck(next.b))
      && (Late(start, lang) ==> next.b == Raised)
  }

  lemma BlockedIsNotFree(start: State, lang: Language)
    requires Blocked(start, lang)
    ensures lang == JavaScript && !Free(start, lang) && !Late(start, lang)
  {}

  /** The names and their statements after a recorded one. */
  function NodesAfter(n: Node, lang: Language, nodes: map<string, Node>): map<string, Node> {
    if RecordedBinding(n, lang).Some? then nodes[RecordedBinding(n, lang).value.0 := n] else nodes
  }

  /** A recorded statement, and the rest of the program from the names it leaves. */
  lemma RecordedStep(n: Node, lang: Language, names: Names, nodes: map<string, Node>, st: State, start: State, h: Host)
    returns (st': State)
    requires Honest(h) && Tracks(names, nodes, st, start, lang, h) && Loads(names, start, lang)
    requires Rest(names, nodes, lang) && Recorded(n, lang, names).Some?
    ensures var e := Exec(n, lang, st, h);
            e == Go(st') || (e.Halt? && Stuck(e.b) && lang == JavaScript && !Free(start, lang) && !Late(start, lang))
    ensures var next, after := Recorded(n, lang, names).value, NodesAfter(n, lang, nodes);
            && Rest(next, after, lang)
            && (Exec(n, lang, st, h).Go? ==> Tracks(next, after, st', start, lang, h) && Loads(next, start, lang))
  {
    hide Honest;
    hide Tracks;
    hide RecordedBinding;
    hide Exec;
    hide Stuck;
    hide Blocked;
    hide Free;
    hide Late;
    hide Assign;
    hide Represents;
    hide IsAsciiName;
    hide RestsOn;
    var v := RecordedBindingRuns(n, lang, names, nodes, st, start, h);
    var r := RecordedBinding(n, lang).value;
    st' := Assign(st, r.0, v, h);
    BindingRests(n, lang);
    if r.1.ModuleBinding? && Blocked(start, lang) {
      BlockedIsNotFree(start, lang);
    } else {
      RecordTracks(names, nodes, st, start, lang, h, r.0, r.1, n, v);
    }
  }

  /** Every text binding is what its statement's literal decodes to. */
  predicate Rest(names: Names, nodes: map<string, Node>, lang: Language) {
    forall x :: x in names && names[x].TextBinding? ==> x in nodes && IsTextOf(names[x], nodes[x], lang)
  }

  predicate IsTextOf(b: Binding, n: Node, lang: Language) {
    b.TextBinding? && RightSide(n).Some? && StaticLiteral(RightSide(n).value, Some(n), lang, 0) == Some(b.value)
  }

  lemma BindingRests(n: Node, lang: Language)
    requires RecordedBinding(n, lang).Some?
    ensures var b := RecordedBinding(n, lang).value.1; b.TextBinding? ==> IsTextOf(b, n, lang)
  {
    hide StaticLiteral;
    hide RequiredModule;
    hide Utf8Length;
    hide IsAsciiName;
    hide Named;
  }

  lemma {:induction false} OneCommand(ns: seq<Node>, lang: Language, names: Names, nodes: map<string, Node>,
          parse: Parser)
    requires Rest(names, nodes, lang)
    ensures var r, q := Commands(ns, lang, names, parse), Reported(ns, lang, names, nodes, parse);
            && (q.Some? <==> r.Ok? && r.value != [])
            && (r.Ok? ==> |r.value| <= 1)
            && (q.Some? ==> RestsOn(r.value[0], q.value, lang))
    decreases |ns|
  {
    hide RecordedBinding;
    hide Unwrap;
    hide Dependency;
    hide EvaluatedSource;
    hide EvaluatedCall;
    hide IsTextOf;
    hide StaticLiteral;
    if ns != [] && Unwrap(ns[0], 4).Some? {
      var n := Unwrap(ns[0], 4).value;
      if !n.IsCall() {
        var next := Recorded(n, lang, names);
        if next.Some? {
          BindingRests(n, lang);
          OneCommand(ns[1..], lang, next.value, nodes[RecordedBinding(n, lang).value.0 := n], parse);
        }
      } else if EvaluatedSource(n, lang).Some? {
        var d := Dependency(EvaluatedSource(n, lang).value, lang, names, parse);
        if d.Ok? && d.value.Some? && d.value.value in names && names[d.value.value].TextBinding? {
          TextRests(names[d.value.value], nodes[d.value.value], lang);
        }
      }
    }
  }

  lemma TextRests(b: Binding, n: Node, lang: Language)
    requires IsTextOf(b, n, lang)
    ensures RightSide(n).Some? && b.TextBinding? && StaticLiteral(RightSide(n).value, Some(n), lang, 0) == Some(b.value)
  {}

  /** From any point of the head where the names are tracked, a reported command is what the rest of
      the program hands to a shell if nothing is in the way, and nothing is handed to one if not. */
  lemma {:induction false} CommandsRun(ns: seq<Node>, lang: Language, names: Names, nodes: map<string, Node>, st: State,
          start: State, h: Host)
    requires Honest(h) && Tracks(names, nodes, st, start, lang, h) && Loads(names, start, lang) && IsPlain(start)
    requires Rest(names, nodes, lang) && AreStatements(ns)
    ensures Confirmed(Commands(ns, lang, names, h.parse), Reported(ns, lang, names, nodes, h.parse),
              ExecAll(ns, lang, st, h), start, lang, h)
    decreases |ns|
  {
    hide *;
    OneCommand(ns, lang, names, nodes, h.parse);
    var r, q, e := Commands(ns, lang, names, h.parse), Reported(ns, lang, names, nodes, h.parse),
        ExecAll(ns, lang, st, h);
    if q.Some? {
      ReportedCases(ns, lang, names, nodes, h.parse);
      var n := Unwrap(ns[0], 4).value;
      NextStatement(ns, lang, st, h);
      if n.IsCall() {
        CallRuns(n, lang, st, h);
        EvaluatedCallRuns(n, lang, names, nodes, st, start, h, q.value.arg);
      } else {
        var st' := RecordedStep(n, lang, names, nodes, st, start, h);
        var next, after := Recorded(n, lang, names).value, NodesAfter(n, lang, nodes);
        if Exec(n, lang, st, h).Go? {
          CommandsRun(ns[1..], lang, next, after, st', start, h);
          ConfirmedCases(Commands(ns[1..], lang, next, h.parse), q, ExecAll(ns[1..], lang, st', h), start, lang, h);
        } else {
          FreeInPython(start, lang);
        }
      }
    }
    ConfirmedCases(r, q, e, start, lang, h);
  }

  lemma FreeInPython(start: State, lang: Language)
    ensures Free(start, lang) ==> !(lang == JavaScript && !Free(start, lang))
  {}

  /** A report comes from the call at hand, or from further on. */
  lemma ReportedCases(ns: seq<Node>, lang: Language, names: Names, nodes: map<string, Node>, parse: Parser)
    requires Reported(ns, lang, names, nodes, parse).Some?
    ensures ns != [] && Unwrap(ns[0], 4).Some?
    ensures var n, q := Unwrap(ns[0], 4).value, Reported(ns, lang, names, nodes, parse).value;
            if n.IsCall() then
              && EvaluatedSource(n, lang).Some?
              && var code := EvaluatedSource(n, lang).value;
                 && Dependency(code, lang, names, parse) == Ok(Some(q.arg)) && q.arg in names
                    && names[q.arg].TextBinding?
                 && q == ReportOf(n, code, q.arg, lang, names, nodes, parse)
            else
              && Recorded(n, lang, names).Some?
              && var next := Recorded(n, lang, names).value;
                 && Reported(ns, lang, names, nodes, parse)
                    == Reported(ns[1..], lang, next, NodesAfter(n, lang, nodes), parse)
                 && Commands(ns, lang, names, parse) == Commands(ns[1..], lang, next, parse)
  {
    hide RecordedBinding;
    hide Unwrap;
    hide Dependency;
    hide EvaluatedSource;
    hide EvaluatedCall;
    hide SinkOf;
    hide LibraryOf;
    hide ReceiverName;
    hide EvaluatorName;
    hide SourceNode;
  }

  lemma ConfirmedCases(r: Result<seq<Command>, Limit>, q: Option<Report>, next: Next, start: State, lang: Language,
                       h: Host)
    ensures Confirmed(r, q, next, start, lang, h) <==>
              (r.Ok? && r.value != [] ==>
                && |r.value| == 1 && q.Some? && next.Halt? && RestsOn(r.value[0], q.value, lang)
                && (Free(start, lang) && NodeMisreadings(q.value.source, lang) == 0 ==>
                      Lands(next.b, Arrives(q.value, lang, h), q.value, lang, h))
                && (lang == JavaScript && !Free(start, lang) ==> Stuck(next.b))
                && (Late(start, lang) ==> next.b == Raised))
  {
    hide RestsOn;
    hide Free;
    hide NodeMisreadings;
    hide Lands;
    hide Arrives;
    hide Stuck;
    hide Late;
  }

  function RecordAll(ns: seq<Node>, lang: Language, names: Names, nodes: map<string, Node>)
      : Option<(Names, map<string, Node>)>
    decreases |ns|
  {
    if ns == [] then Some((names, nodes))
    else if Unwrap(ns[0], 4).None? then None
    else
      var n := Unwrap(ns[0], 4).value;
      var next := Recorded(n, lang, names);
      if next.None? then None else RecordAll(ns[1..], lang, next.value, NodesAfter(n, lang, nodes))
  }

  /** Any accepted prefix runs through, and then every recorded name that a script can assign has its
      recorded value, every other name is as before, and there are at most 128 recorded names. */
  lemma {:induction false} AcceptedPrefixTracks(ns: seq<Node>, lang: Language, names: Names, nodes: map<string, Node>,
                                                st: State, start: State, h: Host) returns (st': State)
    requires Honest(h) && Tracks(names, nodes, st, start, lang, h) && Loads(names, start, lang)
    requires Rest(names, nodes, lang) && AreStatements(ns) && Free(start, lang)
             && RecordAll(ns, lang, names, nodes).Some?
    ensures var r := RecordAll(ns, lang, names, nodes).value;
            ExecAll(ns, lang, st, h) == Go(st') && Tracks(r.0, r.1, st', start, lang, h)
    decreases |ns|
  {
    hide Honest;
    hide Tracks;
    hide Loads;
    hide Rest;
    hide AreStatements;
    hide Exec;
    hide Recorded;
    hide NodesAfter;
    hide Unwrap;
    hide Free;
    st' := st;
    if ns != [] {
      var n := Unwrap(ns[0], 4).value;
      NextStatement(ns, lang, st, h);
      var next := RecordedStep(n, lang, names, nodes, st, start, h);
      st' := AcceptedPrefixTracks(ns[1..], lang, Recorded(n, lang, names).value, NodesAfter(n, lang, nodes), next,
          start, h);
    }
  }

  lemma {:induction false} NothingHoisted(ns: seq<Node>, h: Host)
    requires forall n :: n in ns ==> !IsFunctionDeclaration(n)
    ensures Functions(ns, h) == {}
  {
    if ns != [] {
      assert !IsFunctionDeclaration(ns[0]);
      NothingHoisted(ns[1..], h);
    }
  }

  /** The program is not refused, and neither a declaration anywhere in it nor an import makes
      another thing of `eval` or `require`. */
  predicate Starts(root: Node, lang: Language, h: Host) {
    !h.rejects(root) && (lang == JavaScript ==> !Declares(root, "eval", h) && !Declares(root, "require", h))
  }

  /** `eval` is declared by a `let`, a `const` or a class, and the loader is the language's own. */
  predicate DeclaresEvalLate(root: Node, h: Host) {
    !h.rejects(root) && "eval" in LexicalAll(root.children, h) && !Declares(root, "require", h)
  }

  predicate Declares(root: Node, x: string, h: Host) {
    x in LexicalAll(root.children, h) || x in Imported(root.children, h) || x in h.vars(root)
  }

  lemma FreeAtStart(root: Node, lang: Language, h: Host)
    requires NoHoisting(root, lang)
    ensures Free(Start(root, lang, h), lang) <==>
              (lang == JavaScript ==> !Declares(root, "eval", h) && !Declares(root, "require", h))
  {
    hide LexicalAll;
    hide Hoisted;
    hide Below;
    if lang == JavaScript {
      UseAtStart(root, "eval", h);
      UseAtStart(root, "require", h);
    }
  }

  lemma LateAtStart(root: Node, h: Host)
    requires NoHoisting(root, JavaScript)
    ensures "eval" in LexicalAll(root.children, h) && !Declares(root, "require", h) ==>
              Late(Start(root, JavaScript, h), JavaScript)
  {
    hide LexicalAll;
    hide Hoisted;
    hide Below;
    hide Declares;
    UseAtStart(root, "require", h);
  }

  lemma UseAtStart(root: Node, x: string, h: Host)
    requires NoHoisting(root, JavaScript)
    ensures UseOf(x, Start(root, JavaScript, h)) == Builtin <==> !Declares(root, x, h)
  {
    hide LexicalAll;
    hide Imported;
    hide Functions;
    hide Below;
    NothingHoisted([root] + Below(root), h);
    assert x in Hoisted(root, h) <==> x in Imported(root.children, h) || x in h.vars(root);
  }

  lemma AreSignificant(ns: seq<Node>)
    ensures AreStatements(Significant(ns))
  {}

  lemma NothingTracked(start: State, lang: Language, h: Host)
    ensures Tracks(map[], map[], start, start, lang, h) && Loads(map[], start, lang) && Rest(map[], map[], lang)
  {}

  lemma StartIsPlain(root: Node, lang: Language, h: Host)
    ensures IsPlain(Start(root, lang, h))
  {
    hide Hoisted;
    hide LexicalAll;
  }

  /** The report of a whole program. */
  function ReportOn(root: Node, lang: Language, parse: Parser): Option<Report> {
    Reported(Significant(root.children), lang, map[], map[], parse)
  }

  /** The condition: the program starts, declares neither `eval` nor `require`, the evaluator takes its
      source, a script can assign the two names, the library has the function, and that takes the
      value. */
  predicate Reaches(q: Report, root: Node, lang: Language, h: Host) {
    Starts(root, lang, h) && Arrives(q, lang, h)
  }

  /** The literal behind a report is not misread. */
  predicate IsRead(q: Report, lang: Language) {
    RightSide(q.statement).Some? && NodeMisreadings(RightSide(q.statement).value, lang) == 0
  }

  lemma RestedValue(c: Command, q: Report, lang: Language, h: Host)
    requires Honest(h) && RestsOn(c, q, lang)
    ensures var v := HandedValue(q, lang, h); (v.TextV? || v.BytesV?) && (v.s == c.command <==> IsRead(q, lang))
  {
    hide StaticLiteral;
    hide StringValue;
    hide NodeMisreadings;
    hide Agrees;
    hide IsBytes;
    hide Honest;
    StaticIsValue(RightSide(q.statement).value, Some(q.statement), lang, 0, h);
  }

  lemma RunCases(root: Node, lang: Language, h: Host)
    ensures var b, e := RunProgram(root, lang, h), ExecAll(root.children, lang, Start(root, lang, h), h);
            if h.rejects(root) then b == Raised else e.Halt? ==> b == e.b
  {
    hide ExecAll;
    hide Start;
  }

  lemma ReportCasesOf(root: Node, lang: Language, parse: Parser)
    ensures var r := EvaluatedCommands(root, lang, parse);
            r.Ok? && r.value != [] ==>
                NoHoisting(root, lang) && r == Commands(Significant(root.children), lang, map[], parse)
    ensures ReportOn(root, lang, parse) == Reported(Significant(root.children), lang, map[], map[], parse)
  {
    hide NoHoisting;
    hide Commands;
    hide Significant;
    hide Reported;
  }

  lemma StartCases(q: Report, root: Node, lang: Language, h: Host)
    requires NoHoisting(root, lang)
    ensures var start := Start(root, lang, h);
            && (lang == Python ==> Free(start, lang))
            && (Reaches(q, root, lang, h) <==> !h.rejects(root) && Free(start, lang) && Arrives(q, lang, h))
            && (lang == JavaScript && DeclaresEvalLate(root, h) ==> !h.rejects(root) && Late(start, lang))
  {
    hide Arrives;
    hide Start;
    hide Free;
    hide Late;
    hide LexicalAll;
    hide Declares;
    FreeAtStart(root, lang, h);
    if lang == JavaScript { LateAtStart(root, h); }
  }

  /** The report, exactly. Provided that the evaluated source is not misread, the program hands the
      value of the reported literal to a shell, first and unchanged, if and only if nothing is in the
      way; if something is, it raises or does something else first. That value is the reported command
      if and only if the literal is not misread either. */
  lemma ReportedCommandRuns(root: Node, lang: Language, h: Host)
    requires Honest(h)
    ensures var r, q, b := EvaluatedCommands(root, lang, h.parse), ReportOn(root, lang, h.parse),
              RunProgram(root, lang, h);
            r.Ok? && r.value != [] ==>
              && |r.value| == 1 && q.Some?
              && (NodeMisreadings(q.value.source, lang) == 0 ==>
                    && Lands(b, Reaches(q.value, root, lang, h), q.value, lang, h)
                    && (b == Shell(r.value[0].command) <==> Reaches(q.value, root, lang, h) && IsRead(q.value, lang)))
              && (lang == JavaScript && DeclaresEvalLate(root, h) ==> b == Raised)
  {
    hide *;
    var r, q := EvaluatedCommands(root, lang, h.parse), ReportOn(root, lang, h.parse);
    var ns, start := Significant(root.children), Start(root, lang, h);
    ReportCasesOf(root, lang, h.parse);
    if r.Ok? && r.value != [] {
      NothingTracked(start, lang, h);
      StartIsPlain(root, lang, h);
      AreSignificant(root.children);
      ExecSignificant(root.children, lang, start, h);
      CommandsRun(ns, lang, map[], map[], start, start, h);
      ConfirmedCases(r, q, ExecAll(ns, lang, start, h), start, lang, h);
      RunCases(root, lang, h);
      StartCases(q.value, root, lang, h);
      StuckCases();
      RestedValue(r.value[0], q.value, lang, h);
      ScriptIsRead(q.value.source);
      LandsCases(RunProgram(root, lang, h), Arrives(q.value, lang, h), q.value, lang, h);
      LandsCases(RunProgram(root, lang, h), Reaches(q.value, root, lang, h), q.value, lang, h);
      StuckIsNoShell(RunProgram(root, lang, h));
    }
  }

  lemma StuckIsNoShell(b: Behavior)
    ensures Stuck(b) ==> !b.Shell?
  {}

  /** There is such a host for every parser: one that reads names and literals as they are spelled,
      has every library function and stands in the way of nothing. */
  lemma HonestHost(parse: Parser) returns (h: Host)
    ensures Honest(h) && h.parse == parse && h.fixed == {}
    ensures forall root :: !h.rejects(root) && h.binds(root) == {} && h.vars(root) == {}
    ensures forall a, b :: h.offers(a, b) && !h.refuses(a, b) && h.encodes(a)
  {
    h := Host((t: string, lang: Language) => if TrueText(t, lang).Some? then TrueText(t, lang).value else [],
              (_: Node) => [], (x: string) => x, parse,
              (_: string, _: string) => true, (_: Node) => false, (_: string, _: string) => false,
              (_: Node) => {}, (_: Node) => {}, {}, (_: string) => true);
    forall t, s, lang | Spells(t, s, lang) ensures h.text(t, lang) == s { TrueTextExact(t, s, lang); }
  }
}

/** The other half of BindingSoundness: a plain program that hands a command to a shell is reported. */
module BindingCompleteness {
  import opened BindingSoundness
  import opened Decoding
  import opened LiteralBindings
  import opened ScriptRun
  import opened Spelling
  import opened Syntax
  import opened Wrappers

  // ------------------------------------------------------------------ tables

  /** The libraries that a module of the analysis stands for. */
  predicate StandsFor(m: StandardModule, library: string, lang: Language) {
    match m
    case PythonOs => lang == Python && (library == "os" || library == "posix")
    case PythonSubprocess => lang == Python && library == "subprocess"
    case NodeChildProcess => lang == JavaScript && library == "child_process"
  }

  /** The analysis' table of sinks is the libraries' own, function by function. */
  lemma SinkTableExact(m: StandardModule, library: string, sink: string, lang: Language)
    requires StandsFor(m, library, lang)
    ensures IsShellSink(m, sink) <==> ConventionOf(lang, library, sink) == ThroughShell
  {}

  /** A library with a function that goes through a shell. */
  ghost predicate HasShell(library: string, lang: Language) {
    exists f :: ConventionOf(lang, library, f) == ThroughShell
  }

  /** Those are the ones that some module stands for. */
  lemma LibrariesExact(library: string, lang: Language)
    ensures HasShell(library, lang) <==> exists m :: StandsFor(m, library, lang)
  {
    if StandsFor(PythonOs, library, lang) { assert ConventionOf(lang, library, "system") == ThroughShell; }
    if StandsFor(PythonSubprocess, library, lang) { assert ConventionOf(lang, library, "getoutput") == ThroughShell; }
    if StandsFor(NodeChildProcess, library, lang) { assert ConventionOf(lang, library, "exec") == ThroughShell; }
    if HasShell(library, lang) {
      var f :| ConventionOf(lang, library, f) == ThroughShell;
      assert StandsFor(PythonOs, library, lang) || StandsFor(PythonSubprocess, library, lang)
        || StandsFor(NodeChildProcess, library, lang);
    }
  }

  lemma ShellLibraries(library: string)
    ensures HasShell(library, Python) <==> library == "os" || library == "posix" || library == "subprocess"
  {
    LibrariesExact(library, Python);
    assert library == "os" || library == "posix" ==> StandsFor(PythonOs, library, Python);
    assert library == "subprocess" ==> StandsFor(PythonSubprocess, library, Python);
  }

  /** An import is recorded if and only if it is of one such library, under the library's own name. */
  lemma ImportsExact(text: string)
    ensures ImportedModule(text).Some? <==> exists library :: HasShell(library, Python) && text == "import " + library
    ensures ImportedModule(text).Some? ==>
              var i := ImportedModule(text).value; text == "import " + i.0 && StandsFor(i.1, i.0, Python)
  {
    hide HasShell;
    ImportForms();
    if ImportedModule(text).Some? { ShellLibraries(ImportedModule(text).value.0); }
    forall library | HasShell(library, Python) && text == "import " + library ensures ImportedModule(text).Some? {
      ShellLibraries(library);
    }
  }

  /** The two ways to write the name of the one such library of Node. */
  lemma LibraryNameExact(name: string)
    ensures Library(name) == "child_process" <==> name == "child_process" || name == "node:child_process"
  {
    LibraryNames();
    if Library(name) == "child_process" && "node:" <= name {
      assert name == "node:" + name[5..];
    }
  }

  // ---------------------------------------------------------- plain programs

  /** `n` is inside `s`, which wraps it at most `k` times. */
  predicate Holds(s: Node, n: Node, k: nat)
    decreases k
  {
    if !IsStatementOf(s.kind) then s == n
    else k > 0 && |Significant(s.children)| == 1 && Holds(Significant(s.children)[0], n, k - 1)
  }

  /** A literal that can be read, of at most 64 KiB. */
  predicate ReadsAs(l: Node, parent: Node, lang: Language, s: string) {
    StaticLiteral(l, Some(parent), lang, 0) == Some(s) && Utf8Length(s) <= 65536
  }

  /** A call of `require` that loads Node's library. */
  ghost predicate LoadsNode(n: Node, lang: Language) {
    && lang == JavaScript && n.kind == CallExpression && n.Get(FunctionField).Some? && n.Get(ArgumentsField).Some?
    && n.Get(FunctionField).value.kind == Identifier && n.Get(FunctionField).value.text == "require"
    && exists l, s ::
         && Significant(n.Get(ArgumentsField).value.children) == [l]
         && ReadsAs(l, n.Get(ArgumentsField).value, lang, s) && Library(s) == "child_process"
  }

  /** `import` of a library with shells, or a literal or such a library bound to one plain name. */
  ghost predicate PlainBinding(n: Node, lang: Language) {
    if lang == Python && n.kind == ImportStatement then
      exists library :: HasShell(library, lang) && n.text == "import " + library
    else
      var name, value := n.GetEither(LeftField, NameField), n.GetEither(RightField, ValueField);
      && (n.kind == Assignment || n.kind == VariableDeclarator) && |Named(n.children)| == 2
      && name.Some? && name.value.kind == Identifier && IsPlainName(name.value.text)
      && name.value.text !in {"eval", "exec", "require"}
      && value.Some? && (LoadsNode(value.value, lang) || exists s :: ReadsAs(value.value, n, lang, s))
  }

  predicate IsMember(n: Node) {
    (n.kind == Identifier || n.kind == PropertyIdentifier) && IsPlainName(n.text)
  }

  /** A call whose names are plain; a receiver that is not a name loads Node's library. */
  ghost predicate PlainCall(call: Node, lang: Language) {
    var f, arguments := call.Get(FunctionField), call.Get(ArgumentsField);
    && call.IsCall() && f.Some? && arguments.Some?
    && (f.value.Get(ObjectField).Some? ==>
          var o := f.value.Get(ObjectField).value;
          if o.kind == Identifier then IsPlainName(o.text) else LoadsNode(o, lang))
    && (f.value.GetEither(AttributeField, PropertyField).Some? ==>
          IsMember(f.value.GetEither(AttributeField, PropertyField).value))
    && (forall a :: a in arguments.value.children && a.kind == Identifier ==> IsPlainName(a.text))
  }

  /** The parser has found nothing wrong here. */
  predicate IsHealthy(d: Node) {
    d.kind.OtherKind? ==> d.kind.name !in {"ERROR", "MISSING"}
  }

  /** A tree within the node limit, without errors, that is one such call. */
  ghost predicate PlainSource(tree: Node, lang: Language) {
    && |Below(tree)| < 4096 && (forall d :: d in [tree] + Below(tree) ==> IsHealthy(d))
    && |Significant(tree.children)| == 1
    && exists call :: Holds(Significant(tree.children)[0], call, 3) && PlainCall(call, lang)
  }

  /** A direct `eval`, or in Python `exec`, of one readable literal, with such a source. */
  ghost predicate PlainEvaluation(n: Node, lang: Language, parse: Parser) {
    var f, arguments := n.Get(FunctionField), n.Get(ArgumentsField);
    && n.IsCall() && f.Some? && arguments.Some? && f.value.kind == Identifier
    && (f.value.text == "eval" || (lang == Python && f.value.text == "exec"))
    && exists l, code ::
         && Significant(arguments.value.children) == [l] && ReadsAs(l, arguments.value, lang, code)
         && NodeMisreadings(l, lang) == 0 && parse(code, lang).Some? && PlainSource(parse(code, lang).value, lang)
  }

  /** At most 128 plain bindings, and then such an evaluation. */
  ghost predicate PlainHead(ns: seq<Node>, k: nat, lang: Language, parse: Parser) {
    && k < |ns|
    && (forall i :: 0 <= i < k ==> exists n :: Holds(ns[i], n, 3) && PlainBinding(n, lang))
    && exists n :: Holds(ns[k], n, 3) && PlainEvaluation(n, lang, parse)
  }

  /** Nothing is declared before the head: no function, in a tree small enough to look through. */
  ghost predicate NothingHoisted(root: Node, lang: Language) {
    lang == JavaScript ==>
      && |Below(root)| < 4096
      && forall d :: d in [root] + Below(root) ==> d.kind !in {FunctionDeclaration, GeneratorFunctionDeclaration}
  }

  lemma HoistingExact(root: Node, lang: Language)
    ensures NoHoisting(root, lang) <==> NothingHoisted(root, lang)
  {
    hide Below;
  }

  // ------------------------------------------------------------------ limits

  /** What is recorded fits in 64 KiB, and what is evaluated is refused beyond 64 KiB, and beyond 4096
      nodes unless one of those is broken; for no other reason. */
  lemma LimitsExact(code: string, lang: Language, names: Names, parse: Parser)
    ensures forall n :: RecordedBinding(n, lang).Some? && RecordedBinding(n, lang).value.1.TextBinding? ==>
              Utf8Length(RecordedBinding(n, lang).value.1.value) <= 65536
    ensures Dependency(code, lang, names, parse) == Err(EvaluatedBytes) <==> Utf8Length(code) > 65536
    ensures Dependency(code, lang, names, parse) == Err(EvaluatedNodes) <==>
              && Utf8Length(code) <= 65536 && parse(code, lang).Some?
              && var nodes := [parse(code, lang).value] + Below(parse(code, lang).value);
                 |nodes| > 4096 && forall k :: 0 <= k < 4096 ==> IsHealthy(nodes[k])
    ensures var r := Dependency(code, lang, names, parse);
            r.Err? ==> r.error == EvaluatedBytes || r.error == EvaluatedNodes
  {
    forall n | RecordedBinding(n, lang).Some? && RecordedBinding(n, lang).value.1.TextBinding?
      ensures Utf8Length(RecordedBinding(n, lang).value.1.value) <= 65536
    {
      TextFits(n, lang);
    }
    hide RecordedBinding;
    hide IsHealthy;
    hide Admit;
    hide Below;
    hide SinkArgument;
    hide OnlyStatement;
    hide Utf8Length;
    if parse(code, lang).Some? { AdmitExact([parse(code, lang).value] + Below(parse(code, lang).value), 0); }
  }

  lemma TextFits(n: Node, lang: Language)
    requires RecordedBinding(n, lang).Some? && RecordedBinding(n, lang).value.1.TextBinding?
    ensures Utf8Length(RecordedBinding(n, lang).value.1.value) <= 65536
  {
    hide StaticLiteral;
    hide Utf8Length;
    hide RequiredModule;
    hide Named;
  }

  // -------------------------------------------------------------- statements

  lemma {:induction false} HeldIsUnwrapped(s: Node, n: Node, k: nat)
    requires Holds(s, n, k)
    ensures Unwrap(s, k + 1) == Some(n)
    decreases k
  {
    hide Significant;
    SameWrappers(s.kind);
    if IsStatementOf(s.kind) { HeldIsUnwrapped(Significant(s.children)[0], n, k - 1); }
  }

  lemma PlainIsAscii(s: string)
    ensures IsPlainName(s) <==> IsAsciiName(s)
  {}

  lemma LoadsIsRequired(n: Node, lang: Language)
    requires LoadsNode(n, lang)
    ensures RequiredModule(n, lang) == Some(NodeChildProcess)
  {
    hide StaticLiteral;
    hide Significant;
    hide Library;
    hide Utf8Length;
    var l, s :| Significant(n.Get(ArgumentsField).value.children) == [l]
      && ReadsAs(l, n.Get(ArgumentsField).value, lang, s) && Library(s) == "child_process";
    LibraryNameExact(s);
  }

  lemma PlainIsBound(value: Node, n: Node, lang: Language)
    requires LoadsNode(value, lang) || exists s :: ReadsAs(value, n, lang, s)
    ensures BoundValue(value, n, lang).Some?
  {
    hide StaticLiteral;
    hide LoadsNode;
    hide RequiredModule;
    hide Utf8Length;
    if LoadsNode(value, lang) { LoadsIsRequired(value, lang); }
  }

  /** Plain bindings are recorded. */
  lemma PlainIsRecorded(n: Node, lang: Language)
    requires PlainBinding(n, lang)
    ensures RecordedBinding(n, lang).Some?
  {
    BindingCases(n, lang);
    hide RecordedBinding;
    hide BoundValue;
    hide Named;
    hide HasShell;
    hide LoadsNode;
    hide IsPlainName;
    hide IsAsciiName;
    if lang == Python && n.kind == ImportStatement {
      ImportsExact(n.text);
    } else {
      var name, value := n.GetEither(LeftField, NameField).value, n.GetEither(RightField, ValueField).value;
      PlainIsAscii(name.text);
      PlainIsBound(value, n, lang);
    }
  }

  // ------------------------------------------------------------------- calls

  /** A name that holds a library was recorded as that library. */
  lemma LibraryIsRecorded(x: string, library: string, names: Names, nodes: map<string, Node>, st: State, start: State,
                          lang: Language, h: Host)
    requires Tracks(names, nodes, st, start, lang, h) && IsPlain(start) && UseOf(x, st) == Bound(LibraryV(library))
    ensures x in names && names[x].ModuleBinding? && StandsFor(names[x].m, library, lang)
  {
    hide LiteralValue;
    hide StaticLiteral;
    PlainUse(x, start);
    if x in names && x !in h.fixed {
      assert TracksName(x, names[x], nodes[x], st, lang, h);
      if names[x].TextBinding? { TextIsNoLibrary(RightSide(nodes[x]).value, nodes[x], lang, h); }
    }
  }

  lemma TextIsNoLibrary(n: Node, parent: Node, lang: Language, h: Host)
    ensures var v := LiteralValue(n, parent, lang, h); v.TextV? || v.BytesV?
  {}

  /** A name that holds text was recorded as text. */
  lemma TextIsRecorded(x: string, v: ScriptRun.Value, names: Names, nodes: map<string, Node>, st: State, start: State,
                       lang: Language, h: Host)
    requires Tracks(names, nodes, st, start, lang, h) && IsPlain(start) && UseOf(x, st) == Bound(v)
             && (v.TextV? || v.BytesV?)
    ensures x in names && names[x].TextBinding?
  {
    hide LiteralValue;
    hide StaticLiteral;
    PlainUse(x, start);
    if x in names && x !in h.fixed {
      assert TracksName(x, names[x], nodes[x], st, lang, h);
    }
  }

  /** What a call that reaches a shell looks like. */
  lemma ShellCallCases(call: Node, lang: Language, st: State, h: Host)
    returns (o: Node, p: Node, a: Node, library: string, v: ScriptRun.Value)
    requires MethodCall(call, lang, st, h).Shell?
    ensures call.Get(FunctionField).Some? && call.Get(ArgumentsField).Some?
    ensures var f := call.Get(FunctionField).value;
            && (f.kind == Attribute || f.kind == MemberExpression)
            && f.Get(ObjectField) == Some(o) && f.GetEither(AttributeField, PropertyField) == Some(p)
    ensures Significant(call.Get(ArgumentsField).value.children) == [a] && a.kind == Identifier
    ensures Receiver(o, lang, st, h) == Known(LibraryV(library))
    ensures ConventionOf(lang, library, h.canon(p.text)) == ThroughShell
    ensures UseOf(h.canon(a.text), st) == Bound(v) && (v.TextV? || v.BytesV?)
  {
    var f := call.Get(FunctionField).value;
    o, p := f.Get(ObjectField).value, f.GetEither(AttributeField, PropertyField).value;
    hide Significant;
    a := Significant(call.Get(ArgumentsField).value.children)[0];
    hide ConventionOf;
    hide UseOf;
    ReceiverIsNoShell(o, lang, st, h);
    hide Receiver;
    library := Receiver(o, lang, st, h).v.name;
    v := UseOf(h.canon(a.text), st).v;
  }

  lemma ReceiverIsNoShell(o: Node, lang: Language, st: State, h: Host)
    ensures var r := Receiver(o, lang, st, h); r.Stops? ==> r.b == Raised || r.b == Unknown
  {
    hide StringValue;
    hide Significant;
    hide Library;
  }

  /** The receiver of such a call is the module that the analysis takes it for. */
  lemma ReceiverIsModule(o: Node, library: string, names: Names, nodes: map<string, Node>, st: State, start: State,
                         lang: Language, h: Host) returns (m: StandardModule)
    requires Honest(h) && Tracks(names, nodes, st, start, lang, h) && IsPlain(start)
    requires Receiver(o, lang, st, h) == Known(LibraryV(library))
    requires if o.kind == Identifier then IsPlainName(o.text) else LoadsNode(o, lang)
    ensures StandsFor(m, library, lang)
    ensures if o.kind == Identifier then o.text in names && names[o.text] == ModuleBinding(m)
            else RequiredModule(o, lang) == Some(m)
  {
    hide Tracks;
    hide RequiredModule;
    hide Load;
    hide CallsLoader;
    hide LoadsNode;
    hide Honest;
    hide IsPlainName;
    if o.kind == Identifier {
      PlainIsAscii(o.text);
      PlainIsItself(o.text, h);
      LibraryIsRecorded(o.text, library, names, nodes, st, start, lang, h);
      m := names[o.text].m;
    } else {
      LoadsIsRequired(o, lang);
      RequiredModuleLoads(o, lang, st, h);
      m := NodeChildProcess;
    }
  }

  /** A call that reaches a shell is one that the analysis takes for a sink, on a recorded text. */
  lemma ShellCallIsSink(call: Node, lang: Language, names: Names, nodes: map<string, Node>, st: State, start: State,
                        h: Host) returns (arg: string)
    requires Honest(h) && Tracks(names, nodes, st, start, lang, h) && IsPlain(start)
    requires PlainCall(call, lang) && MethodCall(call, lang, st, h).Shell?
    ensures IsCallTo(call, names, lang, arg) && arg in names && names[arg].TextBinding?
  {
    hide *;
    var o, p, a, library, v := ShellCallCases(call, lang, st, h);
    PlainCallCases(call, lang, o, p, a);
    PlainIsAscii(p.text);
    PlainIsAscii(a.text);
    PlainIsItself(p.text, h);
    PlainIsItself(a.text, h);
    var m := ReceiverIsModule(o, library, names, nodes, st, start, lang, h);
    SinkTableExact(m, library, p.text, lang);
    TextIsRecorded(a.text, v, names, nodes, st, start, lang, h);
    arg := a.text;
    SinkIsCallTo(call, lang, names, o, p, a, m);
  }

  lemma PlainCallCases(call: Node, lang: Language, o: Node, p: Node, a: Node)
    requires PlainCall(call, lang)
    requires call.Get(FunctionField).Some? && call.Get(FunctionField).value.Get(ObjectField) == Some(o)
    requires call.Get(FunctionField).value.GetEither(AttributeField, PropertyField) == Some(p)
    requires call.Get(ArgumentsField).Some? && Significant(call.Get(ArgumentsField).value.children) == [a]
    requires a.kind == Identifier
    ensures call.IsCall() && (p.kind == Identifier || p.kind == PropertyIdentifier)
    ensures IsPlainName(p.text) && IsPlainName(a.text)
    ensures if o.kind == Identifier then IsPlainName(o.text) else LoadsNode(o, lang)
  {
    hide IsPlainName;
    hide LoadsNode;
    assert a in Significant(call.Get(ArgumentsField).value.children);
  }

  lemma SinkIsCallTo(call: Node, lang: Language, names: Names, o: Node, p: Node, a: Node, m: StandardModule)
    requires call.IsCall() && call.Get(FunctionField).Some? && call.Get(ArgumentsField).Some?
    requires var f := call.Get(FunctionField).value;
             && (f.kind == Attribute || f.kind == MemberExpression)
             && f.Get(ObjectField) == Some(o) && f.GetEither(AttributeField, PropertyField) == Some(p)
    requires p.kind == Identifier || p.kind == PropertyIdentifier
    requires if o.kind == Identifier then o.text in names && names[o.text] == ModuleBinding(m)
             else RequiredModule(o, lang) == Some(m)
    requires IsShellSink(m, p.text)
    requires Significant(call.Get(ArgumentsField).value.children) == [a] && a.kind == Identifier
    ensures IsCallTo(call, names, lang, a.text)
  {
    hide IsShellSink;
    hide RequiredModule;
    hide Significant;
  }

  // ------------------------------------------------------------- evaluations

  /** Admission, exactly: a broken node among the first 4096 counts before the number of nodes does. */
  lemma {:induction false} AdmitExact(ns: seq<Node>, seen: nat)
    requires seen <= 4096
    ensures Admit(ns, seen) == Broken <==> exists k :: 0 <= k < |ns| && seen + k < 4096 && !IsHealthy(ns[k])
    ensures Admit(ns, seen) == TooLong <==>
              seen + |ns| > 4096 && forall k :: 0 <= k < |ns| && seen + k < 4096 ==> IsHealthy(ns[k])
    decreases |ns|
  {
    hide IsHealthy;
    hide IsBroken;
    if ns != [] && seen < 4096 {
      BrokenMeans(ns[0]);
      if !IsBroken(ns[0]) {
        AdmitExact(ns[1..], seen + 1);
        forall k | 1 <= k < |ns| ensures ns[k] == ns[1..][k - 1] {}
        if k :| 0 <= k < |ns| && seen + k < 4096 && !IsHealthy(ns[k]) { assert !IsHealthy(ns[1..][k - 1]); }
      }
    }
  }

  lemma BrokenMeans(d: Node)
    ensures IsBroken(d) <==> !IsHealthy(d)
  {}

  lemma SourceDepends(code: string, tree: Node, call: Node, lang: Language, names: Names, parse: Parser, arg: string)
    requires Utf8Length(code) <= 65536 && parse(code, lang) == Some(tree)
    requires Admit([tree] + Below(tree), 0) == Whole && OnlyStatement(tree) == Some(call)
    requires IsCallTo(call, names, lang, arg)
    ensures Dependency(code, lang, names, parse) == Ok(Some(arg))
  {
    hide BoundCallee;
    hide Significant;
    hide Admit;
    hide OnlyStatement;
    hide IsShellSink;
    hide Below;
    hide Utf8Length;
  }

  lemma PlainSourceCases(tree: Node, lang: Language) returns (call: Node)
    requires PlainSource(tree, lang)
    ensures Admit([tree] + Below(tree), 0) == Whole && OnlyStatement(tree) == Some(call) && PlainCall(call, lang)
    ensures |Significant(tree.children)| == 1 && Holds(Significant(tree.children)[0], call, 3)
  {
    hide PlainCall;
    hide Holds;
    hide Significant;
    hide Below;
    call :| Holds(Significant(tree.children)[0], call, 3) && PlainCall(call, lang);
    hide IsHealthy;
    hide Admit;
    AdmitExact([tree] + Below(tree), 0);
    HeldIsUnwrapped(Significant(tree.children)[0], call, 3);
  }

  lemma PlainEvaluationCases(n: Node, lang: Language, parse: Parser) returns (l: Node, code: string)
    requires PlainEvaluation(n, lang, parse)
    ensures n.IsCall() && EvaluatedSource(n, lang) == Some(code) && SourceNode(n) == l && NodeMisreadings(l, lang) == 0
    ensures Utf8Length(code) <= 65536 && parse(code, lang).Some? && PlainSource(parse(code, lang).value, lang)
  {
    hide StaticLiteral;
    hide Significant;
    hide NodeMisreadings;
    hide PlainSource;
    hide Utf8Length;
    var arguments := n.Get(ArgumentsField).value;
    l, code :| Significant(arguments.children) == [l] && ReadsAs(l, arguments, lang, code)
      && NodeMisreadings(l, lang) == 0 && parse(code, lang).Some? && PlainSource(parse(code, lang).value, lang);
  }

  lemma EvaluateCases(code: string, lang: Language, st: State, h: Host, tree: Node, call: Node)
    requires h.parse(code, lang) == Some(tree) && |Significant(tree.children)| == 1
    requires Peel(Significant(tree.children)[0]) == call && call.IsCall()
    ensures Evaluate(code, lang, st, h) == MethodCall(call, lang, st, h)
  {
    hide MethodCall;
    hide Peel;
    hide Significant;
  }

  /** An evaluation that reaches a shell is reported. */
  lemma EvaluationIsReported(n: Node, lang: Language, names: Names, nodes: map<string, Node>, st: State, start: State,
                             h: Host) returns (arg: string)
    requires Honest(h) && Tracks(names, nodes, st, start, lang, h) && IsPlain(start)
    requires PlainEvaluation(n, lang, h.parse) && RunCall(n, lang, st, h).Shell?
    ensures EvaluatedSource(n, lang).Some?
    ensures Dependency(EvaluatedSource(n, lang).value, lang, names, h.parse) == Ok(Some(arg))
    ensures arg in names && names[arg].TextBinding?
  {
    hide *;
    var l, code := PlainEvaluationCases(n, lang, h.parse);
    EvaluatorRuns(n, lang, st, h);
    StuckIsNoShell(RunCall(n, lang, st, h));
    var tree := h.parse(code, lang).value;
    var call := PlainSourceCases(tree, lang);
    PlainIsCall(call, lang);
    HeldIsUnwrapped(Significant(tree.children)[0], call, 3);
    UnwrapRuns(Significant(tree.children)[0], 4, lang, st, h);
    EvaluateCases(code, lang, st, h, tree, call);
    arg := ShellCallIsSink(call, lang, names, nodes, st, start, h);
    SourceDepends(code, tree, call, lang, names, h.parse, arg);
  }

  lemma PlainIsCall(call: Node, lang: Language)
    requires PlainCall(call, lang)
    ensures call.IsCall()
  {}

  // ----------------------------------------------------------- whole programs

  lemma HeadCases(ns: seq<Node>, k: nat, lang: Language, parse: Parser) returns (n: Node)
    requires PlainHead(ns, k, lang, parse)
    ensures ns != [] && Unwrap(ns[0], 4) == Some(n)
    ensures if k == 0 then PlainEvaluation(n, lang, parse)
            else PlainBinding(n, lang) && PlainHead(ns[1..], k - 1, lang, parse)
  {
    hide Holds;
    hide PlainBinding;
    hide PlainEvaluation;
    hide Unwrap;
    if k == 0 {
      n :| Holds(ns[0], n, 3) && PlainEvaluation(n, lang, parse);
    } else {
      n :| Holds(ns[0], n, 3) && PlainBinding(n, lang);
      var rest := ns[1..];
      forall i | 0 <= i < k - 1 ensures exists m :: Holds(rest[i], m, 3) && PlainBinding(m, lang) {
        assert rest[i] == ns[i + 1];
      }
      assert rest[k - 1] == ns[k];
    }
    HeldIsUnwrapped(ns[0], n, 3);
  }

  lemma BindingIsNoCall(n: Node, lang: Language)
    requires PlainBinding(n, lang)
    ensures !n.IsCall()
  {}

  lemma RecordedRoom(n: Node, lang: Language, names: Names)
    requires RecordedBinding(n, lang).Some? && |names| < MAX_CANDIDATES
    ensures Recorded(n, lang, names).Some? && |Recorded(n, lang, names).value| <= |names| + 1
  {
    hide RecordedBinding;
    var r := RecordedBinding(n, lang).value;
    assert names[r.0 := r.1].Keys == names.Keys + {r.0};
    assert |names.Keys + {r.0}| <= |names.Keys| + 1;
  }

  /** From any tracked point: if the rest of a plain program reaches a shell, it is reported. */
  lemma {:induction false} ShellIsReported(ns: seq<Node>, k: nat, lang: Language, names: Names,
                                           nodes: map<string, Node>, st: State, start: State, h: Host)
    requires Honest(h) && Tracks(names, nodes, st, start, lang, h) && Loads(names, start, lang) && IsPlain(start)
    requires Rest(names, nodes, lang) && AreStatements(ns)
    requires PlainHead(ns, k, lang, h.parse) && |names| + k <= MAX_CANDIDATES
    requires ExecAll(ns, lang, st, h).Halt? && ExecAll(ns, lang, st, h).b.Shell?
    ensures var r, q := Commands(ns, lang, names, h.parse), Reported(ns, lang, names, nodes, h.parse);
            r.Ok? && r.value != [] && q.Some? && NodeMisreadings(q.value.source, lang) == 0
    decreases k
  {
    hide *;
    var n := HeadCases(ns, k, lang, h.parse);
    CommandsNext(ns, lang, names, h.parse);
    OneCommand(ns, lang, names, nodes, h.parse);
    if Reported(ns, lang, names, nodes, h.parse).Some? { ReportedCases(ns, lang, names, nodes, h.parse); }
    NextStatement(ns, lang, st, h);
    if k == 0 {
      EvaluationIsCall(n, lang, h.parse);
      CallRuns(n, lang, st, h);
      var l, code := PlainEvaluationCases(n, lang, h.parse);
      var arg := EvaluationIsReported(n, lang, names, nodes, st, start, h);
      RestCovers(arg, names, nodes, lang);
      ReportCases(n, code, arg, lang, names, nodes, h.parse);
    } else {
      BindingIsNoCall(n, lang);
      PlainIsRecorded(n, lang);
      RecordedRoom(n, lang, names);
      var st' := RecordedStep(n, lang, names, nodes, st, start, h);
      if Exec(n, lang, st, h).Halt? {
        StuckIsNoShell(Exec(n, lang, st, h).b);
      } else {
        ShellIsReported(ns[1..], k - 1, lang, Recorded(n, lang, names).value, NodesAfter(n, lang, nodes), st', start,
            h);
      }
    }
  }

  lemma RestCovers(x: string, names: Names, nodes: map<string, Node>, lang: Language)
    requires Rest(names, nodes, lang) && x in names && names[x].TextBinding?
    ensures x in nodes
  {
    hide IsTextOf;
  }

  lemma EvaluationIsCall(n: Node, lang: Language, parse: Parser)
    requires PlainEvaluation(n, lang, parse)
    ensures n.IsCall()
  {}

  lemma ProgramHalts(root: Node, lang: Language, h: Host)
    requires RunProgram(root, lang, h).Shell?
    ensures var e := ExecAll(root.children, lang, Start(root, lang, h), h);
            e.Halt? && e.b == RunProgram(root, lang, h) && !h.rejects(root)
  {
    hide ExecAll;
    hide Start;
  }

  /** The report, completely: in either language a plain program that hands a command to a shell in
      some host is reported, and if the reported literal is not misread the report is that command. */
  lemma ShellRunsAreReported(root: Node, k: nat, lang: Language, h: Host)
    requires Honest(h) && NothingHoisted(root, lang) && k <= 128
             && PlainHead(Significant(root.children), k, lang, h.parse)
    requires RunProgram(root, lang, h).Shell?
    ensures var r, q := EvaluatedCommands(root, lang, h.parse), ReportOn(root, lang, h.parse);
            && r.Ok? && |r.value| == 1 && q.Some?
            && (IsRead(q.value, lang) ==> RunProgram(root, lang, h) == Shell(r.value[0].command))
  {
    hide *;
    var ns, start := Significant(root.children), Start(root, lang, h);
    NothingTracked(start, lang, h);
    StartIsPlain(root, lang, h);
    AreSignificant(root.children);
    ExecSignificant(root.children, lang, start, h);
    ProgramHalts(root, lang, h);
    Candidates();
    HoistingExact(root, lang);
    ShellIsReported(ns, k, lang, map[], map[], start, start, h);
    CommandsOfRoot(root, lang, h.parse);
    ReportCasesOf(root, lang, h.parse);
    ReportedCommandRuns(root, lang, h);
    var q := ReportOn(root, lang, h.parse).value;
    LandsCases(RunProgram(root, lang, h), Reaches(q, root, lang, h), q, lang, h);
    StuckIsNoShell(RunProgram(root, lang, h));
  }

  lemma Candidates()
    ensures MAX_CANDIDATES == 128 && var none: Names := map[]; |none| == 0
  {}

  lemma CommandsOfRoot(root: Node, lang: Language, parse: Parser)
    requires NoHoisting(root, lang)
    ensures EvaluatedCommands(root, lang, parse) == Commands(Significant(root.children), lang, map[], parse)
  {
    hide NoHoisting;
    hide Commands;
    hide Significant;
  }
}

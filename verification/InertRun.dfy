/** A concrete evaluator for the same trees, and the soundness of the documentation proof
    against it. What the outside world answers is left open; what a program asks of it is
    recorded. Everything the evaluator has no rule for is an opaque effect. */
module InertRun {
  import opened InertProof
  import opened Spelling
  import opened Syntax
  import opened Wrappers

  datatype Value =
    | TextV(text: string)
    | ScalarV(data: string)
    | FileV(handle: nat)
    | ModuleV(name: string)
    | UnknownV

  /** An argument as written and as passed. */
  datatype Arg = Arg(node: Node, value: Value)

  datatype Effect =
    | Print(args: seq<Arg>)
    | Console(member: string, args: seq<Arg>)
    | Open(args: seq<Arg>)
    | Require(name: string, args: seq<Arg>)
    | TextMethod(member: string, receiver: string, args: seq<Arg>)
    | FileMethod(member: string, handle: nat, args: seq<Arg>)
    | ModuleMethod(member: string, name: string, args: seq<Arg>)
    | Arithmetic(op: string, left: Value, right: Value)
    | Opaque(node: Node)

  // ------------------------------------------------------ the runtime's API

  /** The names programs are given. */
  const API_NAMES: set<string> := {"print", "open", "console", "require"}

  /** String methods that return a string and do nothing else. */
  const TEXT_METHODS: set<string> := {
    "replace", "replaceAll", "removeprefix", "removesuffix", "strip", "lstrip", "rstrip", "trim",
    "trimStart", "trimEnd",
    "lower", "upper", "toLowerCase", "toUpperCase" }

  const CONSOLE_METHODS: set<string> := {"log", "info", "warn", "error"}

  const FILE_WRITES: set<string> := {"write", "flush", "close"}

  /** The file-system module's names, and its functions that write. */
  const FILE_SYSTEM: set<string> := {"fs", "node:fs"}

  const FILE_SYSTEM_WRITES: set<string> := {"writeFileSync", "appendFileSync"}

  const ARITHMETIC: set<string> := {"+", "-", "*", "/", "%"}

  /** Options of `open` that run no code, and the codecs that are built in. */
  const OPEN_OPTIONS: set<string> := {"file", "mode", "buffering"}

  const CODECS: set<string> := {"ascii", "latin1", "latin-1", "utf8", "utf-8"}

  /** Every operation is answered with data or raises, depending on all that happened before.
      `spell` is the text a string with interpolations comes to, `text` the value of a literal's
      source text, `canon` the name that a spelling stands for, and `fixed` are the names that a
      script cannot assign. */
  datatype World = World(
    answer: (seq<Effect>, Effect) -> Option<string>,
    spell: (Node, seq<Value>) -> string,
    text: string -> string,
    canon: string -> string,
    fixed: set<string>)

  /** The world reads names and literals the way the languages do. */
  ghost predicate Proper(w: World) {
    IsNaming(w.canon) && forall t, s :: Spells(t, s, JavaScript) ==> w.text(t) == s
  }

  datatype Machine = Machine(env: map<string, Value>, trace: seq<Effect>)

  datatype Outcome = Returned(value: Value) | Raised

  datatype Run = Run(outcome: Outcome, machine: Machine)

  /** Several values, or an exception on the way. */
  datatype Runs = Runs(values: Option<seq<Value>>, machine: Machine)

  function Perform(e: Effect, result: string -> Value, w: World, m: Machine): Run {
    var answer := w.answer(m.trace, e);
    Run(if answer.Some? then Returned(result(answer.value)) else Raised, m.(trace := m.trace + [e]))
  }

  function Unruly(n: Node, w: World, m: Machine): Run {
    Perform(Opaque(n), _ => UnknownV, w, m)
  }

  /** The evaluator. A binding takes the value of its right-hand side; children run in order. */
  function Eval(n: Node, lang: Language, w: World, m: Machine): Run
    decreases n, 3
  {
    match n.kind
    case Module | Program | LexicalDeclaration | VariableDeclaration =>
      var r := EvalAll(n.children, lang, w, m);
      Run(if r.values.Some? then Returned(ScalarV([])) else Raised, r.machine)
    case ExpressionStatement | Parenthesized =>
      var named := Significant(n.children);
      if |named| == 1 then
        assert named[0] in n.children;
        Eval(named[0], lang, w, m)
      else Unruly(n, w, m)
    case Assignment | VariableDeclarator => EvalBinding(n, lang, w, m)
    case Identifier =>
      if w.canon(n.text) in m.env then Run(Returned(m.env[w.canon(n.text)]), m) else Unruly(n, w, m)
    case ScalarLiteral => Run(Returned(ScalarV(n.text)), m)
    case StringLiteral | TemplateString =>
      var r := EvalParts(n.children, -1, lang, w, m);
      Run(if r.values.Some? then Returned(TextV(w.spell(n, r.values.value))) else Raised, r.machine)
    case ConcatenatedString =>
      var r := EvalAll(n.children, lang, w, m);
      if r.values.None? then Run(Raised, r.machine)
      else if forall k :: 0 <= k < |r.values.value| ==> r.values.value[k].TextV? then
        Run(Returned(TextV(w.spell(n, r.values.value))), r.machine)
      else Unruly(n, w, r.machine)
    case BinaryOperator | BinaryExpression => EvalBinary(n, lang, w, m)
    case Call | CallExpression => EvalCall(n, lang, w, m)
    case _ => Unruly(n, w, m)
  }

  /** The significant children in order. */
  function EvalAll(ns: seq<Node>, lang: Language, w: World, m: Machine): Runs
    decreases ns, 0
  {
    if ns == [] then Runs(Some([]), m)
    else if !ns[0].named || ns[0].kind == Comment then EvalAll(ns[1..], lang, w, m)
    else
      var r := Eval(ns[0], lang, w, m);
      if r.outcome.Raised? then Runs(None, r.machine) else
      var rest := EvalAll(ns[1..], lang, w, r.machine);
      if rest.values.None? then rest else rest.(values := Some([r.outcome.value] + rest.values.value))
  }

  /** Assigning to anything but one plain name runs code this evaluator does not know. */
  function EvalBinding(n: Node, lang: Language, w: World, m: Machine): Run
    decreases n, 2
  {
    var left, right := n.GetEither(LeftField, NameField), n.GetEither(RightField, ValueField);
    if |Significant(n.children)| != 2 || left.None? || left.value.kind != Identifier || right.None? then Unruly(n, w, m)
    else
      var r := Eval(right.value, lang, w, m);
      if r.outcome.Raised? then r
      else r.(machine := Store(r.machine, w.canon(left.value.text), r.outcome.value, w))
  }

  /** Assigning a name that a script cannot assign does nothing. */
  function Store(m: Machine, x: string, v: Value, w: World): Machine {
    if x in w.fixed then m else m.(env := m.env[x := v])
  }

  /** The interpolations below a string, in order. The child at `skip` has run already. */
  function EvalParts(ns: seq<Node>, skip: int, lang: Language, w: World, m: Machine): Runs
    decreases ns, 0
  {
    if ns == [] then Runs(Some([]), m)
    else if skip == 0 then EvalParts(ns[1..], -1, lang, w, m)
    else
      var head := if ns[0].IsInterpolation() then EvalInterpolation(ns[0], lang, w, m)
                  else EvalParts(ns[0].children, -1, lang, w, m);
      if head.values.None? then head else
      var rest := EvalParts(ns[1..], skip - 1, lang, w, head.machine);
      if rest.values.None? then rest else rest.(values := Some(head.values.value + rest.values.value))
  }

  /** The expression, its conversion to text, and then any interpolation in its format. */
  function EvalInterpolation(part: Node, lang: Language, w: World, m: Machine): Runs
    decreases part, 2
  {
    if Operand(part).None? then Runs(None, Unruly(part, w, m).machine) else
    var r := Eval(Operand(part).value, lang, w, m);
    if r.outcome.Raised? then Runs(None, r.machine)
    else if !r.outcome.value.TextV? && !r.outcome.value.ScalarV? then Runs(None, Unruly(part, w, r.machine).machine)
    else
      var more := EvalParts(part.children, OperandIndex(part), lang, w, r.machine);
      if more.values.None? then more else more.(values := Some([r.outcome.value] + more.values.value))
  }

  function EvalBinary(n: Node, lang: Language, w: World, m: Machine): Run
    decreases n, 2
  {
    var left, right, op := n.Get(LeftField), n.Get(RightField), n.Get(OperatorField);
    if left.None? || right.None? || op.None? then Unruly(n, w, m) else
    var l := Eval(left.value, lang, w, m);
    if l.outcome.Raised? then l else
    var r := Eval(right.value, lang, w, l.machine);
    if r.outcome.Raised? then r else
    Operate(op.value.text, l.outcome.value, r.outcome.value, n, w, r.machine)
  }

  function Operate(op: string, a: Value, b: Value, n: Node, w: World, m: Machine): Run {
    if a.TextV? && b.TextV? && op == "+" then Perform(Arithmetic(op, a, b), s => TextV(s), w, m)
    else if a.ScalarV? && b.ScalarV? && op in ARITHMETIC then Perform(Arithmetic(op, a, b), s => ScalarV(s), w, m)
    else Unruly(n, w, m)
  }

  datatype ArgRuns = ArgRuns(args: Option<seq<Arg>>, machine: Machine)

  function EvalArgs(ns: seq<Node>, lang: Language, w: World, m: Machine): ArgRuns
    decreases ns, 0
  {
    if ns == [] then ArgRuns(Some([]), m)
    else if !ns[0].named || ns[0].kind == Comment then EvalArgs(ns[1..], lang, w, m)
    else
      var value := ArgumentValue(ns[0]);
      if value.None? then ArgRuns(None, Unruly(ns[0], w, m).machine) else
      var r := Eval(value.value, lang, w, m);
      if r.outcome.Raised? then ArgRuns(None, r.machine) else
      var rest := EvalArgs(ns[1..], lang, w, r.machine);
      if rest.args.None? then rest else rest.(args := Some([Arg(ns[0], r.outcome.value)] + rest.args.value))
  }

  function EvalCall(n: Node, lang: Language, w: World, m: Machine): Run
    decreases n, 2
  {
    var callee, arguments := n.Get(FunctionField), n.Get(ArgumentsField);
    if callee.None? || arguments.None? then Unruly(n, w, m)
    else if arguments.value.kind != ArgumentList && arguments.value.kind != Arguments then Unruly(n, w, m)
    else EvalCallee(n, callee.value, arguments.value, lang, w, m)
  }

  function EvalCallee(n: Node, f: Node, arguments: Node, lang: Language, w: World, m: Machine): Run
    requires f in n.children && arguments in n.children
    decreases n, 1
  {
    if f.kind == Identifier then EvalNamedCall(n, w.canon(f.text), arguments, lang, w, m)
    else if f.kind != Attribute && f.kind != MemberExpression then Unruly(n, w, m)
    else
      var target, member := f.Get(ObjectField), f.GetEither(AttributeField, PropertyField);
      if target.None? || member.None? then Unruly(n, w, m)
      else if IsConsole(target.value, lang, w, m)
        then EvalConsoleCall(n, w.canon(member.value.text), arguments, lang, w, m)
      else EvalMethodCall(n, f, target.value, w.canon(member.value.text), arguments, lang, w, m)
  }

  /** A bound name shadows the API of the same name. */
  function EvalNamedCall(n: Node, name: string, arguments: Node, lang: Language, w: World, m: Machine): Run
    decreases arguments, 2
  {
    if name in m.env then Unruly(n, w, m) else
    var a := EvalArgs(arguments.children, lang, w, m);
    if a.args.None? then Run(Raised, a.machine) else CallNamed(n, name, a.args.value, lang, w, a.machine)
  }

  function EvalConsoleCall(n: Node, member: string, arguments: Node, lang: Language, w: World, m: Machine): Run
    decreases arguments, 2
  {
    var a := EvalArgs(arguments.children, lang, w, m);
    if a.args.None? then Run(Raised, a.machine)
    else if member in CONSOLE_METHODS then Perform(Console(member, a.args.value), s => ScalarV(s), w, a.machine)
    else Unruly(n, w, a.machine)
  }

  /** The receiver first, then the arguments, then the call. */
  function EvalMethodCall(n: Node, f: Node, target: Node, member: string, arguments: Node, lang: Language, w: World,
                          m: Machine): Run
    requires f in n.children && arguments in n.children && target in f.children
    decreases n, 0
  {
    var r := Eval(target, lang, w, m);
    if r.outcome.Raised? then r else
    var a := EvalArgs(arguments.children, lang, w, r.machine);
    if a.args.None? then Run(Raised, a.machine)
    else CallMethod(n, r.outcome.value, member, a.args.value, w, a.machine)
  }

  predicate IsConsole(target: Node, lang: Language, w: World, m: Machine) {
    lang == JavaScript && target.kind == Identifier && w.canon(target.text) == "console" && "console" !in m.env
  }

  function CallNamed(n: Node, name: string, args: seq<Arg>, lang: Language, w: World, m: Machine): Run {
    if lang == Python && name == "print" then Perform(Print(args), s => ScalarV(s), w, m)
    else if lang == Python && name == "open" && args != [] then Perform(Open(args), _ => FileV(|m.trace|), w, m)
    else if lang == JavaScript && name == "require" && |args| == 1 then
      var library := w.text(args[0].node.text);
      Perform(Require(library, args), _ => ModuleV(library), w, m)
    else Unruly(n, w, m)
  }

  function CallMethod(n: Node, receiver: Value, member: string, args: seq<Arg>, w: World, m: Machine): Run {
    match receiver
    case TextV(t) =>
      if member in TEXT_METHODS then Perform(TextMethod(member, t, args), s => TextV(s), w, m) else Unruly(n, w, m)
    case FileV(h) =>
      if member == "read" then Perform(FileMethod(member, h, args), s => TextV(s), w, m)
      else if member in FILE_WRITES then Perform(FileMethod(member, h, args), s => ScalarV(s), w, m)
      else Unruly(n, w, m)
    case ModuleV(name) =>
      if name !in FILE_SYSTEM then Unruly(n, w, m)
      else if member == "readFileSync" then Perform(ModuleMethod(member, name, args), s => TextV(s), w, m)
      else if member in FILE_SYSTEM_WRITES then Perform(ModuleMethod(member, name, args), s => ScalarV(s), w, m)
      else Unruly(n, w, m)
    case _ => Unruly(n, w, m)
  }

  // ------------------------------------------------------------ what is safe

  predicate PlainArgs(args: seq<Arg>) {
    forall k :: 0 <= k < |args| ==> args[k].value.TextV? || args[k].value.ScalarV?
  }

  function Written(args: seq<Arg>): seq<Node> {
    if args == [] then [] else [args[0].node] + Written(args[1..])
  }

  /** The name of a built-in codec, between quotes. */
  predicate NamesCodec(text: string) {
    exists i, j :: 0 <= i <= j <= |text| && text[i..j] in CODECS && AreQuotes(text[..i]) && AreQuotes(text[j..])
  }

  predicate IsQuoteMark(c: char) { c == '\'' || c == '"' }

  predicate AreQuotes(s: string) {
    forall k :: 0 <= k < |s| ==> IsQuoteMark(s[k])
  }

  /** The positions of the arguments that are passed by position. */
  function Positions(args: seq<Node>): set<nat> {
    set k: nat | k < |args| && args[k].kind != KeywordArgument
  }

  /** `open` with at most three positional arguments and no option that could run code. */
  predicate OpensPlainly(args: seq<Node>) {
    && |Positions(args)| <= 3
    && forall k :: 0 <= k < |args| && args[k].kind == KeywordArgument ==>
         && args[k].Get(NameField).Some?
         && (|| args[k].Get(NameField).value.text in OPEN_OPTIONS
             || (&& args[k].Get(NameField).value.text == "encoding" && args[k].Get(ValueField).Some?
                 && args[k].Get(ValueField).value.kind == StringLiteral
                 && NamesCodec(args[k].Get(ValueField).value.text)))
  }

  /** Only the listed APIs, with text and scalars as arguments; files are opened plainly, the
      only module is the file system's, and nothing opaque happens. */
  predicate Safe(e: Effect) {
    match e
    case Print(args) => PlainArgs(args)
    case Console(member, args) => member in CONSOLE_METHODS && PlainArgs(args)
    case Open(args) => PlainArgs(args) && OpensPlainly(Written(args))
    case Require(name, args) => name in FILE_SYSTEM && |args| == 1 && PlainArgs(args)
    case TextMethod(member, _, args) => member in TEXT_METHODS && PlainArgs(args)
    case FileMethod(member, _, args) => (member == "read" || member in FILE_WRITES) && PlainArgs(args)
    case ModuleMethod(member, name, args) =>
      name in FILE_SYSTEM && (member == "readFileSync" || member in FILE_SYSTEM_WRITES) && PlainArgs(args)
    case Arithmetic(op, a, b) =>
      (a.TextV? && b.TextV? && op == "+") || (a.ScalarV? && b.ScalarV? && op in ARITHMETIC)
    case Opaque(_) => false
  }

  /** A file handle stands for an `open` that happened. */
  predicate Opened(h: nat, trace: seq<Effect>) {
    h < |trace| && trace[h].Open?
  }

  predicate SafeTrace(trace: seq<Effect>) {
    forall i :: 0 <= i < |trace| ==>
      Safe(trace[i]) && (trace[i].FileMethod? ==> Opened(trace[i].handle, trace[..i]))
  }

  predicate HasKind(v: Value, k: Abstract, trace: seq<Effect>) {
    match k
    case Text => v.TextV?
    case Scalar => v.ScalarV?
    case File => v.FileV? && Opened(v.handle, trace)
    case NodeFs => v.ModuleV? && v.name in FILE_SYSTEM
  }

  /** The spellings are names of their own that a script can assign, and none of them is one of the API's. */
  predicate Apart(names: set<string>, canon: string -> string, fixed: set<string>) {
    && (forall x :: x in names ==> canon(x) !in API_NAMES && canon(x) !in fixed)
    && (forall x, y :: x in names && y in names && canon(x) == canon(y) ==> x == y)
  }

  /** The API names keep their meaning. */
  predicate Free(m: Machine) {
    forall x :: x in API_NAMES ==> x !in m.env
  }

  function Images(names: set<string>, canon: string -> string): set<string> {
    set x | x in names :: canon(x)
  }

  /** Every recorded name is a variable of its own with a value of its recorded kind, and nothing
      else is bound. */
  ghost predicate Tracks(values: map<string, Abstract>, m: Machine, w: World) {
    && Proper(w) && Apart(values.Keys, w.canon, w.fixed)
    && m.env.Keys == Images(values.Keys, w.canon)
    && (forall x :: x in values ==> w.canon(x) in m.env && HasKind(m.env[w.canon(x)], values[x], m.trace))
  }

  ghost predicate Consistent(s: State, m: Machine, w: World) {
    SafeTrace(m.trace) && Tracks(s.values, m, w)
  }

  /** The run kept to what the proof predicts: a value of kind `k`, or an exception. */
  ghost predicate Conforms(k: Abstract, s: State, m: Machine, r: Run, w: World) {
    && m.trace <= r.machine.trace
    && SafeTrace(r.machine.trace) && Free(r.machine)
    && (r.outcome.Returned? ==> HasKind(r.outcome.value, k, r.machine.trace) && Tracks(s.values, r.machine, w))
  }
}

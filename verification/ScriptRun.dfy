/** How straight-line Python and JavaScript programs run, as far as names, literals, modules and
    shells go. Independent of the analysis in LiteralBindings: literals mean what they spell,
    names are what their spellings stand for, and libraries have their own functions. */
module ScriptRun {
  import opened Spelling
  import opened Syntax
  import opened Wrappers

  // -------------------------------------------------------------- libraries

  /** What a library function does with its first argument. */
  datatype Convention = ThroughShell | StartsProgram | Anything

  function PythonConvention(library: string, name: string): Convention {
    match library
    case "os" =>
      if name in {"system", "popen"} then ThroughShell
      else if name in {"execv", "execve", "execvp", "execvpe", "spawnv", "spawnve", "posix_spawn", "startfile"}
        then StartsProgram
      else Anything
    case "posix" =>
      if name in {"system", "popen"} then ThroughShell
      else if name in {"execv", "execve", "posix_spawn"} then StartsProgram
      else Anything
    case "subprocess" =>
      if name in {"getoutput", "getstatusoutput"} then ThroughShell
      else if name in {"run", "call", "check_call", "check_output", "Popen"} then StartsProgram
      else Anything
    case _ => Anything
  }

  function NodeConvention(library: string, name: string): Convention {
    match library
    case "child_process" =>
      if name in {"exec", "execSync"} then ThroughShell
      else if name in {"execFile", "execFileSync", "spawn", "spawnSync", "fork"} then StartsProgram
      else Anything
    case _ => Anything
  }

  function ConventionOf(lang: Language, library: string, name: string): Convention {
    if lang == Python then PythonConvention(library, name) else NodeConvention(library, name)
  }

  // ------------------------------------------------------------------ states

  datatype Value = TextV(s: string) | BytesV(s: string) | LibraryV(name: string) | OtherV

  /** `dead` are the names that are declared but not yet initialised. */
  datatype State = State(env: map<string, Value>, dead: set<string>)

  /** The first thing a program does beyond binding names: hand a string to a shell, call a function
      that the installed library lacks, raise, or something this evaluator has no rule for. */
  datatype Behavior = Shell(command: string) | Missing(library: string, name: string) | Raised | Unknown | Ended

  /** What the language and the machine decide: the value of a literal's text, what other strings
      come to, which name a spelling stands for, how source parses, what the libraries have, which
      programs are refused before they run and which sources an evaluator refuses, the names that
      patterns and imports declare, those that `var` hides from the start, those that a script cannot
      assign, and the strings that can be handed to another process. */
  datatype Host = Host(
    text: (string, Language) -> string,
    made: Node -> string,
    canon: string -> string,
    parse: (string, Language) -> Option<Node>,
    offers: (string, string) -> bool,
    rejects: Node -> bool,
    refuses: (string, string) -> bool,
    binds: Node -> set<string>,
    vars: Node -> set<string>,
    fixed: set<string>,
    encodes: string -> bool)

  /** Names and literals are read the way the languages do. */
  ghost predicate Honest(h: Host) {
    IsNaming(h.canon) && forall t, s, lang :: Spells(t, s, lang) ==> h.text(t, lang) == s
  }

  // ------------------------------------------------------------------ values

  function StringValue(n: Node, parent: Option<Node>, lang: Language, h: Host): string
    decreases n, 1
  {
    if n.kind == ConcatenatedString then Pieces(n.children, n, lang, h)
    else if Interpolated(n) || (lang == JavaScript && Tagged(n, parent)) then h.made(n)
    else h.text(n.text, lang)
  }

  function Pieces(ns: seq<Node>, parent: Node, lang: Language, h: Host): string
    decreases ns, 0
  {
    if ns == [] then []
    else if !ns[0].named || ns[0].kind == Comment then Pieces(ns[1..], parent, lang, h)
    else StringValue(ns[0], Some(parent), lang, h) + Pieces(ns[1..], parent, lang, h)
  }

  /** A Python literal is bytes if there is a `b` before its quote. */
  predicate IsBytesText(t: string) {
    t != [] && t[0] != '\'' && t[0] != '"' && (Lower(t[0]) == 'b' || IsBytesText(t[1..]))
  }

  /** Adjacent literals are all bytes or all text. */
  predicate IsBytes(n: Node, lang: Language)
    decreases n, 1
  {
    lang == Python && if n.kind == ConcatenatedString then AnyBytes(n.children, lang) else IsBytesText(n.text)
  }

  predicate AnyBytes(ns: seq<Node>, lang: Language)
    decreases ns, 0
  {
    ns != [] && ((ns[0].named && ns[0].kind != Comment && IsBytes(ns[0], lang)) || AnyBytes(ns[1..], lang))
  }

  function LiteralValue(n: Node, parent: Node, lang: Language, h: Host): Value {
    var s := StringValue(n, Some(parent), lang, h);
    if IsBytes(n, lang) then BytesV(s) else TextV(s)
  }

  datatype Evaluated = Known(v: Value) | Stops(b: Behavior)

  /** A name as it is used; a name that nobody has bound is the language's own. */
  datatype Use = Dead | Bound(v: Value) | Builtin

  function UseOf(x: string, st: State): Use {
    if x in st.dead then Dead else if x in st.env then Bound(st.env[x]) else Builtin
  }

  predicate IsNamed(n: Node, name: string, h: Host) {
    n.kind == Identifier && h.canon(n.text) == name
  }

  predicate CallsLoader(n: Node, lang: Language, h: Host) {
    lang == JavaScript && n.kind == CallExpression && n.Get(FunctionField).Some?
      && IsNamed(n.Get(FunctionField).value, "require", h)
  }

  /** `node:fs` and `fs` are one library. */
  function Library(name: string): string {
    if "node:" <= name then name[5..] else name
  }

  function Load(n: Node, st: State, h: Host): Evaluated {
    match UseOf("require", st)
    case Dead => Stops(Raised)
    case Bound(_) => Stops(Unknown)
    case Builtin =>
      var arguments := n.Get(ArgumentsField);
      if arguments.None? then Stops(Unknown) else
      var args := Significant(arguments.value.children);
      if |args| == 1 && args[0].IsString() then Known(LibraryV(Library(StringValue(args[0], arguments, JavaScript, h))))
      else Stops(Unknown)
  }

  function ValueOf(n: Node, parent: Node, lang: Language, st: State, h: Host): Evaluated {
    if n.IsString() then Known(LiteralValue(n, parent, lang, h))
    else if CallsLoader(n, lang, h) then Load(n, st, h)
    else Stops(Unknown)
  }

  // ------------------------------------------------------------------- calls

  function Receiver(n: Node, lang: Language, st: State, h: Host): Evaluated {
    if n.kind == Identifier then
      match UseOf(h.canon(n.text), st)
      case Dead => Stops(Raised)
      case Bound(v) => Known(v)
      case Builtin => Stops(Unknown)
    else if CallsLoader(n, lang, h) then Load(n, st, h)
    else Stops(Unknown)
  }

  /** A command has no NUL and can be encoded; Node wants one that is not empty, and `os.popen` text. */
  predicate Takes(lang: Language, name: string, v: Value, h: Host) {
    && (v.TextV? || (v.BytesV? && name != "popen"))
    && '\0' !in v.s && (lang == JavaScript ==> v.s != []) && h.encodes(v.s)
  }

  /** A library function called with the value of one name. */
  function LibraryCall(library: string, name: string, arg: Use, lang: Language, h: Host): Behavior {
    if ConventionOf(lang, library, name) != ThroughShell then Unknown
    else if !h.offers(library, name) then Missing(library, name)
    else match arg
      case Dead => Raised
      case Bound(v) => if Takes(lang, name, v, h) then Shell(v.s) else if v.TextV? || v.BytesV? then Raised else Unknown
      case Builtin => Unknown
  }

  function MethodCall(call: Node, lang: Language, st: State, h: Host): Behavior {
    var f, arguments := call.Get(FunctionField), call.Get(ArgumentsField);
    if f.None? || arguments.None? || (f.value.kind != Attribute && f.value.kind != MemberExpression) then Unknown else
    var target, member := f.value.Get(ObjectField), f.value.GetEither(AttributeField, PropertyField);
    var args := Significant(arguments.value.children);
    if target.None? || member.None? || |args| != 1 || args[0].kind != Identifier then Unknown else
    match Receiver(target.value, lang, st, h)
    case Stops(b) => b
    case Known(v) =>
      if v.LibraryV? then LibraryCall(v.name, h.canon(member.value.text), UseOf(h.canon(args[0].text), st), lang, h)
      else Unknown
  }

  predicate IsEvaluator(name: string, lang: Language) {
    name == "eval" || (lang == Python && name == "exec")
  }

  predicate IsStatementOf(k: Kind) {
    k == ExpressionStatement || k == LexicalDeclaration || k == VariableDeclaration
  }

  /** The node a statement consists of. */
  function Peel(n: Node): Node {
    if IsStatementOf(n.kind) && |Significant(n.children)| == 1 then
      assert Significant(n.children)[0] in n.children;
      Peel(Significant(n.children)[0])
    else n
  }

  /** `exec` and `eval` run the string in the current names; only single calls are followed there. */
  function Evaluate(code: string, lang: Language, st: State, h: Host): Behavior {
    match h.parse(code, lang)
    case None => Raised
    case Some(tree) =>
      var statements := Significant(tree.children);
      if |statements| == 1 && Peel(statements[0]).IsCall() then MethodCall(Peel(statements[0]), lang, st, h)
      else Unknown
  }

  function RunCall(n: Node, lang: Language, st: State, h: Host): Behavior {
    var f, arguments := n.Get(FunctionField), n.Get(ArgumentsField);
    if f.None? || arguments.None? || f.value.kind != Identifier then Unknown
    else if !IsEvaluator(h.canon(f.value.text), lang) then Unknown else
    match UseOf(h.canon(f.value.text), st)
    case Dead => Raised
    case Bound(_) => Unknown
    case Builtin =>
      var args := Significant(arguments.value.children);
      if |args| != 1 || !args[0].IsString() then Unknown else
      var code := StringValue(args[0], arguments, lang, h);
      if h.refuses(h.canon(f.value.text), code) then Raised else Evaluate(code, lang, st, h)
  }

  // -------------------------------------------------------------- statements

  datatype Next = Go(st: State) | Halt(b: Behavior)

  /** Assigning a name that a script cannot assign does nothing. */
  function Assign(st: State, x: string, v: Value, h: Host): State {
    if x in h.fixed then st else State(st.env[x := v], st.dead - {x})
  }

  predicate IsIdentifierChar(c: char) {
    'a' <= c <= 'z' || 'A' <= c <= 'Z' || '0' <= c <= '9' || c == '_'
  }

  predicate IsUndotted(name: string) {
    name != [] && forall k :: 0 <= k < |name| ==> IsIdentifierChar(name[k])
  }

  /** `import` of one undotted module binds its name to it. */
  function Import(text: string, st: State, h: Host): Next {
    var name := if "import " <= text then text[7..] else [];
    if IsUndotted(name) then Go(Assign(st, h.canon(name), LibraryV(name), h))
    else Halt(Unknown)
  }

  function ExecBinding(n: Node, lang: Language, st: State, h: Host): Next {
    var name, value := n.GetEither(LeftField, NameField), n.GetEither(RightField, ValueField);
    if |Named(n.children)| != 2 || name.None? || name.value.kind != Identifier || value.None? then Halt(Unknown) else
    match ValueOf(value.value, n, lang, st, h)
    case Stops(b) => Halt(b)
    case Known(v) => Go(Assign(st, h.canon(name.value.text), v, h))
  }

  function Exec(n: Node, lang: Language, st: State, h: Host): Next
    decreases n, 1
  {
    match n.kind
    case ExpressionStatement | LexicalDeclaration | VariableDeclaration => ExecAll(n.children, lang, st, h)
    case Call | CallExpression => Halt(RunCall(n, lang, st, h))
    case Assignment | VariableDeclarator => ExecBinding(n, lang, st, h)
    case ImportStatement => if lang == Python then Import(n.text, st, h) else Halt(Unknown)
    case _ => Halt(Unknown)
  }

  function ExecAll(ns: seq<Node>, lang: Language, st: State, h: Host): Next
    decreases ns, 0
  {
    if ns == [] then Go(st)
    else if !ns[0].named || ns[0].kind == Comment then ExecAll(ns[1..], lang, st, h)
    else match Exec(ns[0], lang, st, h)
      case Halt(b) => Halt(b)
      case Go(st') => ExecAll(ns[1..], lang, st', h)
  }

  // ---------------------------------------------------------------- hoisting

  const CLASS: Kind := OtherKind("class_declaration")
  const EXPORT: Kind := OtherKind("export_statement")

  function NameOf(n: Node, h: Host): set<string> {
    var name := n.Get(NameField);
    if name.None? then {} else if name.value.kind == Identifier then {h.canon(name.value.text)} else h.binds(name.value)
  }

  function Declarators(ns: seq<Node>, h: Host): set<string> {
    if ns == [] then {}
    else (if ns[0].kind == VariableDeclarator then NameOf(ns[0], h) else {}) + Declarators(ns[1..], h)
  }

  /** `let`, `const` and classes declare their names for the whole program, which cannot use them
      before the declaration has run. */
  function Lexical(n: Node, h: Host): set<string>
    decreases n, 1
  {
    if n.kind == LexicalDeclaration then Declarators(n.children, h)
    else if n.kind == CLASS then NameOf(n, h)
    else if n.kind == EXPORT then LexicalAll(n.children, h)
    else {}
  }

  function LexicalAll(ns: seq<Node>, h: Host): set<string>
    decreases ns, 0
  {
    if ns == [] then {} else Lexical(ns[0], h) + LexicalAll(ns[1..], h)
  }

  function Imported(ns: seq<Node>, h: Host): set<string> {
    if ns == [] then {} else (if ns[0].kind == ImportStatement then h.binds(ns[0]) else {}) + Imported(ns[1..], h)
  }

  function Functions(ns: seq<Node>, h: Host): set<string> {
    if ns == [] then {}
    else
      (if ns[0].kind == FunctionDeclaration || ns[0].kind == GeneratorFunctionDeclaration then NameOf(ns[0], h) else {})
      + Functions(ns[1..], h)
  }

  /** The names with a value, if not the language's, before the first statement runs. */
  function Hoisted(root: Node, h: Host): set<string> {
    Functions([root] + Below(root), h) + Imported(root.children, h) + h.vars(root)
  }

  /** JavaScript declares first; Python does not. */
  function Start(root: Node, lang: Language, h: Host): State {
    if lang == Python then State(map[], {})
    else State(map x | x in Hoisted(root, h) :: OtherV, LexicalAll(root.children, h))
  }

  function RunProgram(root: Node, lang: Language, h: Host): Behavior {
    if h.rejects(root) then Raised
    else match ExecAll(root.children, lang, Start(root, lang, h), h)
      case Go(_) => Ended
      case Halt(b) => b
  }
}

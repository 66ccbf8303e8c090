/** Straight-line constant propagation (src/ast_matcher.rs): literal and module bindings at the
    head of a program, and the shell command that a direct exec/eval hands to a shell sink. */
module LiteralBindings {
  import opened Decoding
  import opened Spelling
  import opened Syntax
  import opened Wrappers

  const MAX_NODES: nat := 4096
  const MAX_CANDIDATES: nat := 128
  const MAX_PAYLOAD_BYTES: nat := 65536

  datatype StandardModule = PythonOs | PythonSubprocess | NodeChildProcess

  datatype Binding = TextBinding(value: string, start: nat, end: nat) | ModuleBinding(m: StandardModule)

  type Names = map<string, Binding>

  /** Why an analysis gave up. */
  datatype Limit =
    | SourceBytes | SourceGrammar | SourceNodes | NamedSinks
    | LiteralCount | LiteralBytes | AggregateBytes | EvaluatedBytes | EvaluatedNodes

  datatype Command = Command(command: string, start: nat, end: nat)

  /** Bytes of a character in UTF-8. */
  function Utf8Bytes(c: char): nat {
    if c as int < 0x80 then 1 else if c as int < 0x800 then 2 else if c as int < 0x1_0000 then 3 else 4
  }

  function Utf8Length(s: string): nat {
    if s == [] then 0 else Utf8Bytes(s[0]) + Utf8Length(s[1..])
  }

  /** How many numbers `bytes` bytes of UTF-8 have room for: seven bits in one byte; else the bits that
      the length in the first byte leaves, and six in each other byte. */
  function Utf8Room(bytes: nat): nat
    requires 1 <= bytes <= 4
  {
    match bytes case 1 => 128 case 2 => 32 * 64 case 3 => 16 * 64 * 64 case _ => 8 * 64 * 64 * 64
  }

  /** A character takes the fewest bytes that have room for it (section 3 of RFC 3629). */
  lemma Utf8BytesExact(c: char)
    ensures 1 <= Utf8Bytes(c) <= 4 && (c as int) < Utf8Room(Utf8Bytes(c))
    ensures forall n :: 1 <= n < Utf8Bytes(c) ==> c as int >= Utf8Room(n)
  {}

  predicate IsWrapper(k: Kind) {
    k == ExpressionStatement || k == LexicalDeclaration || k == VariableDeclaration
  }

  /** The statement inside at most three wrappers. */
  function Unwrap(n: Node, tries: nat): (r: Option<Node>)
    ensures r.Some? ==> r.value == n || r.value in Below(n)
    ensures r.Some? ==> !IsWrapper(r.value.kind)
    decreases tries
  {
    if tries == 0 then None
    else if !IsWrapper(n.kind) then Some(n)
    else
      var named := Significant(n.children);
      if |named| != 1 then None
      else
        assert named[0] in n.children;
        BelowChild(n, named[0]);
        Unwrap(named[0], tries - 1)
  }

  /** Whatever is below a child is below the parent. */
  lemma BelowChild(n: Node, c: Node)
    requires c in n.children
    ensures c in Below(n) && forall d :: d in Below(c) ==> d in Below(n)
  {
    BelowMember(n.children, c);
  }

  lemma {:induction false} BelowMember(ns: seq<Node>, c: Node)
    requires c in ns
    ensures c in BelowAll(ns) && forall d :: d in Below(c) ==> d in BelowAll(ns)
    decreases |ns|
  {
    if ns[0] != c { BelowMember(ns[1..], c); }
  }

  /** `literal_statement`. */
  method LiteralStatement(statement: Node) returns (r: Option<Node>)
    ensures r == Unwrap(statement, 4)
  {
    hide Significant;
    hide IsWrapper;
    var node := statement;
    for i := 0 to 4
      invariant Unwrap(statement, 4) == Unwrap(node, 4 - i)
    {
      if !IsWrapper(node.kind) {
        return Some(node);
      }
      var named := Significant(node.children);
      if |named| != 1 {
        return None;
      }
      node := named[0];
    }
    return None;
  }

  /** `literal_required_module`. */
  function RequiredModule(n: Node, lang: Language): Option<StandardModule> {
    if lang != JavaScript || n.kind != CallExpression then None else
    var f, arguments := n.Get(FunctionField), n.Get(ArgumentsField);
    if f.None? || f.value.kind != Identifier || f.value.text != "require" || arguments.None? then None else
    var args := Significant(arguments.value.children);
    if |args| != 1 then None else
    var name := StaticLiteral(args[0], arguments, lang, 0);
    if name == Some("child_process") || name == Some("node:child_process") then Some(NodeChildProcess) else None
  }

  predicate IsAsciiName(s: string) {
    IsAscii(s) && '\\' !in s
  }

  /** Names whose meaning the later steps rely on. */
  predicate Protected(name: string) {
    name == "exec" || name == "eval" || name == "require"
  }

  function ImportedModule(text: string): Option<(string, StandardModule)> {
    if text == "import os" then Some(("os", PythonOs))
    else if text == "import posix" then Some(("posix", PythonOs))
    else if text == "import subprocess" then Some(("subprocess", PythonSubprocess))
    else None
  }

  /** What a name is bound to by a right-hand side, when that is known. */
  function BoundValue(value: Node, parent: Node, lang: Language): Option<Binding> {
    var m := RequiredModule(value, lang);
    if m.Some? then Some(ModuleBinding(m.value)) else
    var text := StaticLiteral(value, Some(parent), lang, 0);
    if text.None? || Utf8Length(text.value) > MAX_PAYLOAD_BYTES then None
    else Some(TextBinding(text.value, value.start, value.end))
  }

  lemma StaticIsString(n: Node, parent: Option<Node>, lang: Language)
    requires StaticLiteral(n, parent, lang, 0).Some?
    ensures n.IsString()
  {}

  /** The name and binding a statement records, if it is one of the understood ones. */
  function RecordedBinding(n: Node, lang: Language): Option<(string, Binding)> {
    if lang == Python && n.kind == ImportStatement then
      var i := ImportedModule(n.text);
      if i.Some? then Some((i.value.0, ModuleBinding(i.value.1))) else None
    else if n.kind != Assignment && n.kind != VariableDeclarator then None
    else if |Named(n.children)| != 2 then None
    else
      var name, value := n.GetEither(LeftField, NameField), n.GetEither(RightField, ValueField);
      if name.None? || name.value.kind != Identifier || !IsAsciiName(name.value.text) || Protected(name.value.text)
        || value.None? then None
      else
        var b := BoundValue(value.value, n, lang);
        if b.Some? then Some((name.value.text, b.value)) else None
  }

  /** The names after a statement, or nothing when the statement ends the proof. */
  function Recorded(n: Node, lang: Language, names: Names): Option<Names> {
    var r := RecordedBinding(n, lang);
    if |names| >= MAX_CANDIDATES || r.None? then None else Some(names[r.value.0 := r.value.1])
  }

  lemma BindingCases(n: Node, lang: Language)
    ensures lang == Python && n.kind == ImportStatement ==>
              RecordedBinding(n, lang) ==
              if n.text == "import os" then Some(("os", ModuleBinding(PythonOs)))
              else if n.text == "import posix" then Some(("posix", ModuleBinding(PythonOs)))
              else if n.text == "import subprocess" then Some(("subprocess", ModuleBinding(PythonSubprocess)))
              else None
    ensures !(lang == Python && n.kind == ImportStatement) ==>
              var name, value := n.GetEither(LeftField, NameField), n.GetEither(RightField, ValueField);
              if (n.kind != Assignment && n.kind != VariableDeclarator) || |Named(n.children)| != 2 || name.None?
                || value.None? then
                  RecordedBinding(n, lang) == None
              else if name.value.kind != Identifier || !IsAsciiName(name.value.text) || Protected(name.value.text) then
                RecordedBinding(n, lang) == None
              else
                var b := BoundValue(value.value, n, lang);
                RecordedBinding(n, lang) == if b.Some? then Some((name.value.text, b.value)) else None
  {
    hide IsAsciiName;
    hide Protected;
    hide Named;
    hide BoundValue;
  }

  /** The names bound so far. */
  class Table {
    var names: Names

    constructor ()
      ensures names == map[]
    {
      names := map[];
    }

    /** `record_literal_binding`. */
    method Record(n: Node, lang: Language) returns (ok: bool)
      modifies this
      ensures ok <==> Recorded(n, lang, old(names)).Some?
      ensures names == if ok then Recorded(n, lang, old(names)).value else old(names)
    {
      hide RequiredModule;
      hide StaticLiteral;
      hide Utf8Length;
      hide IsAsciiName;
      hide Protected;
      hide Named;
      hide RecordedBinding;
      if |names| >= MAX_CANDIDATES {
        return false;
      }
      BindingCases(n, lang);
      if lang == Python && n.kind == ImportStatement {
        if n.text == "import os" {
          names := names["os" := ModuleBinding(PythonOs)];
        } else if n.text == "import posix" {
          names := names["posix" := ModuleBinding(PythonOs)];
        } else if n.text == "import subprocess" {
          names := names["subprocess" := ModuleBinding(PythonSubprocess)];
        } else {
          return false;
        }
        return true;
      }
      if (n.kind != Assignment && n.kind != VariableDeclarator) || |Named(n.children)| != 2 {
        return false;
      }
      var name := n.GetEither(LeftField, NameField);
      if name.None? || name.value.kind != Identifier || !IsAsciiName(name.value.text) || Protected(name.value.text) {
        return false;
      }
      var value := n.GetEither(RightField, ValueField);
      if value.None? {
        return false;
      }
      var m := RequiredModule(value.value, lang);
      var text := StaticLiteral(value.value, Some(n), lang, 0);
      if m.Some? {
        names := names[name.value.text := ModuleBinding(m.value)];
      } else if text.Some? {
        if Utf8Length(text.value) > MAX_PAYLOAD_BYTES {
          return false;
        }
        names := names[name.value.text := TextBinding(text.value, value.value.start, value.value.end)];
      } else {
        return false;
      }
      return true;
    }
  }

  datatype Callee = Callee(m: StandardModule, sink: string, start: nat)

  /** `bound_literal_callee`. */
  function BoundCallee(call: Node, lang: Language, names: Names): Option<Callee> {
    var f := call.Get(FunctionField);
    if f.None? || (f.value.kind != Attribute && f.value.kind != MemberExpression) then None else
    var target, member := f.value.Get(ObjectField), f.value.GetEither(AttributeField, PropertyField);
    if target.None? || member.None? then None
    else if member.value.kind != Identifier && member.value.kind != PropertyIdentifier then None
    else
      var m := if target.value.kind == Identifier then
                 if target.value.text in names && names[target.value.text].ModuleBinding? then
                   Some(names[target.value.text].m)
                 else None
               else RequiredModule(target.value, lang);
      if m.None? then None else Some(Callee(m.value, member.value.text, member.value.start))
  }

  predicate IsShellSink(m: StandardModule, sink: string) {
    match m
    case PythonOs => sink == "system" || sink == "popen"
    case PythonSubprocess => sink == "getoutput" || sink == "getstatusoutput"
    case NodeChildProcess => sink == "exec" || sink == "execSync"
  }

  // ---------------------------------------------------- the evaluated source

  predicate IsBroken(n: Node) { n.kind == OtherKind("ERROR") || n.kind == OtherKind("MISSING") }

  datatype Scan = Whole | Broken | TooLong

  /** The walk that admits a tree: in source order, the node limit is tested before each node's health. */
  function Admit(ns: seq<Node>, seen: nat): Scan
    decreases |ns|
  {
    if ns == [] then Whole
    else if seen >= MAX_NODES then TooLong
    else if IsBroken(ns[0]) then Broken
    else Admit(ns[1..], seen + 1)
  }

  method AdmitTree(root: Node) returns (r: Scan)
    ensures r == Admit([root] + Below(root), 0)
  {
    var all := [root] + Below(root);
    var index := 0;
    assert all[0..] == all;
    while index < |all|
      invariant 0 <= index <= |all|
      invariant Admit(all, 0) == Admit(all[index..], index)
    {
      assert all[index..][1..] == all[index + 1..];
      if index >= MAX_NODES {
        return TooLong;
      }
      if IsBroken(all[index]) {
        return Broken;
      }
      index := index + 1;
    }
    return Whole;
  }

  /** Parsing is outside the model: any partial function from text to trees. */
  type Parser = (string, Language) -> Option<Node>

  predicate IsCallTo(n: Node, names: Names, lang: Language, arg: string) {
    && n.IsCall()
    && BoundCallee(n, lang, names).Some?
    && IsShellSink(BoundCallee(n, lang, names).value.m, BoundCallee(n, lang, names).value.sink)
    && n.Get(ArgumentsField).Some?
    && var args := Significant(n.Get(ArgumentsField).value.children);
       |args| == 1 && args[0].kind == Identifier && args[0].text == arg
  }

  /** The name that a shell sink is called with. */
  function SinkArgument(call: Node, names: Names, lang: Language): Option<string> {
    if call.Get(ArgumentsField).None? then None else
    var args := Significant(call.Get(ArgumentsField).value.children);
    if |args| == 1 && IsCallTo(call, names, lang, args[0].text) then Some(args[0].text) else None
  }

  lemma SinkArgumentIs(call: Node, names: Names, lang: Language)
    requires call.IsCall()
    ensures var callee, arguments := BoundCallee(call, lang, names), call.Get(ArgumentsField);
            SinkArgument(call, names, lang) ==
            if callee.None? || !IsShellSink(callee.value.m, callee.value.sink) || arguments.None? then None
            else
              var args := Significant(arguments.value.children);
              if |args| == 1 && args[0].kind == Identifier then Some(args[0].text) else None
  {
    hide BoundCallee;
    hide IsShellSink;
    hide Significant;
  }

  /** The statement a program consists of, if it is a single one. */
  function OnlyStatement(root: Node): Option<Node> {
    var statements := Significant(root.children);
    if |statements| != 1 then None else Unwrap(statements[0], 4)
  }

  /** `evaluated_shell_dependency`: the name whose value the evaluated program hands to a shell sink. */
  function Dependency(code: string, lang: Language, names: Names, parse: Parser): Result<Option<string>, Limit> {
    if Utf8Length(code) > MAX_PAYLOAD_BYTES then Err(EvaluatedBytes) else
    var tree := parse(code, lang);
    if tree.None? then Ok(None) else
    match Admit([tree.value] + Below(tree.value), 0)
    case TooLong => Err(EvaluatedNodes)
    case Broken => Ok(None)
    case Whole =>
      var call := OnlyStatement(tree.value);
      if call.None? || !call.value.IsCall() then Ok(None) else Ok(SinkArgument(call.value, names, lang))
  }

  /** The direct exec/eval call with one literal argument. */
  function EvaluatedSource(n: Node, lang: Language): Option<string> {
    var f, arguments := n.Get(FunctionField), n.Get(ArgumentsField);
    if f.None? || f.value.kind != Identifier || arguments.None? then None
    else if f.value.text != "eval" && !(lang == Python && f.value.text == "exec") then None
    else
      var args := Significant(arguments.value.children);
      if |args| != 1 then None else StaticLiteral(args[0], arguments, lang, 0)
  }

  /** The statements from the head of the program on. */
  function Commands(statements: seq<Node>, lang: Language, names: Names, parse: Parser): Result<seq<Command>, Limit>
    decreases |statements|
  {
    if statements == [] || Unwrap(statements[0], 4).None? then Ok([]) else
    var n := Unwrap(statements[0], 4).value;
    if !n.IsCall() then
      if Recorded(n, lang, names).Some? then Commands(statements[1..], lang, Recorded(n, lang, names).value, parse)
      else Ok([])
    else
      var source := EvaluatedSource(n, lang);
      if source.None? then Ok([]) else
      var d := Dependency(source.value, lang, names, parse);
      if d.Err? then Err(d.error)
      else if d.value.None? || d.value.value !in names || !names[d.value.value].TextBinding? then Ok([])
      else
        var b := names[d.value.value];
        Ok([Command(b.value, b.start, b.end)])
  }

  predicate IsFunctionDeclaration(n: Node) {
    n.kind == FunctionDeclaration || n.kind == GeneratorFunctionDeclaration
  }

  /** `literal_prefix_has_no_function_hoisting`. */
  predicate NoHoisting(root: Node, lang: Language) {
    lang != JavaScript ||
    (|Below(root)| < MAX_NODES && forall n :: n in [root] + Below(root) ==> !IsFunctionDeclaration(n))
  }

  /** What `evaluated_literal_commands` answers. */
  function EvaluatedCommands(root: Node, lang: Language, parse: Parser): Result<seq<Command>, Limit> {
    if !NoHoisting(root, lang) then Ok([]) else Commands(Significant(root.children), lang, map[], parse)
  }

  method EvaluatedShellDependency(code: string, lang: Language, names: Names, parse: Parser)
    returns (r: Result<Option<string>, Limit>)
    ensures r == Dependency(code, lang, names, parse)
  {
    hide Below;
    hide Significant;
    hide BoundCallee;
    hide IsShellSink;
    hide Utf8Length;
    hide Unwrap;
    hide Admit;
    hide SinkArgument;
    if Utf8Length(code) > MAX_PAYLOAD_BYTES {
      return Err(EvaluatedBytes);
    }
    var tree := parse(code, lang);
    if tree.None? {
      return Ok(None);
    }
    var root := tree.value;
    var admitted := AdmitTree(root);
    if admitted == TooLong {
      return Err(EvaluatedNodes);
    }
    if admitted == Broken {
      return Ok(None);
    }
    var statements := Significant(root.children);
    if |statements| == 0 {
      return Ok(None);
    }
    var statement := LiteralStatement(statements[0]);
    if statement.None? || |statements| > 1 || !statement.value.IsCall() {
      return Ok(None);
    }
    var call := statement.value;
    SinkArgumentIs(call, names, lang);
    var callee := BoundCallee(call, lang, names);
    if callee.None? || !IsShellSink(callee.value.m, callee.value.sink) {
      return Ok(None);
    }
    var arguments := call.Get(ArgumentsField);
    if arguments.None? {
      return Ok(None);
    }
    var args := Significant(arguments.value.children);
    return Ok(if |args| == 1 && args[0].kind == Identifier then Some(args[0].text) else None);
  }

  /** One statement of the head. */
  lemma CommandsNext(statements: seq<Node>, lang: Language, names: Names, parse: Parser)
    ensures statements == [] ==> Commands(statements, lang, names, parse) == Ok([])
    ensures statements != [] ==>
              var r, statement := Commands(statements, lang, names, parse), Unwrap(statements[0], 4);
              if statement.None? then r == Ok([])
              else if !statement.value.IsCall() then
                var next := Recorded(statement.value, lang, names);
                r == if next.Some? then Commands(statements[1..], lang, next.value, parse) else Ok([])
              else
                var source := EvaluatedSource(statement.value, lang);
                if source.None? then r == Ok([]) else
                var d := Dependency(source.value, lang, names, parse);
                if d.Err? then r == Err(d.error)
                else if d.value.None? || d.value.value !in names || !names[d.value.value].TextBinding? then r == Ok([])
                else
                  var t := names[d.value.value];
                  r == Ok([Command(t.value, t.start, t.end)])
  {
    hide Unwrap;
    hide Recorded;
    hide EvaluatedSource;
    hide Dependency;
  }

  lemma SourceCases(n: Node, lang: Language)
    ensures var f, arguments := n.Get(FunctionField), n.Get(ArgumentsField);
            EvaluatedSource(n, lang) ==
            if f.None? || f.value.kind != Identifier || arguments.None? then None
            else if !(f.value.text == "eval" || (lang == Python && f.value.text == "exec")) then None
            else if |Significant(arguments.value.children)| != 1 then None
            else StaticLiteral(Significant(arguments.value.children)[0], arguments, lang, 0)
  {
    hide StaticLiteral;
    hide Significant;
  }

  method EvaluatedLiteralCommands(root: Node, lang: Language, parse: Parser) returns (r: Result<seq<Command>, Limit>)
    ensures r == EvaluatedCommands(root, lang, parse)
  {
    hide NoHoisting;
    hide Commands;
    hide EvaluatedSource;
    hide Recorded;
    hide Dependency;
    hide Unwrap;
    hide StaticLiteral;
    hide Significant;
    if !NoHoisting(root, lang) {
      return Ok([]);
    }
    var table := new Table();
    var statements := Significant(root.children);
    var i := 0;
    assert statements[0..] == statements;
    while i < |statements|
      invariant 0 <= i <= |statements|
      invariant Commands(statements, lang, map[], parse) == Commands(statements[i..], lang, table.names, parse)
    {
      assert statements[i..][1..] == statements[i + 1..];
      CommandsNext(statements[i..], lang, table.names, parse);
      var statement := LiteralStatement(statements[i]);
      if statement.None? {
        break;
      }
      var node := statement.value;
      i := i + 1;
      if !node.IsCall() {
        var recorded := table.Record(node, lang);
        if recorded {
          continue;
        }
        return Ok([]);
      }
      SourceCases(node, lang);
      var callee, arguments := node.Get(FunctionField), node.Get(ArgumentsField);
      if callee.None? || callee.value.kind != Identifier {
        return Ok([]);
      }
      if !(lang == Python && (callee.value.text == "exec" || callee.value.text == "eval"))
         && !(lang == JavaScript && callee.value.text == "eval") {
        return Ok([]);
      }
      if arguments.None? {
        return Ok([]);
      }
      var args := Significant(arguments.value.children);
      if |args| != 1 {
        return Ok([]);
      }
      var source := StaticLiteral(args[0], arguments, lang, 0);
      if source.None? {
        return Ok([]);
      }
      var dependency := EvaluatedShellDependency(source.value, lang, table.names, parse);
      if dependency.Err? {
        return Err(dependency.error);
      }
      if dependency.value.None? || dependency.value.value !in table.names {
        return Ok([]);
      }
      var b := table.names[dependency.value.value];
      if !b.TextBinding? {
        return Ok([]);
      }
      return Ok([Command(b.value, b.start, b.end)]);
    }
    if i == |statements| {
      assert statements[i..] == [];
      CommandsNext([], lang, table.names, parse);
    }
    return Ok([]);
  }
}

/** The documentation proof of src/ast_matcher.rs: a bounded check that a straight-line
    Python or JavaScript program only edits text. */
module InertProof {
  import opened Syntax
  import opened Wrappers

  /** The abstract kinds a value can have. */
  datatype Abstract = Text | Scalar | File | NodeFs

  const MAX_DEPTH: nat := 64
  const MAX_NAMES: nat := 128
  const MAX_STEPS: nat := 16384

  /** What the proof carries along: the kind of every bound name, the literal ranges it vouches
      for, and the work it may still do. */
  datatype State = State(values: map<string, Abstract>, literals: seq<(nat, nat)>, steps: nat)

  datatype Checked = Checked(kind: Abstract, state: State)

  /** The literals that are looked through for interpolations. */
  predicate IsText(k: Kind) { k == StringLiteral || k == TemplateString }

  predicate Reserved(name: string) {
    name == "print" || name == "open" || name == "console" || name == "require"
  }

  predicate IsTextMethod(m: string) {
    m in ["replace", "replaceAll", "strip", "lstrip", "rstrip", "lower", "upper", "removeprefix", "removesuffix",
          "trim", "trimStart", "trimEnd", "toLowerCase", "toUpperCase"]
  }

  predicate IsConsoleMethod(m: string) { m in ["log", "info", "warn", "error"] }

  predicate IsFileWrite(m: string) { m in ["write", "close", "flush"] }

  predicate IsFsWrite(m: string) { m in ["writeFileSync", "appendFileSync"] }

  predicate IsArithmetic(op: string) { op in ["+", "-", "*", "/", "%"] }

  /** The source spellings of the file-system module. */
  predicate IsFsSpelling(source: string) { source in ["'fs'", "\"fs\"", "'node:fs'", "\"node:fs\""] }

  predicate IsBuiltinEncoding(name: string) { name in ["utf8", "utf-8", "ascii", "latin1", "latin-1"] }

  /** `text` without the quotes at either end. */
  function TrimQuotes(text: string): string {
    if text == [] then []
    else if text[0] == '\'' || text[0] == '"' then TrimQuotes(text[1..])
    else TrimQuotesEnd(text)
  }

  function TrimQuotesEnd(text: string): string {
    if text != [] && (text[|text| - 1] == '\'' || text[|text| - 1] == '"') then TrimQuotesEnd(text[..|text| - 1])
    else text
  }

  predicate PlainOption(arg: Node) {
    arg.kind == KeywordArgument ==>
      && arg.Get(NameField).Some?
      && var name := arg.Get(NameField).value.text;
         || name == "file" || name == "mode" || name == "buffering"
         || (name == "encoding" && arg.Get(ValueField).Some?
             && arg.Get(ValueField).value.kind == StringLiteral
             && IsBuiltinEncoding(TrimQuotes(arg.Get(ValueField).value.text)))
  }

  function Positional(args: seq<Node>): nat {
    if args == [] then 0 else (if args[0].kind == KeywordArgument then 0 else 1) + Positional(args[1..])
  }

  /** An `open` call that only names a file, a mode, buffering and a built-in encoding. */
  predicate PlainOpen(args: seq<Node>) {
    args != [] && Positional(args) <= 3 && forall k :: 0 <= k < |args| ==> PlainOption(args[k])
  }

  /** The kind a call of a bare name has, for the three names that are understood. */
  function NamedCall(lang: Language, name: string, args: seq<Node>): Option<Abstract> {
    if lang == Python && name == "print" then Some(Scalar)
    else if lang == Python && name == "open" && PlainOpen(args) then Some(File)
    else if lang == JavaScript && name == "require" && |args| == 1 && IsFsSpelling(args[0].text) then Some(NodeFs)
    else None
  }

  function MethodCall(receiver: Abstract, m: string): Option<Abstract> {
    match receiver
    case Text => if IsTextMethod(m) then Some(Text) else None
    case File => if m == "read" then Some(Text) else if IsFileWrite(m) then Some(Scalar) else None
    case NodeFs => if m == "readFileSync" then Some(Text) else if IsFsWrite(m) then Some(Scalar) else None
    case Scalar => None
  }

  function Operation(left: Abstract, op: string, right: Abstract): Option<Abstract> {
    if left == Text && right == Text && op == "+" then Some(Text)
    else if left == Scalar && right == Scalar && IsArithmetic(op) then Some(Scalar)
    else None
  }

  /** The value of an argument, which for a keyword argument is its value. */
  function ArgumentValue(arg: Node): Option<Node> {
    if arg.kind == KeywordArgument then arg.Get(ValueField) else Some(arg)
  }

  /** The position of the first child that can be an interpolated expression, or the length. */
  function FirstOperand(ns: seq<Node>): (i: nat)
    ensures i <= |ns|
  {
    if ns == [] then 0
    else if ns[0].named && ns[0].kind != Comment && ns[0].kind != TypeConversion && ns[0].kind != FormatSpecifier then 0
    else 1 + FirstOperand(ns[1..])
  }

  /** The position of the expression an interpolation evaluates, or the number of children. */
  function OperandIndex(part: Node): (i: nat)
    ensures i <= |part.children|
  {
    if ExpressionField in part.fields && part.fields[ExpressionField] < |part.children| then
      part.fields[ExpressionField]
    else FirstOperand(part.children)
  }

  function Operand(part: Node): (r: Option<Node>)
    ensures r.Some? ==> r.value in part.children
  {
    if OperandIndex(part) < |part.children| then Some(part.children[OperandIndex(part)]) else None
  }

  /** What `DocumentationProof::expression` answers and leaves behind. Nothing means the program is not vouched for. */
  function CheckExpression(n: Node, lang: Language, depth: nat, s: State): Option<Checked>
    requires depth <= MAX_DEPTH
    decreases MAX_DEPTH - depth, 1, 0
  {
    if depth >= MAX_DEPTH || s.steps == 0 then None else
    var s1 := s.(steps := s.steps - 1);
    var named := Significant(n.children);
    match n.kind
    case Module | Program | LexicalDeclaration | VariableDeclaration =>
      var r := CheckSequence(named, lang, depth + 1, s1, false);
      if r.Some? then Some(Checked(Scalar, r.value)) else None
    case ExpressionStatement | Parenthesized =>
      if |named| == 1 then CheckExpression(named[0], lang, depth + 1, s1) else None
    case Assignment | VariableDeclarator => CheckBinding(n, lang, depth, s1)
    case Identifier =>
      if n.text in s1.values then Some(Checked(s1.values[n.text], s1)) else None
    case ScalarLiteral => Some(Checked(Scalar, s1))
    case StringLiteral | TemplateString => CheckString(n, lang, depth, s1)
    case ConcatenatedString =>
      var r := CheckSequence(named, lang, depth + 1, s1, true);
      if r.Some? then Some(Checked(Text, r.value)) else None
    case BinaryOperator | BinaryExpression => CheckBinary(n, lang, depth, s1)
    case Call | CallExpression => CheckCall(n, lang, depth + 1, s1)
    case _ => None
  }

  function CheckString(n: Node, lang: Language, depth: nat, s: State): Option<Checked>
    requires depth < MAX_DEPTH
    decreases MAX_DEPTH - depth, 0, |Below(n)| + 1
  {
    var r := CheckParts(Below(n), lang, depth, s);
    if r.None? then None
    else if ContainsMarker(n.text) then
      Some(Checked(Text, r.value.(literals := r.value.literals + [(n.start, n.end)])))
    else Some(Checked(Text, r.value))
  }

  /** Children in order; with `texts` each of them has to be text. */
  function CheckSequence(ns: seq<Node>, lang: Language, depth: nat, s: State, texts: bool): Option<State>
    requires depth <= MAX_DEPTH
    decreases MAX_DEPTH - depth, 2, |ns|
  {
    if ns == [] then Some(s) else
    var r := CheckExpression(ns[0], lang, depth, s);
    if r.None? || (texts && r.value.kind != Text) then None
    else CheckSequence(ns[1..], lang, depth, r.value.state, texts)
  }

  function CheckBinding(n: Node, lang: Language, depth: nat, s: State): Option<Checked>
    requires depth < MAX_DEPTH
    decreases MAX_DEPTH - depth, 0, 0
  {
    var left := n.GetEither(LeftField, NameField);
    var right := n.GetEither(RightField, ValueField);
    if |Significant(n.children)| != 2 || |s.values| >= MAX_NAMES then None
    else if left.None? || left.value.kind != Identifier || Reserved(left.value.text) || right.None? then None
    else
      var r := CheckExpression(right.value, lang, depth + 1, s);
      if r.None? then None else
      var Checked(kind, state) := r.value;
      Some(Checked(kind, state.(values := state.values[left.value.text := kind])))
  }

  function CheckBinary(n: Node, lang: Language, depth: nat, s: State): Option<Checked>
    requires depth < MAX_DEPTH
    decreases MAX_DEPTH - depth, 0, 0
  {
    var left, right, op := n.Get(LeftField), n.Get(RightField), n.Get(OperatorField);
    if left.None? then None else
    var l := CheckExpression(left.value, lang, depth + 1, s);
    if l.None? || right.None? then None else
    var r := CheckExpression(right.value, lang, depth + 1, l.value.state);
    if r.None? || op.None? then None else
    var kind := Operation(l.value.kind, op.value.text, r.value.kind);
    if kind.Some? then Some(Checked(kind.value, r.value.state)) else None
  }

  /** The nodes below a string: each costs a step, and each interpolated expression has to be
      text or scalar. */
  function CheckParts(ns: seq<Node>, lang: Language, depth: nat, s: State): Option<State>
    requires depth < MAX_DEPTH
    decreases MAX_DEPTH - depth, 0, |ns|
  {
    if ns == [] then Some(s)
    else if s.steps == 0 then None
    else
      var s1 := s.(steps := s.steps - 1);
      if ns[0].IsInterpolation() then
        if Operand(ns[0]).None? then None else
        var r := CheckExpression(Operand(ns[0]).value, lang, depth + 1, s1);
        if r.None? || (r.value.kind != Text && r.value.kind != Scalar) then None
        else CheckParts(ns[1..], lang, depth, r.value.state)
      else CheckParts(ns[1..], lang, depth, s1)
  }

  function CheckArguments(args: seq<Node>, lang: Language, depth: nat, s: State): Option<State>
    requires depth <= MAX_DEPTH
    decreases MAX_DEPTH - depth, 2, |args|
  {
    if args == [] then Some(s) else
    var value := ArgumentValue(args[0]);
    if value.None? then None else
    var r := CheckExpression(value.value, lang, depth, s);
    if r.None? || (r.value.kind != Text && r.value.kind != Scalar) then None
    else CheckArguments(args[1..], lang, depth, r.value.state)
  }

  /** What `DocumentationProof::call` answers and leaves behind. */
  function CheckCall(n: Node, lang: Language, depth: nat, s: State): Option<Checked>
    requires depth <= MAX_DEPTH
    decreases MAX_DEPTH - depth, 1, 0
  {
    if depth >= MAX_DEPTH || s.steps == 0 then None else
    var s1 := s.(steps := s.steps - 1);
    var callee, arguments := n.Get(FunctionField), n.Get(ArgumentsField);
    if callee.None? || arguments.None? then None
    else if arguments.value.kind != ArgumentList && arguments.value.kind != Arguments then None
    else
      var args := Significant(arguments.value.children);
      var checked := CheckArguments(args, lang, depth + 1, s1);
      if checked.None? then None
      else CheckCallee(callee.value, args, lang, depth, checked.value)
  }

  function WithState(kind: Option<Abstract>, s: State): Option<Checked> {
    if kind.Some? then Some(Checked(kind.value, s)) else None
  }

  function CheckCallee(f: Node, args: seq<Node>, lang: Language, depth: nat, s: State): Option<Checked>
    requires depth < MAX_DEPTH
    decreases MAX_DEPTH - depth, 0, 0
  {
    if f.kind == Identifier then WithState(NamedCall(lang, f.text, args), s)
    else if f.kind != Attribute && f.kind != MemberExpression then None
    else
      var receiver, member := f.Get(ObjectField), f.GetEither(AttributeField, PropertyField);
      if receiver.None? || member.None? then None
      else if lang == JavaScript && receiver.value.kind == Identifier && receiver.value.text == "console" then
        if IsConsoleMethod(member.value.text) then Some(Checked(Scalar, s)) else None
      else
        var r := CheckExpression(receiver.value, lang, depth + 1, s);
        if r.None? then None
        else WithState(MethodCall(r.value.kind, member.value.text), r.value.state)
  }

  lemma NoParts(lang: Language, depth: nat)
    requires depth < MAX_DEPTH
    ensures forall s :: CheckParts([], lang, depth, s) == Some(s)
  {}

  /** The walk below a string, one node on. */
  lemma CheckPartsNext(ns: seq<Node>, lang: Language, depth: nat, s: State)
    requires depth < MAX_DEPTH && ns != []
    ensures CheckParts(ns, lang, depth, s) ==
            if s.steps == 0 then None else
            var s1 := s.(steps := s.steps - 1);
            if !ns[0].IsInterpolation() then CheckParts(ns[1..], lang, depth, s1)
            else if Operand(ns[0]).None? then None
            else
              var r := CheckExpression(Operand(ns[0]).value, lang, depth + 1, s1);
              if r.None? || (r.value.kind != Text && r.value.kind != Scalar) then None
              else CheckParts(ns[1..], lang, depth, r.value.state)
  {
    hide CheckExpression;
    hide Operand;
  }

  /** The proof in progress. `charged` counts the work paid for so far. */
  class DocumentationProof {
    const lang: Language
    var values: map<string, Abstract>
    var literals: seq<(nat, nat)>
    var remainingSteps: nat
    ghost var charged: nat

    ghost function Snapshot(): State
      reads this
    {
      State(values, literals, remainingSteps)
    }

    constructor (lang: Language)
      ensures this.lang == lang && Snapshot() == State(map[], [], MAX_STEPS) && charged == 0
    {
      this.lang := lang;
      values := map[];
      literals := [];
      remainingSteps := MAX_STEPS;
      charged := 0;
    }

    /** Pay for one unit of work. */
    method Charge() returns (ok: bool)
      modifies this
      ensures ok <==> old(remainingSteps) > 0
      ensures Snapshot() == if ok then old(Snapshot()).(steps := old(remainingSteps) - 1) else old(Snapshot())
      ensures charged + remainingSteps == old(charged + remainingSteps)
    {
      if remainingSteps == 0 {
        return false;
      }
      remainingSteps := remainingSteps - 1;
      charged := charged + 1;
      return true;
    }

    ghost predicate Agrees(r: Option<Abstract>, spec: Option<Checked>)
      reads this
    {
      && (r.Some? <==> spec.Some?)
      && (r.Some? ==> spec.value == Checked(r.value, Snapshot()))
    }

    method Expression(n: Node, depth: nat) returns (r: Option<Abstract>)
      requires depth <= MAX_DEPTH
      modifies this
      ensures Agrees(r, CheckExpression(n, lang, depth, old(Snapshot())))
      ensures charged + remainingSteps == old(charged + remainingSteps)
      decreases MAX_DEPTH - depth, 1
    {
      hide CheckSequence;
      hide CheckBinding;
      hide CheckBinary;
      hide CheckString;
      hide CheckCall;
      hide Significant;
      if depth >= MAX_DEPTH {
        return None;
      }
      var paid := Charge();
      if !paid {
        return None;
      }
      var named := Significant(n.children);
      match n.kind
      case Module | Program | LexicalDeclaration | VariableDeclaration =>
        var ok := Children(named, depth + 1, false);
        return if ok then Some(Scalar) else None;
      case ExpressionStatement | Parenthesized =>
        if |named| != 1 {
          return None;
        }
        r := Expression(named[0], depth + 1);
      case Assignment | VariableDeclarator =>
        r := Bind(n, depth);
      case Identifier =>
        return if n.text in values then Some(values[n.text]) else None;
      case ScalarLiteral =>
        return Some(Scalar);
      case StringLiteral | TemplateString =>
        r := StringParts(n, depth);
      case ConcatenatedString =>
        var ok := Children(named, depth + 1, true);
        return if ok then Some(Text) else None;
      case BinaryOperator | BinaryExpression =>
        r := Combine(n, depth);
      case Call | CallExpression =>
        r := CallExpr(n, depth + 1);
      case _ =>
        return None;
    }

    /** A string: its interpolations, and its place if it looks like shell text. */
    method StringParts(n: Node, depth: nat) returns (r: Option<Abstract>)
      requires depth < MAX_DEPTH
      modifies this
      ensures Agrees(r, CheckString(n, lang, depth, old(Snapshot())))
      ensures charged + remainingSteps == old(charged + remainingSteps)
      decreases MAX_DEPTH - depth, 0, 1
    {
      hide CheckParts;
      hide ContainsMarker;
      hide Below;
      var ok := Interpolations(Below(n), depth);
      if !ok {
        return None;
      }
      if ContainsMarker(n.text) {
        literals := literals + [(n.start, n.end)];
      }
      return Some(Text);
    }

    /** The arm for assignments and declarators. Further named children include evaluated annotations. */
    method Bind(n: Node, depth: nat) returns (r: Option<Abstract>)
      requires depth < MAX_DEPTH
      modifies this
      ensures Agrees(r, CheckBinding(n, lang, depth, old(Snapshot())))
      ensures charged + remainingSteps == old(charged + remainingSteps)
      decreases MAX_DEPTH - depth, 0
    {
      hide CheckExpression;
      hide CheckSequence;
      hide CheckBinary;
      hide CheckParts;
      hide CheckArguments;
      hide CheckCall;
      hide CheckCallee;
      if |Significant(n.children)| != 2 || |values| >= MAX_NAMES {
        return None;
      }
      var left := n.GetEither(LeftField, NameField);
      if left.None? || left.value.kind != Identifier || Reserved(left.value.text) {
        return None;
      }
      var right := n.GetEither(RightField, ValueField);
      if right.None? {
        return None;
      }
      r := Expression(right.value, depth + 1);
      if r.Some? {
        values := values[left.value.text := r.value];
      }
    }

    /** The arm for binary operators. */
    method Combine(n: Node, depth: nat) returns (r: Option<Abstract>)
      requires depth < MAX_DEPTH
      modifies this
      ensures Agrees(r, CheckBinary(n, lang, depth, old(Snapshot())))
      ensures charged + remainingSteps == old(charged + remainingSteps)
      decreases MAX_DEPTH - depth, 0
    {
      hide CheckExpression;
      hide CheckSequence;
      hide CheckBinding;
      hide CheckParts;
      hide CheckArguments;
      hide CheckCall;
      hide CheckCallee;
      if n.Get(LeftField).None? {
        return None;
      }
      var left := Expression(n.Get(LeftField).value, depth + 1);
      if left.None? || n.Get(RightField).None? {
        return None;
      }
      var right := Expression(n.Get(RightField).value, depth + 1);
      if right.None? || n.Get(OperatorField).None? {
        return None;
      }
      return Operation(left.value, n.Get(OperatorField).value.text, right.value);
    }

    /** The loop over the children of a block, or over the pieces of an adjacent literal. */
    method Children(ns: seq<Node>, depth: nat, texts: bool) returns (ok: bool)
      requires depth <= MAX_DEPTH
      modifies this
      ensures CheckSequence(ns, lang, depth, old(Snapshot()), texts) == if ok then Some(Snapshot()) else None
      ensures charged + remainingSteps == old(charged + remainingSteps)
      decreases MAX_DEPTH - depth, 2
    {
      hide CheckExpression;
      hide CheckBinding;
      hide CheckBinary;
      hide CheckParts;
      hide CheckArguments;
      hide CheckCall;
      hide CheckCallee;
      var i := 0;
      while i < |ns|
        invariant 0 <= i <= |ns|
        invariant CheckSequence(ns, lang, depth, old(Snapshot()), texts)
                  == CheckSequence(ns[i..], lang, depth, Snapshot(), texts)
        invariant charged + remainingSteps == old(charged + remainingSteps)
      {
        assert ns[i..][1..] == ns[i + 1..];
        var r := Expression(ns[i], depth);
        if r.None? || (texts && r.value != Text) {
          return false;
        }
        i := i + 1;
      }
      return true;
    }

    /** The walk over the nodes below a string. */
    method Interpolations(ns: seq<Node>, depth: nat) returns (ok: bool)
      requires depth < MAX_DEPTH
      modifies this
      ensures CheckParts(ns, lang, depth, old(Snapshot())) == if ok then Some(Snapshot()) else None
      ensures charged + remainingSteps == old(charged + remainingSteps)
      decreases MAX_DEPTH - depth, 0, 0
    {
      hide CheckExpression;
      hide CheckParts;
      hide Operand;
      var i := 0;
      NoParts(lang, depth);
      assert ns[0..] == ns && ns[|ns|..] == [];
      while i < |ns|
        invariant 0 <= i <= |ns|
        invariant CheckParts(ns, lang, depth, old(Snapshot())) == CheckParts(ns[i..], lang, depth, Snapshot())
        invariant charged + remainingSteps == old(charged + remainingSteps)
      {
        assert ns[i..][1..] == ns[i + 1..];
        CheckPartsNext(ns[i..], lang, depth, Snapshot());
        var paid := Charge();
        if !paid {
          return false;
        }
        if ns[i].IsInterpolation() {
          var value := Operand(ns[i]);
          if value.None? {
            return false;
          }
          var r := Expression(value.value, depth + 1);
          if r.None? || (r.value != Text && r.value != Scalar) {
            return false;
          }
        }
        i := i + 1;
      }
      return true;
    }

    /** The loop over the arguments of a call: only text and scalars may be passed on. */
    method ArgumentsPlain(args: seq<Node>, depth: nat) returns (ok: bool)
      requires depth <= MAX_DEPTH
      modifies this
      ensures CheckArguments(args, lang, depth, old(Snapshot())) == if ok then Some(Snapshot()) else None
      ensures charged + remainingSteps == old(charged + remainingSteps)
      decreases MAX_DEPTH - depth, 2
    {
      hide CheckExpression;
      hide CheckSequence;
      hide CheckBinding;
      hide CheckBinary;
      hide CheckParts;
      hide CheckCall;
      hide CheckCallee;
      var i := 0;
      while i < |args|
        invariant 0 <= i <= |args|
        invariant CheckArguments(args, lang, depth, old(Snapshot()))
                  == CheckArguments(args[i..], lang, depth, Snapshot())
        invariant charged + remainingSteps == old(charged + remainingSteps)
      {
        assert args[i..][1..] == args[i + 1..];
        var value := ArgumentValue(args[i]);
        if value.None? {
          return false;
        }
        var r := Expression(value.value, depth);
        if r.None? || (r.value != Text && r.value != Scalar) {
          return false;
        }
        i := i + 1;
      }
      return true;
    }

    method CallExpr(n: Node, depth: nat) returns (r: Option<Abstract>)
      requires depth <= MAX_DEPTH
      modifies this
      ensures Agrees(r, CheckCall(n, lang, depth, old(Snapshot())))
      ensures charged + remainingSteps == old(charged + remainingSteps)
      decreases MAX_DEPTH - depth, 1
    {
      hide CheckArguments;
      hide CheckCallee;
      hide Significant;
      if depth >= MAX_DEPTH {
        return None;
      }
      var paid := Charge();
      if !paid {
        return None;
      }
      var callee, arguments := n.Get(FunctionField), n.Get(ArgumentsField);
      if callee.None? || arguments.None? {
        return None;
      }
      if arguments.value.kind != ArgumentList && arguments.value.kind != Arguments {
        return None;  // a tagged template invokes its tag
      }
      var args := Significant(arguments.value.children);
      var plain := ArgumentsPlain(args, depth + 1);
      if !plain {
        return None;
      }
      r := Callee(callee.value, args, depth);
    }

    /** The rest of a call whose arguments are plain. */
    method Callee(f: Node, args: seq<Node>, depth: nat) returns (r: Option<Abstract>)
      requires depth < MAX_DEPTH
      modifies this
      ensures Agrees(r, CheckCallee(f, args, lang, depth, old(Snapshot())))
      ensures charged + remainingSteps == old(charged + remainingSteps)
      decreases MAX_DEPTH - depth, 0
    {
      hide CheckExpression;
      hide NamedCall;
      hide MethodCall;
      hide IsConsoleMethod;
      if f.kind == Identifier {
        return NamedCall(lang, f.text, args);
      }
      if f.kind != Attribute && f.kind != MemberExpression {
        return None;
      }
      var target, member := f.Get(ObjectField), f.GetEither(AttributeField, PropertyField);
      if target.None? || member.None? {
        return None;
      }
      if lang == JavaScript && target.value.kind == Identifier && target.value.text == "console" {
        return if IsConsoleMethod(member.value.text) then Some(Scalar) else None;
      }
      var receiver := Expression(target.value, depth + 1);
      if receiver.None? {
        return None;
      }
      return MethodCall(receiver.value, member.value.text);
    }
  }
}

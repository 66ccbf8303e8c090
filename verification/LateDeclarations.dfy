/** Programs that the constant propagation reports: one whose command runs, and one that a later
    declaration stops before any shell. */
module LateDeclarations {
  import opened BindingSoundness
  import opened Decoding
  import opened LiteralBindings
  import opened ScriptRun
  import opened Spelling
  import opened Syntax
  import opened Trees
  import opened Worklist
  import opened Wrappers

  // ---------------------------------------------------------- plain literals

  /** Text that needs no escape between single quotes. */
  predicate IsPlainText(s: string) {
    forall k :: 0 <= k < |s| ==> s[k] != '\\' && s[k] != '\r' && s[k] != '\''
  }

  const SCRIPT: Flavor := Flavor(false, false, false, false)

  lemma {:induction false} PlainBody(s: string)
    requires IsPlainText(s)
    ensures SpellsBody(s, s, SCRIPT)
  {
    if s != [] {
      PlainBody(s[1..]);
      assert Itself(s[..1], s[..1], s[1..], SCRIPT);
      assert Means(s[..1], s[..1], s[1..], SCRIPT) && SpellsBody(s[1..], s[1..], SCRIPT);
    }
  }

  lemma PlainLiteral(s: string)
    requires IsPlainText(s)
    ensures LiteralText(Quoted(s), JavaScript) == Some(s)
  {
    hide LiteralText;
    hide SpellsBody;
    hide TextMisreadings;
    var p := Parts([], '\'', 1, s, SCRIPT);
    PlainBody(s);
    assert Quotes('\'', 1) == "'";
    assert p.Text() == Quoted(s);
    assert SpelledBy(p, Quoted(s), s, JavaScript);
    ScriptTextIsRead(Quoted(s));
    DecoderIsExact(Quoted(s), s, JavaScript);
  }

  // ------------------------------------------------------------------- trees

  /** `const x = value;` */
  function Let(keyword: string, x: string, value: Node, at: nat): Node {
    Declaration(LexicalDeclaration, keyword, Declarator(x, value, at + Utf8Length(keyword) + 1), at)
  }

  function Declarator(x: string, value: Node, at: nat): Node { Assigning(JavaScript, x, value, at) }

  const SINK_SOURCE: string := "c.exec(x);"

  /** The call `c.exec(x)` and its tree. */
  function SinkCallNode(): Node { CallOf(JavaScript, Member("c", "exec", 0), Name("x", 7)) }

  function SinkTree(): Node { Top(JavaScript, [Statement(JavaScript, SinkCallNode())]) }

  /** `const c = require('child_process');` */
  function Loader(): Node { CallOf(JavaScript, Name("require", 10), Str("child_process", 18)) }

  function Loading(): Node { Let("const", "c", Loader(), 0) }

  /** `const x = '...';` */
  function Text(command: string, at: nat): Node { Str(command, at + 10) }

  function Texting(command: string, at: nat): Node { Let("const", "x", Text(command, at), at) }

  /** `eval('c.exec(x);');` */
  function EvalCall(at: nat): Node { CallOf(JavaScript, Name("eval", at), Str(SINK_SOURCE, at + 5)) }

  function Evaluating(at: nat): Node { Statement(JavaScript, EvalCall(at)) }

  /** `let eval = 1;` */
  function LateLet(at: nat): Node { Let("let", "eval", Leaf(ScalarLiteral, "1", at + 11), at) }

  /** Where the second, third and fourth lines start. */
  function SecondLine(): nat { Loading().end + 1 }

  function ThirdLine(command: string): nat { Texting(command, SecondLine()).end + 1 }

  function FourthLine(command: string): nat { Evaluating(ThirdLine(command)).end + 1 }

  /** The three statements, and then the tail. */
  function Statements(command: string, tail: seq<Node>): seq<Node> {
    [Loading()] + ([Texting(command, SecondLine())] + ([Evaluating(ThirdLine(command))] + tail))
  }

  function Root(command: string, tail: seq<Node>): Node { Top(JavaScript, Statements(command, tail)) }

  // ------------------------------------------------------- what they come to

  lemma UnwrapOne(outer: Node, inner: Node)
    requires IsWrapper(outer.kind) && Significant(outer.children) == [inner] && !IsWrapper(inner.kind)
    ensures Unwrap(outer, 4) == Some(inner)
  {
    hide Significant;
  }

  lemma StrValue(s: string, at: nat, parent: Option<Node>)
    requires IsPlainText(s)
    ensures StaticLiteral(Str(s, at), parent, JavaScript, 0) == Some(s)
  {
    PlainLiteral(s);
    StrIsStatic(s, at);
    hide LiteralText;
    hide Interpolated;
    hide Utf8Length;
  }

  lemma StrIsStatic(s: string, at: nat)
    ensures var n := Str(s, at); !Interpolated(n) && n.kind == StringLiteral && n.text == Quoted(s)
  {
    hide *;
    StrParts(s, at);
    StrIsFlat(s, at);
    FlatNodes(Str(s, at).children);
    NotInterpolated(Str(s, at));
  }

  lemma NotInterpolated(n: Node)
    requires n.kind == StringLiteral && BelowAll(n.children) == n.children
    requires forall c :: c in n.children ==> !c.IsInterpolation()
    ensures !Interpolated(n)
  {
    hide BelowAll;
  }

  lemma StrIsFlat(s: string, at: nat)
    ensures forall c :: c in Str(s, at).children ==> c.children == [] && !c.IsInterpolation()
  {
    hide Utf8Length;
  }

  lemma {:induction false} FlatNodes(ns: seq<Node>)
    requires forall c :: c in ns ==> c.children == []
    ensures BelowAll(ns) == ns
  {
    if ns != [] {
      FlatNodes(ns[1..]);
      assert Below(ns[0]) == [] && [ns[0]] + [] + ns[1..] == ns;
    }
  }

  lemma LetForm(keyword: string, x: string, value: Node, at: nat)
    ensures var d := Declarator(x, value, at + Utf8Length(keyword) + 1);
            Let(keyword, x, value, at) == Declaration(LexicalDeclaration, keyword, d, at)
    ensures Declarator(x, value, at) == Assigning(JavaScript, x, value, at)
    ensures Declarator(x, value, at + Utf8Length(keyword) + 1)
            == Assigning(JavaScript, x, value, at + Utf8Length(keyword) + 1)
  {
    hide Declaration;
    hide Assigning;
    hide Utf8Length;
  }

  lemma WrapperKinds()
    ensures IsWrapper(LexicalDeclaration) && IsWrapper(ExpressionStatement) && !IsWrapper(VariableDeclarator)
            && !IsWrapper(CallExpression)
    ensures forall n: Node ::
              (n.kind == VariableDeclarator ==> !n.IsCall()) && (n.kind == CallExpression ==> n.IsCall())
  {}

  lemma LetUnwraps(keyword: string, x: string, value: Node, at: nat)
    requires value.named && value.kind != Comment
    ensures var d := Declarator(x, value, at + Utf8Length(keyword) + 1);
            Unwrap(Let(keyword, x, value, at), 4) == Some(d) && !d.IsCall() && d.kind == VariableDeclarator
    ensures Let(keyword, x, value, at).named && Let(keyword, x, value, at).kind == LexicalDeclaration
  {
    hide *;
    var start := at + Utf8Length(keyword) + 1;
    var d := Declarator(x, value, start);
    LetForm(keyword, x, value, at);
    BindingShape(JavaScript, x, value, start);
    DeclarationShape(LexicalDeclaration, keyword, d, at);
    WrapperKinds();
    UnwrapOne(Let(keyword, x, value, at), d);
  }

  lemma StatementUnwraps(n: Node)
    requires n.named && n.kind == CallExpression
    ensures Unwrap(Statement(JavaScript, n), 4) == Some(n) && Statement(JavaScript, n).named
            && Statement(JavaScript, n).kind == ExpressionStatement
  {
    StatementShape(JavaScript, n);
    UnwrapOne(Statement(JavaScript, n), n);
    hide Unwrap;
    hide Statement;
  }

  lemma DeclaratorRecords(x: string, value: Node, at: nat, b: Binding, names: Names)
    requires IsAsciiName(x) && !Protected(x) && value.named && value.kind != Comment && |names| < MAX_CANDIDATES
    requires BoundValue(value, Declarator(x, value, at), JavaScript) == Some(b)
    ensures RecordedBinding(Declarator(x, value, at), JavaScript) == Some((x, b))
    ensures Recorded(Declarator(x, value, at), JavaScript, names) == Some(names[x := b])
  {
    BindingShape(JavaScript, x, value, at);
    NameText(x, at);
    hide BoundValue;
    hide IsAsciiName;
    hide Protected;
    hide Assigning;
    hide Named;
    hide Name;
    hide Utf8Length;
    hide Node.GetEither;
  }

  lemma NameText(x: string, at: nat)
    ensures Name(x, at).kind == Identifier && Name(x, at).text == x && Name(x, at).named
  {}

  lemma CallTakes(f: Node, s: string, at: nat) returns (a: Node)
    requires IsPlainText(s)
    ensures var n := CallOf(JavaScript, f, Str(s, at));
            && n.kind == CallExpression && n.named && n.Get(FunctionField) == Some(f)
               && n.Get(ArgumentsField) == Some(a)
            && Significant(a.children) == [Str(s, at)] && StaticLiteral(Str(s, at), Some(a), JavaScript, 0) == Some(s)
  {
    hide *;
    StrParts(s, at);
    StrFacts(s, at);
    a := CallShape(JavaScript, f, Str(s, at));
    StrValue(s, at, Some(a));
  }

  lemma StrFacts(s: string, at: nat)
    ensures Str(s, at).named && Str(s, at).kind == StringLiteral && Str(s, at).kind != Comment && Str(s, at).IsString()
  {}

  /** A call of `require` with this literal. */
  lemma RequiredOf(n: Node, f: Node, a: Node, arg: Node, parent: Node)
    requires n.kind == CallExpression && n.Get(FunctionField) == Some(f) && n.Get(ArgumentsField) == Some(a)
    requires f.kind == Identifier && f.text == "require" && Significant(a.children) == [arg]
    requires StaticLiteral(arg, Some(a), JavaScript, 0) == Some("child_process")
    ensures BoundValue(n, parent, JavaScript) == Some(ModuleBinding(NodeChildProcess))
  {
    hide StaticLiteral;
    hide Significant;
    hide Node.Get;
  }

  lemma LoaderForm()
    ensures Loader() == CallOf(JavaScript, Name("require", 10), Str("child_process", 18))
            && IsPlainText("child_process")
  {
    hide CallOf;
    hide Name;
    hide Str;
  }

  lemma LoadsChildProcess(parent: Node)
    ensures BoundValue(Loader(), parent, JavaScript) == Some(ModuleBinding(NodeChildProcess))
    ensures Loader().named && Loader().kind == CallExpression
  {
    hide *;
    LoaderForm();
    var a := CallTakes(Name("require", 10), "child_process", 18);
    NameText("require", 10);
    RequiredOf(Loader(), Name("require", 10), a, Str("child_process", 18), parent);
  }

  lemma BindsText(command: string, at: nat, parent: Node)
    requires IsPlainText(command) && Utf8Length(command) <= MAX_PAYLOAD_BYTES
    ensures var n := Str(command, at); BoundValue(n, parent, JavaScript) == Some(TextBinding(command, n.start, n.end))
  {
    StrValue(command, at, Some(parent));
    StrFacts(command, at);
    hide StaticLiteral;
    hide Str;
  }

  /** A call of `eval` with this literal. */
  lemma EvaluatedOf(n: Node, f: Node, a: Node, arg: Node, code: string)
    requires n.kind == CallExpression && n.Get(FunctionField) == Some(f) && n.Get(ArgumentsField) == Some(a)
    requires f.kind == Identifier && f.text == "eval" && Significant(a.children) == [arg]
    requires StaticLiteral(arg, Some(a), JavaScript, 0) == Some(code)
    ensures EvaluatedSource(n, JavaScript) == Some(code) && EvaluatorName(n) == "eval" && n.IsCall()
  {
    hide StaticLiteral;
    hide Significant;
    hide Node.Get;
  }

  lemma EvalForm(at: nat)
    ensures EvalCall(at) == CallOf(JavaScript, Name("eval", at), Str(SINK_SOURCE, at + 5)) && IsPlainText(SINK_SOURCE)
    ensures Evaluating(at) == Statement(JavaScript, EvalCall(at))
  {
    hide CallOf;
    hide Name;
    hide Str;
    hide Statement;
  }

  lemma EvaluatesSink(at: nat)
    ensures EvaluatedSource(EvalCall(at), JavaScript) == Some(SINK_SOURCE) && EvaluatorName(EvalCall(at)) == "eval"
    ensures EvalCall(at).named && EvalCall(at).kind == CallExpression && EvalCall(at).IsCall()
  {
    hide *;
    EvalForm(at);
    var a := CallTakes(Name("eval", at), SINK_SOURCE, at + 5);
    NameText("eval", at);
    EvaluatedOf(EvalCall(at), Name("eval", at), a, Str(SINK_SOURCE, at + 5), SINK_SOURCE);
  }

  /** A call of a method of the module that `c` holds, with the name `x`. */
  lemma SinkOfCall(n: Node, f: Node, a: Node, o: Node, p: Node, arg: Node, names: Names)
    requires n.kind == CallExpression && n.Get(FunctionField) == Some(f) && n.Get(ArgumentsField) == Some(a)
    requires f.kind == MemberExpression && f.Get(ObjectField) == Some(o)
             && f.GetEither(AttributeField, PropertyField) == Some(p)
    requires o.kind == Identifier && o.text == "c" && p.kind == PropertyIdentifier && p.text == "exec"
    requires Significant(a.children) == [arg] && arg.kind == Identifier && arg.text == "x"
    requires "c" in names && names["c"] == ModuleBinding(NodeChildProcess)
    ensures IsCallTo(n, names, JavaScript, "x")
    ensures ReceiverName(n) == Some("c") && LibraryOf(n, JavaScript) == "child_process"
            && SinkOf(n, JavaScript, names) == "exec"
  {
    hide RequiredModule;
    hide Significant;
    hide Node.Get;
    hide Node.GetEither;
  }

  lemma SinkForm()
    ensures SinkCallNode() == CallOf(JavaScript, Member("c", "exec", 0), Name("x", 7))
    ensures SinkTree() == Top(JavaScript, [Statement(JavaScript, SinkCallNode())])
  {
    hide CallOf;
    hide Member;
    hide Name;
    hide Statement;
    hide Top;
  }

  lemma SinkParts() returns (f: Node, a: Node, o: Node, p: Node, arg: Node)
    ensures var n := SinkCallNode();
            n.kind == CallExpression && n.named && n.Get(FunctionField) == Some(f) && n.Get(ArgumentsField) == Some(a)
    ensures f.kind == MemberExpression && f.Get(ObjectField) == Some(o)
    ensures f.GetEither(AttributeField, PropertyField) == Some(p)
    ensures o.kind == Identifier && o.text == "c" && p.kind == PropertyIdentifier && p.text == "exec"
    ensures Significant(a.children) == [arg] && arg.kind == Identifier && arg.text == "x"
  {
    hide *;
    f, o, arg := Member("c", "exec", 0), Name("c", 0), Name("x", 7);
    p := Leaf(PropertyIdentifier, "exec", o.end + 1);
    SinkForm();
    NameText("x", 7);
    NameIsNoComment("x", 7);
    MemberShape("c", "exec", 0);
    a := CallShape(JavaScript, f, arg);
  }

  lemma SinkIsCall(names: Names)
    requires "c" in names && names["c"] == ModuleBinding(NodeChildProcess)
    ensures var n := SinkCallNode();
            && IsCallTo(n, names, JavaScript, "x") && n.named && n.kind == CallExpression
            && ReceiverName(n) == Some("c") && LibraryOf(n, JavaScript) == "child_process"
            && SinkOf(n, JavaScript, names) == "exec"
  {
    hide *;
    var f, a, o, p, arg := SinkParts();
    SinkOfCall(SinkCallNode(), f, a, o, p, arg, names);
  }

  lemma NameIsNoComment(x: string, at: nat)
    ensures Name(x, at).kind != Comment
  {}

  // --------------------------------------------------------- admissible trees

  predicate IsHarmless(k: Kind) {
    k != OtherKind("ERROR") && k != OtherKind("MISSING") && k != FunctionDeclaration
      && k != GeneratorFunctionDeclaration
  }

  /** At most `size` nodes, each of them admissible. */
  predicate AreSmall(ns: seq<Node>, size: nat) {
    |ns| <= size && forall d :: d in ns ==> IsHarmless(d.kind)
  }

  predicate IsSmall(n: Node, size: nat) { AreSmall([n] + Below(n), size) }

  lemma SmallAtom(n: Node)
    requires n.children == [] && IsHarmless(n.kind)
    ensures IsSmall(n, 1)
  {
    assert Below(n) == [];
  }

  lemma SmallCons(n: Node, ns: seq<Node>, size: nat, rest: nat)
    requires IsSmall(n, size) && AreSmall(BelowAll(ns), rest)
    ensures AreSmall(BelowAll([n] + ns), size + rest)
  {
    hide IsHarmless;
    hide Below;
    assert ([n] + ns)[1..] == ns;
    assert BelowAll([n] + ns) == ([n] + Below(n)) + BelowAll(ns);
  }

  lemma SmallNothing()
    ensures AreSmall(BelowAll([]), 0)
  {}

  lemma SmallNode(n: Node, size: nat)
    requires IsHarmless(n.kind) && AreSmall(BelowAll(n.children), size)
    ensures IsSmall(n, size + 1)
  {
    hide IsHarmless;
    hide BelowAll;
  }

  lemma SmallPair(n: Node, a: Node, b: Node, first: nat, second: nat)
    requires IsHarmless(n.kind) && n.children == [a, b] && IsSmall(a, first) && IsSmall(b, second)
    ensures IsSmall(n, first + second + 1)
  {
    hide *;
    SmallNothing();
    SmallCons(b, [], second, 0);
    assert [b] + [] == [b] && [a] + [b] == [a, b];
    SmallCons(a, [b], first, second);
    SmallNode(n, first + second);
  }

  lemma SmallTriple(n: Node, a: Node, b: Node, c: Node, first: nat, second: nat, third: nat)
    requires IsHarmless(n.kind) && n.children == [a, b, c] && IsSmall(a, first) && IsSmall(b, second)
             && IsSmall(c, third)
    ensures IsSmall(n, first + second + third + 1)
  {
    hide *;
    SmallNothing();
    SmallCons(c, [], third, 0);
    assert [c] + [] == [c] && [b] + [c] == [b, c] && [a] + [b, c] == [a, b, c];
    SmallCons(b, [c], second, third);
    SmallCons(a, [b, c], first, second + third);
    SmallNode(n, first + second + third);
  }

  lemma SmallToken(text: string, at: nat)
    requires text != "ERROR" && text != "MISSING"
    ensures IsSmall(Token(text, at), 1)
  {
    SmallAtom(Token(text, at));
    hide IsSmall;
    hide Utf8Length;
  }

  lemma SmallLeaf(kind: Kind, text: string, at: nat)
    requires IsHarmless(kind)
    ensures IsSmall(Leaf(kind, text, at), 1)
  {
    SmallAtom(Leaf(kind, text, at));
    hide IsSmall;
    hide Utf8Length;
  }

  lemma Harmless()
    ensures IsHarmless(Identifier) && IsHarmless(PropertyIdentifier) && IsHarmless(ScalarLiteral)
            && IsHarmless(StringLiteral)
    ensures IsHarmless(CallExpression) && IsHarmless(Arguments) && IsHarmless(MemberExpression)
            && IsHarmless(VariableDeclarator)
    ensures IsHarmless(LexicalDeclaration) && IsHarmless(ExpressionStatement) && IsHarmless(Program)
    ensures IsHarmless(OtherKind("string_content"))
  {}

  lemma SmallStr(s: string, at: nat)
    ensures IsSmall(Str(s, at), 4)
  {
    hide *;
    StrParts(s, at);
    Harmless();
    QuoteIsToken();
    var end := at + 1 + Utf8Length(s);
    SmallToken("'", at);
    SmallLeaf(OtherKind("string_content"), s, at + 1);
    SmallToken("'", end);
    SmallTriple(Str(s, at), Token("'", at), Leaf(OtherKind("string_content"), s, at + 1), Token("'", end), 1, 1, 1);
  }

  lemma QuoteIsToken()
    ensures "'" != "ERROR" && "'" != "MISSING" && "(" != "ERROR" && "(" != "MISSING" && ")" != "ERROR"
            && ")" != "MISSING"
    ensures "=" != "ERROR" && "=" != "MISSING" && ";" != "ERROR" && ";" != "MISSING" && "." != "ERROR"
            && "." != "MISSING"
  {}

  lemma SmallName(x: string, at: nat)
    ensures IsSmall(Name(x, at), 1)
  {
    SmallLeaf(Identifier, x, at);
    hide IsSmall;
  }

  lemma SmallCall(f: Node, arg: Node, first: nat, second: nat)
    requires IsSmall(f, first) && IsSmall(arg, second) && arg.named && arg.kind != Comment
    ensures IsSmall(CallOf(JavaScript, f, arg), first + second + 4)
  {
    hide *;
    var a := CallShape(JavaScript, f, arg);
    Harmless();
    QuoteIsToken();
    SmallToken("(", f.end);
    SmallToken(")", arg.end);
    SmallTriple(a, Token("(", f.end), arg, Token(")", arg.end), 1, second, 1);
    SmallPair(CallOf(JavaScript, f, arg), f, a, first, second + 3);
  }

  lemma SmallLet(keyword: string, x: string, value: Node, at: nat, size: nat)
    requires IsSmall(value, size) && value.named && value.kind != Comment && keyword != "ERROR" && keyword != "MISSING"
    ensures IsSmall(Let(keyword, x, value, at), size + 6)
  {
    hide *;
    Harmless();
    QuoteIsToken();
    var start := at + Utf8Length(keyword) + 1;
    var d := Declarator(x, value, start);
    LetForm(keyword, x, value, at);
    BindingShape(JavaScript, x, value, start);
    DeclarationShape(LexicalDeclaration, keyword, d, at);
    SmallName(x, start);
    SmallToken("=", Name(x, start).end + 1);
    SmallTriple(d, Name(x, start), Token("=", Name(x, start).end + 1), value, 1, 1, size);
    SmallToken(keyword, at);
    SmallToken(";", d.end);
    SmallTriple(Let(keyword, x, value, at), Token(keyword, at), d, Token(";", d.end), 1, size + 3, 1);
  }

  lemma SmallStatement(n: Node, size: nat)
    requires IsSmall(n, size) && n.named && n.kind != Comment
    ensures IsSmall(Statement(JavaScript, n), size + 2)
  {
    hide *;
    Harmless();
    QuoteIsToken();
    StatementShape(JavaScript, n);
    SmallToken(";", n.end);
    SmallPair(Statement(JavaScript, n), n, Token(";", n.end), size, 1);
  }

  lemma TopForm(ns: seq<Node>)
    ensures Top(JavaScript, ns).children == ns && Top(JavaScript, ns).kind == Program
  {}

  lemma SmallMember(o: string, p: string, at: nat)
    ensures IsSmall(Member(o, p, at), 4)
  {
    hide *;
    Harmless();
    QuoteIsToken();
    MemberForm(o, p, at);
    MemberShape(o, p, at);
    var t := Name(o, at).end;
    SmallName(o, at);
    SmallToken(".", t);
    SmallLeaf(PropertyIdentifier, p, t + 1);
    SmallTriple(Member(o, p, at), Name(o, at), Token(".", t), Leaf(PropertyIdentifier, p, t + 1), 1, 1, 1);
  }

  lemma SmallSinkCall()
    ensures IsSmall(SinkCallNode(), 9)
  {
    hide *;
    SinkForm();
    NameText("x", 7);
    NameIsNoComment("x", 7);
    SmallMember("c", "exec", 0);
    SmallName("x", 7);
    SmallCall(Member("c", "exec", 0), Name("x", 7), 4, 1);
  }

  lemma SmallSinkTree()
    ensures IsSmall(SinkTree(), 12)
  {
    hide *;
    Harmless();
    SinkForm();
    SinkNamed();
    var n := SinkCallNode();
    SmallSinkCall();
    SmallStatement(n, 9);
    TopForm([Statement(JavaScript, n)]);
    SmallNothing();
    SmallCons(Statement(JavaScript, n), [], 11, 0);
    assert [Statement(JavaScript, n)] + [] == [Statement(JavaScript, n)];
    SmallNode(SinkTree(), 11);
  }

  lemma SinkNamed()
    ensures SinkCallNode().named && SinkCallNode().kind == CallExpression && SinkCallNode().kind != Comment
  {
    hide Utf8Length;
  }

  lemma KeywordsAreTokens()
    ensures "const" != "ERROR" && "const" != "MISSING" && "let" != "ERROR" && "let" != "MISSING"
  {
    assert "const"[0] == 'c' && "let"[0] == 'l' && "ERROR"[0] == 'E' && "MISSING"[0] == 'M';
  }

  lemma LineForms(command: string, at: nat)
    ensures Loading() == Let("const", "c", Loader(), 0)
            && Texting(command, at) == Let("const", "x", Text(command, at), at)
    ensures Text(command, at) == Str(command, at + 10)
    ensures LateLet(at) == Let("let", "eval", Leaf(ScalarLiteral, "1", at + 11), at)
  {
    hide Let;
    hide Loader;
    hide Str;
    hide Leaf;
  }

  lemma SmallLoading()
    ensures IsSmall(Loading(), 15)
  {
    hide *;
    KeywordsAreTokens();
    LineForms([], 0);
    LoaderForm();
    LoadsChildProcess(Name("c", 0));
    StrFacts("child_process", 18);
    CallIsNoComment(Loader());
    SmallName("require", 10);
    SmallStr("child_process", 18);
    SmallCall(Name("require", 10), Str("child_process", 18), 1, 4);
    SmallLet("const", "c", Loader(), 0, 9);
  }

  lemma SmallTexting(command: string, at: nat)
    ensures IsSmall(Texting(command, at), 10)
  {
    hide *;
    KeywordsAreTokens();
    LineForms(command, at);
    StrFacts(command, at + 10);
    SmallStr(command, at + 10);
    SmallLet("const", "x", Text(command, at), at, 4);
  }

  lemma SmallEvaluating(at: nat)
    ensures IsSmall(Evaluating(at), 11)
  {
    hide *;
    EvalForm(at);
    EvaluatesSink(at);
    StrFacts(SINK_SOURCE, at + 5);
    CallIsNoComment(EvalCall(at));
    SmallName("eval", at);
    SmallStr(SINK_SOURCE, at + 5);
    SmallCall(Name("eval", at), Str(SINK_SOURCE, at + 5), 1, 4);
    SmallStatement(EvalCall(at), 9);
  }

  lemma SmallLateLet(at: nat)
    ensures IsSmall(LateLet(at), 7)
  {
    hide *;
    Harmless();
    KeywordsAreTokens();
    LineForms([], at);
    NumberFacts(at + 11);
    SmallLeaf(ScalarLiteral, "1", at + 11);
    SmallLet("let", "eval", Leaf(ScalarLiteral, "1", at + 11), at, 1);
  }

  lemma CallIsNoComment(n: Node)
    ensures n.kind == CallExpression ==> n.kind != Comment
  {}

  lemma NumberFacts(at: nat)
    ensures Leaf(ScalarLiteral, "1", at).named && Leaf(ScalarLiteral, "1", at).kind != Comment
  {}

  lemma RootForm(command: string, tail: seq<Node>)
    ensures Root(command, tail) == Top(JavaScript, Statements(command, tail))
    ensures Statements(command, tail)
            == [Loading()] + ([Texting(command, SecondLine())] + ([Evaluating(ThirdLine(command))] + tail))
  {
    hide Loading;
    hide Texting;
    hide Evaluating;
    hide SecondLine;
    hide ThirdLine;
    hide Top;
  }

  lemma SmallRoot(command: string, tail: seq<Node>, size: nat)
    requires AreSmall(BelowAll(tail), size)
    ensures IsSmall(Root(command, tail), size + 37)
  {
    hide *;
    Harmless();
    RootForm(command, tail);
    TopForm(Statements(command, tail));
    SmallLoading();
    SmallTexting(command, SecondLine());
    SmallEvaluating(ThirdLine(command));
    var b, c := Texting(command, SecondLine()), Evaluating(ThirdLine(command));
    SmallCons(c, tail, 11, size);
    SmallCons(b, [c] + tail, 10, size + 11);
    SmallCons(Loading(), [b] + ([c] + tail), 15, size + 21);
    SmallNode(Root(command, tail), size + 36);
  }

  lemma {:induction false} SmallIsAdmitted(ns: seq<Node>, seen: nat)
    requires AreSmall(ns, |ns|) && seen + |ns| <= MAX_NODES
    ensures Admit(ns, seen) == Whole
  {
    if ns != [] {
      assert IsHarmless(ns[0].kind);
      SmallIsAdmitted(ns[1..], seen + 1);
    }
  }

  // ------------------------------------------------------------------ ranges

  lemma StrSpans(s: string, at: nat)
    ensures Str(s, at).start == at && WellFormed(Str(s, at))
  {
    hide *;
    StrParts(s, at);
    StrWellFormed(s, at);
  }

  lemma LetWellFormed(keyword: string, x: string, value: Node, at: nat)
    requires WellFormed(value) && value.start == ValueAt(x, at + Utf8Length(keyword) + 1)
    ensures var n := Let(keyword, x, value, at); WellFormed(n) && n.start == at && n.end == value.end + 1
  {
    hide *;
    var start := at + Utf8Length(keyword) + 1;
    LetForm(keyword, x, value, at);
    LetIsNoString();
    BindingWellFormed(JavaScript, x, value, start);
    DeclarationWellFormed(LexicalDeclaration, keyword, Declarator(x, value, start), at);
  }

  lemma LetIsNoString()
    ensures !IsStringKind(LexicalDeclaration)
  {}

  lemma Widths(at: nat)
    ensures ValueAt("c", 6) == 10 && ValueAt("x", at + 6) == at + 10 && ValueAt("eval", at + 4) == at + 11
    ensures Utf8Length("require") == 7 && Utf8Length("eval") == 4 && Utf8Length("const") == 5 && Utf8Length("let") == 3
  {
    ConstWidth();
    assert Utf8Length("c") == 1 && Utf8Length("x") == 1;
    assert Utf8Length("al") == 2;
    assert Utf8Length("val") == 3;
    assert "eval"[1..] == "val" && Utf8Length("eval") == 4;
    assert Utf8Length("re") == 2;
    assert Utf8Length("ire") == 3;
    assert "uire"[1..] == "ire" && Utf8Length("uire") == 4;
    assert "quire"[1..] == "uire" && Utf8Length("quire") == 5;
    assert "equire"[1..] == "quire" && Utf8Length("equire") == 6;
    assert "require"[1..] == "equire";
  }

  lemma LoadingWellFormed()
    ensures WellFormed(Loading()) && Loading().start == 0
  {
    hide *;
    Widths(0);
    LineForms([], 0);
    LoaderForm();
    NameWellFormed("require", 10);
    StrSpans("child_process", 18);
    CallWellFormed(JavaScript, Name("require", 10), Str("child_process", 18));
    LetWellFormed("const", "c", Loader(), 0);
  }

  lemma TextingWellFormed(command: string, at: nat)
    ensures WellFormed(Texting(command, at)) && Texting(command, at).start == at
  {
    hide *;
    Widths(at);
    LineForms(command, at);
    StrSpans(command, at + 10);
    LetWellFormed("const", "x", Text(command, at), at);
  }

  lemma EvaluatingWellFormed(at: nat)
    ensures WellFormed(Evaluating(at)) && Evaluating(at).start == at
  {
    hide *;
    Widths(at);
    EvalForm(at);
    NameWellFormed("eval", at);
    StrSpans(SINK_SOURCE, at + 5);
    CallWellFormed(JavaScript, Name("eval", at), Str(SINK_SOURCE, at + 5));
    EvaluatesSink(at);
    CallIsNoComment(EvalCall(at));
    StatementWellFormed(EvalCall(at));
  }

  lemma LateLetWellFormed(at: nat)
    ensures WellFormed(LateLet(at)) && LateLet(at).start == at
  {
    hide *;
    Widths(at);
    LineForms([], at);
    NumberSpans(at + 11);
    LetWellFormed("let", "eval", Leaf(ScalarLiteral, "1", at + 11), at);
  }

  lemma NumberSpans(at: nat)
    ensures Leaf(ScalarLiteral, "1", at).start == at && WellFormed(Leaf(ScalarLiteral, "1", at))
  {}

  lemma TailPlaced(n: Node, lo: nat)
    requires WellFormed(n) && lo <= n.start
    ensures WellFormedAll([n], lo, n.end)
  {
    Ranges(n);
    hide WellFormed;
    assert [n][1..] == [];
  }

  lemma SinkTreeWellFormed()
    ensures WellFormed(SinkTree())
  {
    hide *;
    var n := SinkCallNode();
    var s := Statement(JavaScript, n);
    SinkForm();
    SinkNamed();
    SinkWidth();
    MemberWellFormed("c", "exec", 0);
    NameWellFormed("x", 7);
    CallWellFormed(JavaScript, Member("c", "exec", 0), Name("x", 7));
    StatementWellFormed(n);
    TailPlaced(s, 0);
    EndOfOne(s);
    TopWellFormed(JavaScript, [s]);
  }

  lemma SinkWidth()
    ensures Utf8Length("c") + 1 + Utf8Length("exec") == 6
  {
    assert Utf8Length("ec") == 2;
    assert Utf8Length("xec") == 3;
    assert "exec"[1..] == "xec" && Utf8Length("exec") == 4;
  }

  lemma EndOfOne(n: Node)
    ensures EndOf([n]) == n.end
  {}

  lemma PlacedCons(n: Node, ns: seq<Node>, lo: nat, hi: nat)
    requires WellFormed(n) && lo <= n.start && n.end <= hi && WellFormedAll(ns, n.end, hi)
    ensures WellFormedAll([n] + ns, lo, hi)
  {
    hide WellFormed;
    assert ([n] + ns)[1..] == ns;
  }

  lemma LinesAt(command: string)
    ensures SecondLine() == Loading().end + 1 && ThirdLine(command) == Texting(command, SecondLine()).end + 1
    ensures FourthLine(command) == Evaluating(ThirdLine(command)).end + 1
  {
    hide Loading;
    hide Texting;
    hide Evaluating;
  }

  /** Each line stands after the one before. */
  lemma RootIsPlaced(command: string, tail: seq<Node>, hi: nat)
    requires WellFormedAll(tail, Evaluating(ThirdLine(command)).end, hi)
    ensures WellFormedAll(Statements(command, tail), 0, hi)
  {
    hide *;
    var a, b, c := Loading(), Texting(command, SecondLine()), Evaluating(ThirdLine(command));
    RootForm(command, tail);
    LinesAt(command);
    LoadingWellFormed();
    TextingWellFormed(command, SecondLine());
    EvaluatingWellFormed(ThirdLine(command));
    Ranges(a);
    Ranges(b);
    Ranges(c);
    PlacedBefore(tail, c.end, hi);
    PlacedCons(c, tail, b.end, hi);
    PlacedCons(b, [c] + tail, a.end, hi);
    PlacedCons(a, [b] + ([c] + tail), 0, hi);
  }

  lemma PlacedBefore(ns: seq<Node>, lo: nat, hi: nat)
    requires WellFormedAll(ns, lo, hi)
    ensures lo <= hi
  {
    if ns != [] {
      Ranges(ns[0]);
      hide WellFormed;
    }
  }

  // ------------------------------------------------------------- the report

  lemma DependsOn(code: string, names: Names, parse: Parser, call: Node, arg: string)
    requires Utf8Length(code) <= MAX_PAYLOAD_BYTES && parse(code, JavaScript).Some?
    requires Admit([parse(code, JavaScript).value] + Below(parse(code, JavaScript).value), 0) == Whole
    requires OnlyStatement(parse(code, JavaScript).value) == Some(call) && IsCallTo(call, names, JavaScript, arg)
    ensures Dependency(code, JavaScript, names, parse) == Ok(Some(arg))
    ensures EvaluatedCall(code, JavaScript, parse) == call
  {
    hide BoundCallee;
    hide Significant;
    hide Admit;
    hide OnlyStatement;
    hide IsShellSink;
    hide Below;
    hide Utf8Length;
  }

  lemma OneStatement(root: Node, n: Node, call: Node)
    requires root.children == [n] && n.named && n.kind != Comment && Unwrap(n, 4) == Some(call)
    ensures OnlyStatement(root) == Some(call)
  {
    Alone(n);
    hide Unwrap;
    hide Significant;
  }

  lemma SinkTreeIsOneCall()
    ensures OnlyStatement(SinkTree()) == Some(SinkCallNode())
  {
    hide *;
    SinkForm();
    SinkNamed();
    StatementUnwraps(SinkCallNode());
    StatementIsNoComment(Statement(JavaScript, SinkCallNode()));
    TopForm([Statement(JavaScript, SinkCallNode())]);
    OneStatement(SinkTree(), Statement(JavaScript, SinkCallNode()), SinkCallNode());
  }

  lemma StatementIsNoComment(n: Node)
    ensures n.kind == ExpressionStatement || n.kind == LexicalDeclaration ==> n.kind != Comment
  {}

  lemma SinkTreeIsAdmitted()
    ensures Admit([SinkTree()] + Below(SinkTree()), 0) == Whole
  {
    SmallSinkTree();
    hide Admit;
    hide Below;
    hide SinkTree;
    SmallIsAdmitted([SinkTree()] + Below(SinkTree()), 0);
  }

  lemma SinkDepends(names: Names, parse: Parser)
    requires parse(SINK_SOURCE, JavaScript) == Some(SinkTree())
    requires "c" in names && names["c"] == ModuleBinding(NodeChildProcess)
    ensures Dependency(SINK_SOURCE, JavaScript, names, parse) == Ok(Some("x"))
    ensures EvaluatedCall(SINK_SOURCE, JavaScript, parse) == SinkCallNode()
  {
    hide *;
    SinkIsCall(names);
    SinkTreeIsAdmitted();
    SinkTreeIsOneCall();
    SinkSourceIsShort();
    DependsOn(SINK_SOURCE, names, parse, SinkCallNode(), "x");
  }

  lemma SinkSourceIsShort()
    ensures Utf8Length(SINK_SOURCE) <= MAX_PAYLOAD_BYTES
  {
    Utf8Bound(SINK_SOURCE);
  }

  lemma {:induction false} Utf8Bound(s: string)
    ensures Utf8Length(s) <= 4 * |s|
  {
    if s != [] { Utf8Bound(s[1..]); }
  }

  lemma Leads(ns: seq<Node>, n: Node, names: Names, nodes: map<string, Node>, x: string, b: Binding, parse: Parser)
    requires ns != [] && Unwrap(ns[0], 4) == Some(n) && !n.IsCall()
    requires RecordedBinding(n, JavaScript) == Some((x, b)) && Recorded(n, JavaScript, names) == Some(names[x := b])
    ensures Commands(ns, JavaScript, names, parse) == Commands(ns[1..], JavaScript, names[x := b], parse)
    ensures Reported(ns, JavaScript, names, nodes, parse)
            == Reported(ns[1..], JavaScript, names[x := b], nodes[x := n], parse)
  {
    hide Recorded;
    hide RecordedBinding;
    hide Unwrap;
  }

  lemma Reports(ns: seq<Node>, n: Node, names: Names, nodes: map<string, Node>, parse: Parser, code: string,
                arg: string)
    requires ns != [] && Unwrap(ns[0], 4) == Some(n) && n.IsCall() && EvaluatedSource(n, JavaScript) == Some(code)
    requires Dependency(code, JavaScript, names, parse) == Ok(Some(arg)) && arg in names && names[arg].TextBinding?
    ensures var b := names[arg];
            Commands(ns, JavaScript, names, parse) == Ok([Command(b.value, b.start, b.end)])
    ensures Reported(ns, JavaScript, names, nodes, parse)
            == Some(ReportOf(n, code, arg, JavaScript, names, nodes, parse))
  {
    hide Dependency;
    hide Unwrap;
    hide EvaluatedSource;
    hide ReportOf;
  }

  lemma PlainNames()
    ensures IsAsciiName("c") && IsAsciiName("x") && !Protected("c") && !Protected("x")
  {}

  const NOTHING: Names := map[]
  const NOWHERE: map<string, Node> := map[]

  lemma TableRoom(b: Binding)
    ensures |NOTHING| < MAX_CANDIDATES && |NOTHING["c" := b]| < MAX_CANDIDATES
  {}

  /** What the second and third statement find. */
  function NamesOf(command: string): Names {
    var v := Text(command, SecondLine());
    NOTHING["c" := ModuleBinding(NodeChildProcess)]["x" := TextBinding(command, v.start, v.end)]
  }

  function LoadDeclarator(): Node { Declarator("c", Loader(), 6) }

  function TextDeclarator(command: string): Node { Declarator("x", Text(command, SecondLine()), SecondLine() + 6) }

  function NodesOf(command: string): map<string, Node> {
    NOWHERE["c" := LoadDeclarator()]["x" := TextDeclarator(command)]
  }

  lemma LetsUnwrap(command: string)
    ensures Unwrap(Loading(), 4) == Some(LoadDeclarator()) && !LoadDeclarator().IsCall()
    ensures Unwrap(Texting(command, SecondLine()), 4) == Some(TextDeclarator(command))
            && !TextDeclarator(command).IsCall()
    ensures Loading().named && Texting(command, SecondLine()).named
    ensures Loading().kind == LexicalDeclaration && Texting(command, SecondLine()).kind == LexicalDeclaration
  {
    hide *;
    LineForms(command, SecondLine());
    LoadsChildProcess(Name("c", 0));
    CallIsNoComment(Loader());
    StrFacts(command, SecondLine() + 10);
    ConstWidth();
    DeclaratorForms(command);
    LetUnwraps("const", "c", Loader(), 0);
    LetUnwraps("const", "x", Text(command, SecondLine()), SecondLine());
  }

  lemma ConstWidth()
    ensures Utf8Length("const") == 5 && Utf8Length("let") == 3
  {
    assert Utf8Length("onst") == 4 && Utf8Length("et") == 2 by { assert Utf8Length("st") == 2; }
  }

  lemma DeclaratorForms(command: string)
    ensures LoadDeclarator() == Declarator("c", Loader(), 6)
    ensures TextDeclarator(command) == Declarator("x", Text(command, SecondLine()), SecondLine() + 6)
  {
    hide Declarator;
    hide Loader;
    hide Text;
    hide SecondLine;
  }

  lemma NameForms(command: string)
    ensures var v := Text(command, SecondLine());
            NamesOf(command)
              == NOTHING["c" := ModuleBinding(NodeChildProcess)]["x" := TextBinding(command, v.start, v.end)]
    ensures NodesOf(command) == NOWHERE["c" := LoadDeclarator()]["x" := TextDeclarator(command)]
  {
    hide Text;
    hide SecondLine;
    hide LoadDeclarator;
    hide TextDeclarator;
  }

  lemma StatementsStep(command: string, tail: seq<Node>)
    ensures var ns := Statements(command, tail);
            && ns != [] && ns[0] == Loading()
            && ns[1..] != [] && ns[1..][0] == Texting(command, SecondLine())
            && ns[1..][1..] != [] && ns[1..][1..][0] == Evaluating(ThirdLine(command))
  {
    RootForm(command, tail);
    hide Statements;
    hide Loading;
    hide Texting;
    hide Evaluating;
    hide SecondLine;
    hide ThirdLine;
  }

  /** The statements in front of any tail are reported. */
  lemma StatementsReported(command: string, tail: seq<Node>, parse: Parser)
    requires IsPlainText(command) && Utf8Length(command) <= MAX_PAYLOAD_BYTES
    requires parse(SINK_SOURCE, JavaScript) == Some(SinkTree())
    ensures var ns, v := Statements(command, tail), Text(command, SecondLine());
            && Commands(ns, JavaScript, NOTHING, parse) == Ok([Command(command, v.start, v.end)])
            && Reported(ns, JavaScript, NOTHING, NOWHERE, parse)
               == Some(ReportOf(EvalCall(ThirdLine(command)), SINK_SOURCE, "x", JavaScript, NamesOf(command),
                   NodesOf(command), parse))
  {
    hide *;
    var ns, at, v := Statements(command, tail), ThirdLine(command), Text(command, SecondLine());
    var m, t := ModuleBinding(NodeChildProcess), TextBinding(command, v.start, v.end);
    var d, e := LoadDeclarator(), TextDeclarator(command);
    PlainNames();
    StatementsStep(command, tail);
    LineForms(command, SecondLine());
    DeclaratorForms(command);
    NameForms(command);
    TableRoom(m);
    LetsUnwrap(command);
    LoadsChildProcess(d);
    CallIsNoComment(Loader());
    DeclaratorRecords("c", Loader(), 6, m, NOTHING);
    Leads(ns, d, NOTHING, NOWHERE, "c", m, parse);
    StrFacts(command, SecondLine() + 10);
    BindsText(command, SecondLine() + 10, e);
    DeclaratorRecords("x", v, SecondLine() + 6, t, NOTHING["c" := m]);
    Leads(ns[1..], e, NOTHING["c" := m], NOWHERE["c" := d], "x", t, parse);
    EvalForm(at);
    EvaluatesSink(at);
    StatementUnwraps(EvalCall(at));
    SinkDepends(NamesOf(command), parse);
    Reports(ns[1..][1..], EvalCall(at), NamesOf(command), NodesOf(command), parse, SINK_SOURCE, "x");
  }

  lemma {:induction false} AllSignificant(ns: seq<Node>)
    requires AreStatements(ns)
    ensures Significant(ns) == ns
  {
    if ns != [] {
      assert ns == [ns[0]] + ns[1..];
      AllSignificant(ns[1..]);
    }
  }

  lemma LinesAreStatements(command: string, tail: seq<Node>)
    requires AreStatements(tail)
    ensures AreStatements(Statements(command, tail))
  {
    hide *;
    RootForm(command, tail);
    LetsUnwrap(command);
    EvalForm(ThirdLine(command));
    EvaluatesSink(ThirdLine(command));
    StatementUnwraps(EvalCall(ThirdLine(command)));
    var a, b, c := Loading(), Texting(command, SecondLine()), Evaluating(ThirdLine(command));
    StatementIsNoComment(a);
    StatementIsNoComment(b);
    StatementIsNoComment(c);
    ConsStatements(c, tail);
    ConsStatements(b, [c] + tail);
    ConsStatements(a, [b] + ([c] + tail));
  }

  lemma ConsStatements(n: Node, ns: seq<Node>)
    requires n.named && n.kind != Comment && AreStatements(ns)
    ensures AreStatements([n] + ns)
  {}

  lemma SmallIsUnhoisted(root: Node, size: nat)
    requires IsSmall(root, size) && size <= MAX_NODES
    ensures NoHoisting(root, JavaScript)
  {
    hide Below;
    forall n | n in [root] + Below(root) ensures !IsFunctionDeclaration(n) { assert IsHarmless(n.kind); }
  }

  lemma EvaluatedForm(root: Node, parse: Parser)
    requires NoHoisting(root, JavaScript)
    ensures EvaluatedCommands(root, JavaScript, parse)
            == Commands(Significant(root.children), JavaScript, NOTHING, parse)
    ensures ReportOn(root, JavaScript, parse)
            == Reported(Significant(root.children), JavaScript, NOTHING, NOWHERE, parse)
  {
    hide Commands;
    hide Reported;
    hide NoHoisting;
    hide Significant;
  }

  /** The report that the program rests on. */
  function TheReport(command: string, parse: Parser): Report {
    ReportOf(EvalCall(ThirdLine(command)), SINK_SOURCE, "x", JavaScript, NamesOf(command), NodesOf(command), parse)
  }

  /** The program is reported, whatever follows, unless that declares a function or is too large. */
  lemma ProgramReported(command: string, tail: seq<Node>, size: nat, parse: Parser)
    requires IsPlainText(command) && Utf8Length(command) <= MAX_PAYLOAD_BYTES
    requires parse(SINK_SOURCE, JavaScript) == Some(SinkTree())
    requires AreStatements(tail) && AreSmall(BelowAll(tail), size) && size + 37 <= MAX_NODES
    ensures var root, v := Root(command, tail), Text(command, SecondLine());
            && EvaluatedCommands(root, JavaScript, parse) == Ok([Command(command, v.start, v.end)])
            && ReportOn(root, JavaScript, parse) == Some(TheReport(command, parse))
  {
    hide *;
    var ns := Statements(command, tail);
    SmallRoot(command, tail, size);
    StatementsReported(command, tail, parse);
    LinesAreStatements(command, tail);
    AllSignificant(ns);
    RootForm(command, tail);
    TopForm(ns);
    SmallIsUnhoisted(Root(command, tail), size + 37);
    EvaluatedForm(Root(command, tail), parse);
    ReportForm(command, parse);
  }

  lemma ReportForm(command: string, parse: Parser)
    ensures TheReport(command, parse)
         == ReportOf(EvalCall(ThirdLine(command)), SINK_SOURCE, "x", JavaScript, NamesOf(command), NodesOf(command),
             parse)
  {
    hide ReportOf;
    hide EvalCall;
    hide ThirdLine;
    hide NamesOf;
    hide NodesOf;
  }

  // ---------------------------------------------------------------- theorems

  /** The tail `let eval = 1;`. */
  function LateTail(command: string): seq<Node> { [LateLet(FourthLine(command))] }

  lemma SmallLateTail(command: string)
    ensures AreSmall(BelowAll(LateTail(command)), 7) && AreStatements(LateTail(command))
    ensures LateTail(command) == [LateLet(FourthLine(command))]
  {
    var n := LateLet(FourthLine(command));
    LateTailForm(command);
    hide *;
    LineForms(command, FourthLine(command));
    NumberFacts(FourthLine(command) + 11);
    LetUnwraps("let", "eval", Leaf(ScalarLiteral, "1", FourthLine(command) + 11), FourthLine(command));
    StatementIsNoComment(n);
    SmallLateLet(FourthLine(command));
    SmallNothing();
    SmallCons(n, [], 7, 0);
    NoStatements();
    ConsStatements(n, []);
    assert [n] + [] == [n];
  }

  lemma LateTailForm(command: string)
    ensures LateTail(command) == [LateLet(FourthLine(command))]
  {
    hide LateLet;
    hide FourthLine;
  }

  lemma NoStatements()
    ensures AreStatements([])
  {}

  lemma {:induction false} LexicalMember(ns: seq<Node>, n: Node, h: Host)
    requires n in ns
    ensures Lexical(n, h) <= LexicalAll(ns, h)
  {
    if ns[0] != n { LexicalMember(ns[1..], n, h); }
  }

  lemma LexicalTriple(s: Node, d: Node, t: Node, h: Host)
    requires s.kind != VariableDeclarator && d.kind == VariableDeclarator && t.kind != VariableDeclarator
    ensures Declarators([s, d, t], h) == NameOf(d, h)
  {
    hide NameOf;
    assert [s, d, t][1..] == [d, t] && [d, t][1..] == [t] && [t][1..] == [];
    assert Declarators([t], h) == {};
    assert Declarators([d, t], h) == NameOf(d, h);
  }

  lemma LexicalOf(n: Node, h: Host)
    requires n.kind == LexicalDeclaration
    ensures Lexical(n, h) == Declarators(n.children, h)
  {
    hide Declarators;
  }

  lemma NameOfDeclarator(d: Node, name: Node, x: string, h: Host)
    requires d.kind == VariableDeclarator && d.Get(NameField) == Some(name) && name.kind == Identifier && name.text == x
    ensures NameOf(d, h) == {h.canon(x)}
  {
    hide Node.Get;
  }

  lemma DeclaratorName(x: string, value: Node, at: nat)
    ensures var d := Declarator(x, value, at); d.kind == VariableDeclarator && d.Get(NameField) == Some(Name(x, at))
  {
    hide Utf8Length;
  }

  lemma TokenDeclaresNothing(text: string, at: nat)
    ensures Token(text, at).kind != VariableDeclarator
  {}

  /** A declaration of one name. */
  lemma DeclaresOne(n: Node, s: Node, d: Node, t: Node, name: Node, x: string, h: Host)
    requires n.kind == LexicalDeclaration && n.children == [s, d, t]
    requires s.kind != VariableDeclarator && d.kind == VariableDeclarator && t.kind != VariableDeclarator
    requires d.Get(NameField) == Some(name) && name.kind == Identifier && name.text == x
    ensures Lexical(n, h) == {h.canon(x)} && n.kind != ImportStatement
  {
    hide *;
    NameOfDeclarator(d, name, x, h);
    LexicalOf(n, h);
    LexicalTriple(s, d, t, h);
    DeclarationIsNoImport(n);
  }

  lemma LetParts(keyword: string, x: string, value: Node, at: nat) returns (s: Node, d: Node, t: Node)
    requires value.named && value.kind != Comment
    ensures d == Declarator(x, value, at + Utf8Length(keyword) + 1)
    ensures Let(keyword, x, value, at).kind == LexicalDeclaration && Let(keyword, x, value, at).children == [s, d, t]
    ensures s.kind != VariableDeclarator && t.kind != VariableDeclarator
  {
    hide *;
    var start := at + Utf8Length(keyword) + 1;
    d := Declarator(x, value, start);
    s, t := Token(keyword, at), Token(";", d.end);
    LetForm(keyword, x, value, at);
    BindingShape(JavaScript, x, value, start);
    DeclarationShape(LexicalDeclaration, keyword, d, at);
    TokenDeclaresNothing(keyword, at);
    TokenDeclaresNothing(";", d.end);
  }

  lemma LetDeclares(keyword: string, x: string, value: Node, at: nat, h: Host)
    requires value.named && value.kind != Comment
    ensures Lexical(Let(keyword, x, value, at), h) == {h.canon(x)} && Let(keyword, x, value, at).kind != ImportStatement
  {
    hide *;
    var start := at + Utf8Length(keyword) + 1;
    var s, d, t := LetParts(keyword, x, value, at);
    DeclaratorName(x, value, start);
    NameText(x, start);
    DeclaresOne(Let(keyword, x, value, at), s, d, t, Name(x, start), x, h);
  }

  lemma DeclarationIsNoImport(n: Node)
    ensures n.kind == LexicalDeclaration || n.kind == ExpressionStatement ==> n.kind != ImportStatement
  {}

  lemma StatementDeclares(n: Node, h: Host)
    requires n.kind == ExpressionStatement
    ensures Lexical(n, h) == {}
  {}

  lemma {:induction false} LexicalOnly(ns: seq<Node>, x: string, h: Host)
    requires forall n :: n in ns ==> x !in Lexical(n, h) && n.kind != ImportStatement
    ensures x !in LexicalAll(ns, h) && x !in Imported(ns, h)
  {
    hide Lexical;
    if ns != [] { LexicalOnly(ns[1..], x, h); }
  }

  /** What the lines declare. */
  lemma LetsDeclare(command: string, h: Host)
    requires Honest(h)
    ensures Lexical(Loading(), h) == {"c"} && Loading().kind != ImportStatement
    ensures Lexical(Texting(command, SecondLine()), h) == {"x"}
            && Texting(command, SecondLine()).kind != ImportStatement
  {
    hide *;
    LineForms(command, SecondLine());
    LoadsChildProcess(Name("c", 0));
    CallIsNoComment(Loader());
    StrFacts(command, SecondLine() + 10);
    PlainNames();
    PlainIsItself("c", h);
    PlainIsItself("x", h);
    LetDeclares("const", "c", Loader(), 0, h);
    LetDeclares("const", "x", Text(command, SecondLine()), SecondLine(), h);
  }

  lemma EvaluatingDeclares(at: nat, h: Host)
    ensures Lexical(Evaluating(at), h) == {} && Evaluating(at).kind != ImportStatement
  {
    hide *;
    EvalForm(at);
    EvaluatesSink(at);
    StatementUnwraps(EvalCall(at));
    StatementDeclares(Evaluating(at), h);
    DeclarationIsNoImport(Evaluating(at));
  }

  lemma LateLetIsLexical(at: nat, h: Host)
    requires Honest(h)
    ensures Lexical(LateLet(at), h) == {"eval"} && LateLet(at).kind != ImportStatement
  {
    hide *;
    LineForms([], at);
    NumberFacts(at + 11);
    BuiltinNames(h);
    LetDeclares("let", "eval", Leaf(ScalarLiteral, "1", at + 11), at, h);
  }

  lemma OnLines(command: string, tail: seq<Node>)
    ensures forall n :: n in Statements(command, tail) ==>
              n == Loading() || n == Texting(command, SecondLine()) || n == Evaluating(ThirdLine(command)) || n in tail
    ensures forall n :: n in tail ==> n in Statements(command, tail)
    ensures Root(command, tail).children == Statements(command, tail)
  {
    RootForm(command, tail);
    hide Loading;
    hide Texting;
    hide Evaluating;
    hide SecondLine;
    hide ThirdLine;
    hide Statements;
  }

  lemma LateLetDeclares(command: string, h: Host)
    requires Honest(h)
    ensures var root := Root(command, LateTail(command));
            && "eval" in LexicalAll(root.children, h) && Declares(root, "eval", h)
            && "require" !in LexicalAll(root.children, h) && "require" !in Imported(root.children, h)
  {
    hide *;
    var tail := LateTail(command);
    var ns := Statements(command, tail);
    SmallLateTail(command);
    OnLines(command, tail);
    LetsDeclare(command, h);
    EvaluatingDeclares(ThirdLine(command), h);
    LateLetIsLexical(FourthLine(command), h);
    Distinct();
    LexicalMember(ns, LateLet(FourthLine(command)), h);
    LexicalOnly(ns, "require", h);
    DeclaresLexical(Root(command, tail), "eval", h);
  }

  lemma Distinct()
    ensures "require" !in {"c"} && "require" !in {"x"} && "require" !in {"eval"} && "eval" !in {"c"} && "eval" !in {"x"}
  {}

  lemma DeclaresLexical(root: Node, x: string, h: Host)
    ensures Declares(root, x, h) <==>
              x in LexicalAll(root.children, h) || x in Imported(root.children, h) || x in h.vars(root)
  {
    hide LexicalAll;
    hide Imported;
  }

  lemma EndOfStatements(command: string, tail: seq<Node>)
    ensures EndOf(Statements(command, tail))
            == if tail == [] then Evaluating(ThirdLine(command)).end else tail[|tail| - 1].end
  {
    RootForm(command, tail);
    hide Loading;
    hide Texting;
    hide Evaluating;
    hide SecondLine;
    hide ThirdLine;
    hide Statements;
  }

  lemma NothingPlaced(lo: nat)
    ensures WellFormedAll([], lo, lo)
  {}

  /** The two trees have the ranges of their source. */
  lemma ProgramIsWellFormed(command: string)
    ensures WellFormed(Root(command, [])) && WellFormed(Root(command, LateTail(command)))
  {
    hide *;
    var n, end := LateLet(FourthLine(command)), Evaluating(ThirdLine(command)).end;
    LateTailForm(command);
    LinesAt(command);
    LateLetWellFormed(FourthLine(command));
    TailPlaced(n, end);
    NothingPlaced(end);
    RootIsPlaced(command, [n], n.end);
    RootIsPlaced(command, [], end);
    EndOfStatements(command, [n]);
    EndOfStatements(command, []);
    RootForm(command, [n]);
    RootForm(command, []);
    TopWellFormed(JavaScript, Statements(command, [n]));
    TopWellFormed(JavaScript, Statements(command, []));
  }

  lemma TailFits(size: nat)
    requires size <= 7
    ensures size + 37 <= MAX_NODES
  {}

  /** A declaration of `eval` after the call that the analysis reports makes that call raise: the
      report holds for what the statements would do, not for this program. */
  lemma LateDeclarationIsMissed(command: string, h: Host)
    requires IsPlainText(command) && Utf8Length(command) <= MAX_PAYLOAD_BYTES
    requires Honest(h) && h.parse(SINK_SOURCE, JavaScript) == Some(SinkTree())
    ensures var root, v := Root(command, LateTail(command)), Text(command, SecondLine());
            && WellFormed(root)
            && EvaluatedCommands(root, JavaScript, h.parse) == Ok([Command(command, v.start, v.end)])
            && !RunProgram(root, JavaScript, h).Shell?
            && (!h.rejects(root) && "require" !in h.vars(root) ==> RunProgram(root, JavaScript, h) == Raised)
  {
    var root, q := Root(command, LateTail(command)), TheReport(command, h.parse);
    hide *;
    SmallLateTail(command);
    LateLetDeclares(command, h);
    TailFits(7);
    ProgramIsWellFormed(command);
    ProgramReported(command, LateTail(command), 7, h.parse);
    ReportedCommandRuns(root, JavaScript, h);
    ScriptIsRead(q.source);
    DeclaredIsNotReached(q, root, h);
    LandsCases(RunProgram(root, JavaScript, h), Reaches(q, root, JavaScript, h), q, JavaScript, h);
    StuckIsNoShell(RunProgram(root, JavaScript, h));
    LateCases(root, h);
  }

  lemma DeclaredIsNotReached(q: Report, root: Node, h: Host)
    requires Declares(root, "eval", h)
    ensures !Reaches(q, root, JavaScript, h)
  {
    hide Declares;
    hide Arrives;
  }

  lemma LateCases(root: Node, h: Host)
    requires "eval" in LexicalAll(root.children, h) && "require" !in LexicalAll(root.children, h)
             && "require" !in Imported(root.children, h)
    ensures !h.rejects(root) && "require" !in h.vars(root) ==> DeclaresEvalLate(root, h)
  {
    hide LexicalAll;
    hide Imported;
  }

  lemma BareDeclares(command: string, h: Host)
    requires Honest(h)
    ensures var root := Root(command, []);
            forall x :: x in ["eval", "require"] ==>
                x !in LexicalAll(root.children, h) && x !in Imported(root.children, h)
  {
    hide *;
    OnLines(command, []);
    LetsDeclare(command, h);
    EvaluatingDeclares(ThirdLine(command), h);
    Distinct();
    LexicalOnly(Statements(command, []), "eval", h);
    LexicalOnly(Statements(command, []), "require", h);
  }

  /** Nothing is in the way of this host, for this command. */
  ghost predicate Lets(h: Host, root: Node, command: string) {
    && !h.rejects(root) && "eval" !in h.vars(root) && "require" !in h.vars(root)
    && !h.refuses("eval", SINK_SOURCE) && "c" !in h.fixed && "x" !in h.fixed && h.offers("child_process", "exec")
    && command != [] && '\0' !in command && h.encodes(command)
  }

  lemma ReportFields(command: string, parse: Parser)
    requires parse(SINK_SOURCE, JavaScript) == Some(SinkTree())
    ensures var q := TheReport(command, parse);
            && q.evaluator == "eval" && q.code == SINK_SOURCE && q.receiver == Some("c") && q.library == "child_process"
            && q.sink == "exec" && q.arg == "x" && q.statement == TextDeclarator(command)
  {
    hide *;
    ReportForm(command, parse);
    NameForms(command);
    SinkDepends(NamesOf(command), parse);
    SinkIsCall(NamesOf(command));
    EvaluatesSink(ThirdLine(command));
    ReportCases(EvalCall(ThirdLine(command)), SINK_SOURCE, "x", JavaScript, NamesOf(command), NodesOf(command), parse);
  }

  lemma BareValue(command: string, h: Host, q: Report)
    requires Honest(h) && IsPlainText(command) && q.statement == TextDeclarator(command)
    ensures HandedValue(q, JavaScript, h) == TextV(command) && IsRead(q, JavaScript)
  {
    hide *;
    var d, v := TextDeclarator(command), Text(command, SecondLine());
    DeclaratorForms(command);
    LineForms(command, SecondLine());
    StrFacts(command, SecondLine() + 10);
    LetForm("const", "x", v, SecondLine());
    ConstWidth();
    BindingShape(JavaScript, "x", v, SecondLine() + 6);
    RightSideIs(d);
    StrValue(command, SecondLine() + 10, Some(d));
    StaticIsValue(v, Some(d), JavaScript, 0, h);
    ScriptIsRead(v);
    ScriptLiteral(v, d, h);
    CarriedCases(q, JavaScript, h);
    ReadCases(q);
  }

  lemma RightSideIs(d: Node)
    ensures RightSide(d) == d.GetEither(RightField, ValueField)
  {}

  lemma ScriptLiteral(n: Node, parent: Node, h: Host)
    ensures LiteralValue(n, parent, JavaScript, h) == TextV(StringValue(n, Some(parent), JavaScript, h))
  {
    hide StringValue;
  }

  lemma ReadCases(q: Report)
    ensures IsRead(q, JavaScript) <==>
              RightSide(q.statement).Some? && NodeMisreadings(RightSide(q.statement).value, JavaScript) == 0
  {
    hide NodeMisreadings;
  }

  lemma LetsCases(h: Host, root: Node, command: string)
    requires Lets(h, root, command)
    ensures !h.rejects(root) && "eval" !in h.vars(root) && "require" !in h.vars(root) && !h.refuses("eval", SINK_SOURCE)
    ensures "c" !in h.fixed && "x" !in h.fixed && h.offers("child_process", "exec")
    ensures Takes(JavaScript, "exec", TextV(command), h)
  {}

  lemma ReachesCases(q: Report, root: Node, h: Host)
    ensures Reaches(q, root, JavaScript, h) <==>
              !h.rejects(root) && !Declares(root, "eval", h) && !Declares(root, "require", h)
                && Arrives(q, JavaScript, h)
  {
    hide Declares;
    hide Arrives;
  }

  lemma BareIsFree(command: string, h: Host)
    requires Honest(h) && Lets(h, Root(command, []), command)
    ensures !Declares(Root(command, []), "eval", h) && !Declares(Root(command, []), "require", h)
  {
    hide *;
    var root := Root(command, []);
    LetsCases(h, root, command);
    BareDeclares(command, h);
    assert "eval" in ["eval", "require"] && "require" in ["eval", "require"];
    DeclaresLexical(root, "eval", h);
    DeclaresLexical(root, "require", h);
  }

  lemma BareReaches(command: string, h: Host, q: Report)
    requires Honest(h) && IsPlainText(command) && Lets(h, Root(command, []), command)
    requires q.evaluator == "eval" && q.code == SINK_SOURCE && q.receiver == Some("c") && q.library == "child_process"
    requires q.sink == "exec" && q.arg == "x" && q.statement == TextDeclarator(command)
    ensures Reaches(q, Root(command, []), JavaScript, h) && HandedValue(q, JavaScript, h) == TextV(command)
  {
    hide *;
    LetsCases(h, Root(command, []), command);
    BareIsFree(command, h);
    BareValue(command, h, q);
    CarriedCases(q, JavaScript, h);
    ArrivesCases(q, JavaScript, h);
    ReachesCases(q, Root(command, []), h);
  }

  /** Without the tail the reported command is what the program hands to a shell. */
  lemma ReportedCommandIsRun(command: string, h: Host)
    requires IsPlainText(command) && Utf8Length(command) <= MAX_PAYLOAD_BYTES
    requires Honest(h) && h.parse(SINK_SOURCE, JavaScript) == Some(SinkTree()) && Lets(h, Root(command, []), command)
    ensures var root, v := Root(command, []), Text(command, SecondLine());
            && WellFormed(root) && WellFormed(SinkTree())
            && EvaluatedCommands(root, JavaScript, h.parse) == Ok([Command(command, v.start, v.end)])
            && RunProgram(root, JavaScript, h) == Shell(command)
  {
    var root, q := Root(command, []), TheReport(command, h.parse);
    hide *;
    SmallNothing();
    NoStatements();
    TailFits(0);
    ProgramIsWellFormed(command);
    SinkTreeWellFormed();
    ProgramReported(command, [], 0, h.parse);
    ReportFields(command, h.parse);
    BareReaches(command, h, q);
    BareValue(command, h, q);
    ReportedCommandRuns(root, JavaScript, h);
    ScriptIsRead(q.source);
  }
}

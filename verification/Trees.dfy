/** Small programs in the shape that the parsers give them: every token is a node, strings have their
    parts, and every node has its text and byte range. */
module Trees {
  import opened LiteralBindings
  import opened Syntax
  import opened Worklist
  import opened Wrappers

  // --------------------------------------------------------------- building

  /** A keyword or punctuation. */
  function Token(text: string, at: nat): Node {
    Node(OtherKind(text), text, at, at + Utf8Length(text), false, [], map[])
  }

  function Leaf(kind: Kind, text: string, at: nat): Node {
    Node(kind, text, at, at + Utf8Length(text), true, [], map[])
  }

  function Name(text: string, at: nat): Node { Leaf(Identifier, text, at) }

  function Quoted(s: string): string { "'" + (s + "'") }

  /** A string of plain text in single quotes. */
  function Str(s: string, at: nat): Node {
    var end := at + 1 + Utf8Length(s);
    Node(StringLiteral, Quoted(s), at, end + 1, true,
         [Token("'", at), Leaf(OtherKind("string_content"), s, at + 1), Token("'", end)], map[])
  }

  function List(kind: Kind, arg: Node, at: nat): Node {
    Node(kind, "(" + arg.text + ")", at, arg.end + 1, true, [Token("(", at), arg, Token(")", arg.end)], map[])
  }

  /** `f(arg)`, for an argument that stands after `f` and a parenthesis. */
  function CallOf(lang: Language, f: Node, arg: Node): Node {
    var arguments := List(if lang == Python then ArgumentList else Arguments, arg, f.end);
    Node(if lang == Python then Call else CallExpression, f.text + arguments.text, f.start, arguments.end, true,
         [f, arguments], map[FunctionField := 0, ArgumentsField := 1])
  }

  /** `o.p` in JavaScript. */
  function Member(o: string, p: string, at: nat): Node {
    var target := Name(o, at);
    var member := Leaf(PropertyIdentifier, p, target.end + 1);
    Node(MemberExpression, o + "." + p, at, member.end, true,
         [target, Token(".", target.end), member], map[ObjectField := 0, PropertyField := 2])
  }

  /** Where the value of `x = ...` stands if that stands at `at`. */
  function ValueAt(x: string, at: nat): nat { at + Utf8Length(x) + 3 }

  /** `x = value`, for a value that stands there. */
  function Assigning(lang: Language, x: string, value: Node, at: nat): Node {
    var name := Name(x, at);
    Node(if lang == Python then Assignment else VariableDeclarator, x + " = " + value.text, at, value.end, true,
         [name, Token("=", name.end + 1), value],
         if lang == Python then map[LeftField := 0, RightField := 2] else map[NameField := 0, ValueField := 2])
  }

  /** A keyword, a binding and a semicolon. */
  function Declaration(kind: Kind, keyword: string, b: Node, at: nat): Node {
    Node(kind, keyword + " " + b.text + ";", at, b.end + 1, true, [Token(keyword, at), b, Token(";", b.end)], map[])
  }

  /** An expression as a statement; JavaScript ends it with a semicolon. */
  function Statement(lang: Language, n: Node): Node {
    if lang == Python then Node(ExpressionStatement, n.text, n.start, n.end, true, [n], map[])
    else Node(ExpressionStatement, n.text + ";", n.start, n.end + 1, true, [n, Token(";", n.end)], map[])
  }

  function EndOf(ns: seq<Node>): nat {
    if ns == [] then 0 else ns[|ns| - 1].end
  }

  function Top(lang: Language, statements: seq<Node>): Node {
    Node(if lang == Python then Module else Program, "", 0, EndOf(statements), true, statements, map[])
  }

  // ------------------------------------------------------ significant children

  lemma Alone(n: Node)
    requires n.named && n.kind != Comment
    ensures Significant([n]) == [n] && Named([n]) == [n]
  {
    assert [n][1..] == [];
  }

  lemma NoChildren()
    ensures Significant([]) == [] && Named([]) == []
  {}

  lemma Skip(t: Node, ns: seq<Node>)
    requires !t.named
    ensures Significant([t] + ns) == Significant(ns) && Named([t] + ns) == Named(ns)
  {
    assert ([t] + ns)[1..] == ns;
  }

  lemma Keep(n: Node, ns: seq<Node>)
    requires n.named && n.kind != Comment
    ensures Significant([n] + ns) == [n] + Significant(ns) && Named([n] + ns) == [n] + Named(ns)
  {
    assert ([n] + ns)[1..] == ns;
  }

  /** One node between two tokens. */
  lemma Between(s: Node, n: Node, t: Node)
    requires !s.named && n.named && n.kind != Comment && !t.named
    ensures Significant([s, n, t]) == [n] && Named([s, n, t]) == [n]
  {
    hide *;
    NoChildren();
    Skip(s, [n, t]);
    Keep(n, [t]);
    Skip(t, []);
    assert [s, n, t] == [s] + [n, t] && [n, t] == [n] + [t] && [t] == [t] + [];
  }

  /** Two nodes with a token between them. */
  lemma Around(a: Node, t: Node, b: Node)
    requires a.named && a.kind != Comment && !t.named && b.named && b.kind != Comment
    ensures Significant([a, t, b]) == [a, b] && Named([a, t, b]) == [a, b]
  {
    hide *;
    Keep(a, [t, b]);
    Skip(t, [b]);
    Alone(b);
    assert [a, t, b] == [a] + [t, b] && [t, b] == [t] + [b];
  }

  lemma Ended(n: Node, t: Node)
    requires n.named && n.kind != Comment && !t.named
    ensures Significant([n, t]) == [n]
  {
    hide *;
    NoChildren();
    Keep(n, [t]);
    Skip(t, []);
    assert [n, t] == [n] + [t] && [t] == [t] + [];
  }

  // ------------------------------------------------------------------ shapes

  lemma CallShape(lang: Language, f: Node, arg: Node) returns (a: Node)
    requires arg.named && arg.kind != Comment
    ensures var n := CallOf(lang, f, arg);
            && n.kind == (if lang == Python then Call else CallExpression) && n.named && n.IsCall()
               && n.children == [f, a]
            && n.Get(FunctionField) == Some(f) && n.Get(ArgumentsField) == Some(a)
    ensures a.kind == (if lang == Python then ArgumentList else Arguments) && a.named
    ensures a.children == [Token("(", f.end), arg, Token(")", arg.end)] && Significant(a.children) == [arg]
  {
    a := CallOf(lang, f, arg).children[1];
    Between(Token("(", f.end), arg, Token(")", arg.end));
    hide Significant;
  }

  lemma BindingShape(lang: Language, x: string, value: Node, at: nat)
    requires value.named && value.kind != Comment
    ensures var n := Assigning(lang, x, value, at);
            && n.kind == (if lang == Python then Assignment else VariableDeclarator) && n.named
            && n.GetEither(LeftField, NameField) == Some(Name(x, at))
               && n.GetEither(RightField, ValueField) == Some(value)
            && n.children == [Name(x, at), Token("=", Name(x, at).end + 1), value]
            && Significant(n.children) == [Name(x, at), value] && Named(n.children) == [Name(x, at), value]
  {
    hide *;
    BindingFields(lang, x, value, at);
    Around(Name(x, at), Token("=", Name(x, at).end + 1), value);
  }

  lemma BindingFields(lang: Language, x: string, value: Node, at: nat)
    ensures var n, name, t := Assigning(lang, x, value, at), Name(x, at), Token("=", Name(x, at).end + 1);
            && n.kind == (if lang == Python then Assignment else VariableDeclarator) && n.named
            && n.GetEither(LeftField, NameField) == Some(name) && n.GetEither(RightField, ValueField) == Some(value)
            && n.children == [name, t, value] && name.named && name.kind == Identifier && !t.named
  {
    hide Significant;
    hide Named;
    hide Utf8Length;
    var n, name := Assigning(lang, x, value, at), Name(x, at);
    if lang == Python {
      assert n.Get(LeftField) == Some(name) && n.Get(RightField) == Some(value);
    } else {
      assert n.Get(LeftField) == None && n.Get(RightField) == None;
      assert n.Get(NameField) == Some(name) && n.Get(ValueField) == Some(value);
    }
  }

  lemma DeclarationShape(kind: Kind, keyword: string, b: Node, at: nat)
    requires b.named && b.kind != Comment
    ensures var n := Declaration(kind, keyword, b, at);
            && n.kind == kind && n.named && n.children == [Token(keyword, at), b, Token(";", b.end)]
            && Significant(n.children) == [b]
  {
    Between(Token(keyword, at), b, Token(";", b.end));
    hide Significant;
  }

  lemma StatementShape(lang: Language, n: Node)
    requires n.named && n.kind != Comment
    ensures var s := Statement(lang, n);
            && s.kind == ExpressionStatement && s.named && Significant(s.children) == [n]
            && s.children == if lang == Python then [n] else [n, Token(";", n.end)]
  {
    if lang == Python { Alone(n); } else { Ended(n, Token(";", n.end)); }
    hide Significant;
  }

  lemma MemberShape(o: string, p: string, at: nat)
    ensures var n, a, b := Member(o, p, at), Name(o, at), Leaf(PropertyIdentifier, p, Name(o, at).end + 1);
            && n.kind == MemberExpression && n.Get(ObjectField) == Some(a)
               && n.GetEither(AttributeField, PropertyField) == Some(b)
            && a.kind == Identifier && a.text == o && b.kind == PropertyIdentifier && b.text == p
  {
    hide Utf8Length;
    var n := Member(o, p, at);
    assert n.Get(AttributeField) == None
      && n.Get(PropertyField) == Some(Leaf(PropertyIdentifier, p, Name(o, at).end + 1));
  }

  // ------------------------------------------------------------------ ranges

  lemma LeafWellFormed(kind: Kind, text: string, at: nat)
    requires !IsStringKind(kind)
    ensures WellFormed(Leaf(kind, text, at))
  {}

  lemma TokenWellFormed(text: string, at: nat)
    ensures WellFormed(Token(text, at))
  {}

  lemma InSequence(a: Node, b: Node, c: Node, lo: nat, hi: nat)
    requires WellFormed(a) && WellFormed(b) && WellFormed(c)
    requires lo <= a.start && a.end <= b.start && b.end <= c.start && c.end <= hi
    ensures WellFormedAll([a, b, c], lo, hi)
  {
    Ranges(a);
    Ranges(b);
    Ranges(c);
    hide WellFormed;
    assert [a, b, c][1..] == [b, c] && [b, c][1..] == [c] && [c][1..] == [];
    assert WellFormedAll([c], b.end, hi);
    assert WellFormedAll([b, c], a.end, hi);
  }

  lemma Ranges(n: Node)
    requires WellFormed(n)
    ensures n.start <= n.end
  {}

  lemma Ascii()
    ensures Utf8Length("'") == 1 && Utf8Length("(") == 1 && Utf8Length(")") == 1 && Utf8Length("=") == 1
            && Utf8Length(";") == 1 && Utf8Length(".") == 1
  {}

  lemma StrWellFormed(s: string, at: nat)
    ensures WellFormed(Str(s, at))
  {
    hide WellFormed;
    hide WellFormedAll;
    StrParts(s, at);
    TokenWellFormed("'", at);
    TokenWellFormed("'", at + 1 + Utf8Length(s));
    LeafWellFormed(OtherKind("string_content"), s, at + 1);
    hide Str;
    hide Token;
    hide Leaf;
    hide Utf8Length;
    var n := Str(s, at);
    InSequence(n.children[0], n.children[1], n.children[2], n.start, n.end);
    Nested(n);
  }

  lemma Nested(n: Node)
    requires n.start <= n.end && (n.IsString() ==> n.named && n.start < n.end)
             && WellFormedAll(n.children, n.start, n.end)
    ensures WellFormed(n)
  {
    hide WellFormedAll;
  }

  lemma StrParts(s: string, at: nat)
    ensures var n, a, b, c := Str(s, at), Token("'", at), Leaf(OtherKind("string_content"), s, at + 1),
              Token("'", at + 1 + Utf8Length(s));
            && n.children == [a, b, c] && n.named && n.kind == StringLiteral && n.text == Quoted(s)
            && n.start == at && n.end == at + Utf8Length(s) + 2
            && a.start == at && a.end == at + 1 == b.start && b.end == c.start == at + 1 + Utf8Length(s)
               && c.end == n.end
  {
    Ascii();
    hide Utf8Length;
  }

  lemma NameWellFormed(x: string, at: nat)
    ensures WellFormed(Name(x, at)) && Name(x, at).start == at && Name(x, at).end == at + Utf8Length(x)
  {
    LeafWellFormed(Identifier, x, at);
  }

  lemma TripleWellFormed(n: Node, a: Node, b: Node, c: Node)
    requires n.children == [a, b, c] && !n.IsString() && WellFormed(a) && WellFormed(b) && WellFormed(c)
    requires n.start <= a.start && a.end <= b.start && b.end <= c.start && c.end <= n.end
    ensures WellFormed(n)
  {
    InSequence(a, b, c, n.start, n.end);
    Ranges(a);
    Ranges(b);
    Ranges(c);
    hide WellFormedAll;
    Nested(n);
  }

  lemma PairWellFormed(n: Node, a: Node, b: Node)
    requires n.children == [a, b] && !n.IsString() && WellFormed(a) && WellFormed(b)
    requires n.start <= a.start && a.end <= b.start && b.end <= n.end
    ensures WellFormed(n)
  {
    PairInSequence(a, b, n.start, n.end);
    Ranges(a);
    Ranges(b);
    hide WellFormedAll;
    Nested(n);
  }

  predicate IsStringKind(k: Kind) { k == StringLiteral || k == TemplateString || k == ConcatenatedString }

  lemma ListForm(kind: Kind, arg: Node, at: nat)
    requires !IsStringKind(kind)
    ensures var n, a, b := List(kind, arg, at), Token("(", at), Token(")", arg.end);
            && n.children == [a, arg, b] && !n.IsString() && n.start == at && n.end == arg.end + 1
            && a.start == at && a.end == at + 1 && b.start == arg.end && b.end == arg.end + 1
  {
    Ascii();
    hide Utf8Length;
  }

  lemma ListWellFormed(kind: Kind, arg: Node, at: nat)
    requires WellFormed(arg) && arg.start == at + 1 && !IsStringKind(kind)
    ensures var n := List(kind, arg, at); WellFormed(n) && n.start == at && n.end == arg.end + 1
  {
    hide *;
    ListForm(kind, arg, at);
    Ranges(arg);
    TokenWellFormed("(", at);
    TokenWellFormed(")", arg.end);
    TripleWellFormed(List(kind, arg, at), Token("(", at), arg, Token(")", arg.end));
  }

  lemma PairInSequence(a: Node, b: Node, lo: nat, hi: nat)
    requires WellFormed(a) && WellFormed(b) && lo <= a.start && a.end <= b.start && b.end <= hi
    ensures WellFormedAll([a, b], lo, hi)
  {
    Ranges(a);
    Ranges(b);
    hide WellFormed;
    assert [a, b][1..] == [b] && [b][1..] == [];
    assert WellFormedAll([b], a.end, hi);
  }

  lemma CallForm(lang: Language, f: Node, arg: Node)
    ensures var kind := if lang == Python then ArgumentList else Arguments;
            var n, a := CallOf(lang, f, arg), List(kind, arg, f.end);
            !IsStringKind(kind) && n.children == [f, a] && !n.IsString() && n.start == f.start && n.end == a.end
  {
    hide Utf8Length;
  }

  lemma CallWellFormed(lang: Language, f: Node, arg: Node)
    requires WellFormed(f) && WellFormed(arg) && arg.start == f.end + 1
    ensures var n := CallOf(lang, f, arg); WellFormed(n) && n.start == f.start && n.end == arg.end + 1
  {
    hide *;
    var kind := if lang == Python then ArgumentList else Arguments;
    CallForm(lang, f, arg);
    ListWellFormed(kind, arg, f.end);
    Ranges(f);
    Ranges(arg);
    PairWellFormed(CallOf(lang, f, arg), f, List(kind, arg, f.end));
  }

  lemma MemberForm(o: string, p: string, at: nat)
    ensures var n, a := Member(o, p, at), Name(o, at);
            var t, b := Token(".", a.end), Leaf(PropertyIdentifier, p, a.end + 1);
            && n.children == [a, t, b] && !n.IsString() && n.start == at && n.end == b.end
            && a.start == at && a.end == at + Utf8Length(o) && t.start == a.end && t.end == a.end + 1
            && b.start == a.end + 1 && b.end == at + Utf8Length(o) + 1 + Utf8Length(p)
    ensures !IsStringKind(PropertyIdentifier)
  {
    Ascii();
    hide Utf8Length;
  }

  lemma MemberWellFormed(o: string, p: string, at: nat)
    ensures var n := Member(o, p, at); WellFormed(n) && n.start == at && n.end == at + Utf8Length(o) + 1 + Utf8Length(p)
  {
    hide *;
    var target := Name(o, at);
    MemberForm(o, p, at);
    NameWellFormed(o, at);
    TokenWellFormed(".", target.end);
    LeafWellFormed(PropertyIdentifier, p, target.end + 1);
    TripleWellFormed(Member(o, p, at), target, Token(".", target.end), Leaf(PropertyIdentifier, p, target.end + 1));
  }

  lemma BindingWellFormed(lang: Language, x: string, value: Node, at: nat)
    requires WellFormed(value) && value.start == ValueAt(x, at)
    ensures var n := Assigning(lang, x, value, at); WellFormed(n) && n.start == at && n.end == value.end
  {
    Ascii();
    Ranges(value);
    NameWellFormed(x, at);
    TokenWellFormed("=", Name(x, at).end + 1);
    hide WellFormed;
    hide WellFormedAll;
    hide Utf8Length;
    var n := Assigning(lang, x, value, at);
    InSequence(n.children[0], n.children[1], n.children[2], n.start, n.end);
    Nested(n);
  }

  lemma DeclarationWellFormed(kind: Kind, keyword: string, b: Node, at: nat)
    requires WellFormed(b) && b.start == at + Utf8Length(keyword) + 1
    requires !IsStringKind(kind)
    ensures var n := Declaration(kind, keyword, b, at); WellFormed(n) && n.start == at && n.end == b.end + 1
  {
    Ascii();
    Ranges(b);
    TokenWellFormed(keyword, at);
    TokenWellFormed(";", b.end);
    hide WellFormed;
    hide WellFormedAll;
    hide Utf8Length;
    var n := Declaration(kind, keyword, b, at);
    InSequence(n.children[0], n.children[1], n.children[2], n.start, n.end);
    Nested(n);
  }

  lemma StatementForm(n: Node)
    ensures var s := Statement(JavaScript, n); s.start == n.start && s.end == n.end + 1 && !s.IsString()
    ensures Token(";", n.end).start == n.end && Token(";", n.end).end == n.end + 1
  {
    Ascii();
    hide Utf8Length;
  }

  lemma StatementWellFormed(n: Node)
    requires WellFormed(n) && n.named && n.kind != Comment
    ensures var s := Statement(JavaScript, n); WellFormed(s) && s.start == n.start && s.end == n.end + 1
  {
    hide *;
    StatementForm(n);
    StatementShape(JavaScript, n);
    TokenWellFormed(";", n.end);
    Ranges(n);
    PairWellFormed(Statement(JavaScript, n), n, Token(";", n.end));
  }

  /** Statements that follow one another make a program. */
  lemma TopWellFormed(lang: Language, statements: seq<Node>)
    requires WellFormedAll(statements, 0, EndOf(statements))
    ensures WellFormed(Top(lang, statements))
  {
    hide WellFormedAll;
    Nested(Top(lang, statements));
  }
}

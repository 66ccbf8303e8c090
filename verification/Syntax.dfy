/** Syntax trees of embedded Python and JavaScript, as the analyses of src/ast_matcher.rs see
    them: a kind, the source text and byte range, ordered children, and children reachable by
    a field name. Parsing itself is not part of this model. */
module Syntax {
  import opened Wrappers

  datatype Language = Python | JavaScript

  datatype Kind =
    | Module | Program | LexicalDeclaration | VariableDeclaration
    | ExpressionStatement | Parenthesized | Assignment | VariableDeclarator | ImportStatement
    | FunctionDeclaration | GeneratorFunctionDeclaration
    | Identifier | PropertyIdentifier
    | ScalarLiteral  // integer, float, number, true, false, none, null
    | StringLiteral | TemplateString | ConcatenatedString
    | Interpolation | FormatExpression | TemplateSubstitution | TypeConversion | FormatSpecifier
    | BinaryOperator | BinaryExpression
    | Call | CallExpression | ArgumentList | Arguments | KeywordArgument
    | Attribute | MemberExpression
    | ArrayLiteral | ListLiteral | TupleLiteral | ObjectLiteral | DictionaryLiteral | Pair
    | Comment
    | OtherKind(name: string)

  datatype Field =
    | LeftField | RightField | NameField | ValueField | OperatorField
    | FunctionField | ArgumentsField | ObjectField | AttributeField | PropertyField | ExpressionField

  datatype Node = Node(
    kind: Kind, text: string, start: nat, end: nat, named: bool,
    children: seq<Node>, fields: map<Field, nat>)
  {
    function Get(f: Field): (r: Option<Node>)
      ensures r.Some? ==> r.value in children
    {
      if f in fields && fields[f] < |children| then Some(children[fields[f]]) else None
    }

    /** The child named `f`, which is preferred, or else the one named `g`. */
    function GetEither(f: Field, g: Field): (r: Option<Node>)
      ensures r.Some? ==> r.value in children
      ensures Get(f).Some? ==> r == Get(f)
      ensures Get(f).None? ==> r == Get(g)
    {
      if Get(f).Some? then Get(f) else Get(g)
    }

    predicate IsCall() { kind == Call || kind == CallExpression }

    predicate IsString() { kind == StringLiteral || kind == TemplateString || kind == ConcatenatedString }

    /** A part of a string whose expression is evaluated. */
    predicate IsInterpolation() { kind == Interpolation || kind == FormatExpression || kind == TemplateSubstitution }
  }

  /** Named children that are not comments. */
  function Significant(ns: seq<Node>): (r: seq<Node>)
    ensures forall n :: n in r <==> n in ns && n.named && n.kind != Comment
  {
    if ns == [] then []
    else (if ns[0].named && ns[0].kind != Comment then [ns[0]] else []) + Significant(ns[1..])
  }

  function Named(ns: seq<Node>): (r: seq<Node>)
    ensures forall n :: n in r <==> n in ns && n.named
  {
    if ns == [] then [] else (if ns[0].named then [ns[0]] else []) + Named(ns[1..])
  }

  /** Every node below `n`, parents first, in source order. */
  function Below(n: Node): seq<Node>
    decreases n, 1
  {
    BelowAll(n.children)
  }

  function BelowAll(ns: seq<Node>): seq<Node>
    decreases ns, 0
  {
    if ns == [] then [] else [ns[0]] + Below(ns[0]) + BelowAll(ns[1..])
  }

  predicate ContainsMarker(s: string) {
    '`' in s || exists i :: 0 <= i < |s| - 1 && s[i] == '$' && s[i + 1] == '('
  }

  /** Somewhere in `s` a backtick or `$(` stands, with which a shell starts a substitution. */
  predicate Substitutes(s: string) {
    exists i :: 0 <= i < |s| && ("`" <= s[i..] || "$(" <= s[i..])
  }

  lemma MarkerExact(s: string)
    ensures ContainsMarker(s) <==> Substitutes(s)
  {
    if '`' in s {
      var i :| 0 <= i < |s| && s[i] == '`';
      assert "`" <= s[i..];
    } else if i :| 0 <= i < |s| - 1 && s[i] == '$' && s[i + 1] == '(' {
      assert s[i..][1] == '(' && "$(" <= s[i..];
    }
    if i :| 0 <= i < |s| && ("`" <= s[i..] || "$(" <= s[i..]) {
      if "`" <= s[i..] {
        assert s[i] == "`"[0];
      } else {
        assert |s[i..]| >= 2 && s[i] == "$("[0] && s[i..][1] == "$("[1];
      }
    }
  }

  /** A string part of which is computed. */
  predicate Interpolated(n: Node) {
    n.IsInterpolation() || exists d :: d in Below(n) && d.IsInterpolation()
  }

  /** A template that is the argument of a call without parentheses is handed to its tag in pieces. */
  predicate Tagged(n: Node, parent: Option<Node>) {
    && n.kind == TemplateString && parent.Some? && parent.value.kind == CallExpression
    && var args := parent.value.Get(ArgumentsField);
       args.Some? && args.value.start == n.start && args.value.end == n.end
  }

  /** A name that is nothing but its spelling: ASCII, without an escape. */
  predicate IsPlainName(s: string) {
    forall k :: 0 <= k < |s| ==> s[k] as int < 128 && s[k] != '\\'
  }

  /** `canon` takes spellings to names: two spellings are one variable if it takes them to the same
      name. Python normalises identifiers and JavaScript reads escapes in them; neither changes
      a plain name. */
  ghost predicate IsNaming(canon: string -> string) {
    forall s :: IsPlainName(s) ==> canon(s) == s
  }
}

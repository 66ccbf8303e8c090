/** The soundness of the documentation proof (src/ast_matcher.rs) against the evaluator: an accepted
    program only edits text. */
module InertSoundness {
  import opened InertProof
  import opened InertRun
  import opened Seqs
  import opened Spelling
  import opened Syntax
  import opened Wrappers

  // ------------------------------------------------------------------ grammar

  predicate IsStatement(k: Kind) {
    || k == Module || k == Program || k == LexicalDeclaration || k == VariableDeclaration
    || k == ExpressionStatement || k == Assignment || k == VariableDeclarator
  }

  predicate HoldsExpressions(k: Kind) {
    || k == Parenthesized || k == ConcatenatedString || k == BinaryOperator || k == BinaryExpression
    || k == Call || k == CallExpression || k == ArgumentList || k == Arguments || k == KeywordArgument
    || k == Attribute || k == MemberExpression
    || k == Interpolation || k == FormatExpression || k == TemplateSubstitution
  }

  /** The one fact about the two grammars that is used: an expression has no statement as an
      immediate part. */
  predicate Grammatical(n: Node)
    decreases n, 1
  {
    && (HoldsExpressions(n.kind) ==> forall c :: c in n.children ==> !IsStatement(c.kind))
    && GrammaticalAll(n.children)
  }

  predicate GrammaticalAll(ns: seq<Node>)
    decreases ns, 0
  {
    ns == [] || (Grammatical(ns[0]) && GrammaticalAll(ns[1..]))
  }

  lemma {:induction false} PartsGrammatical(ns: seq<Node>)
    requires GrammaticalAll(ns)
    ensures forall c :: c in ns ==> Grammatical(c)
  {
    if ns != [] { PartsGrammatical(ns[1..]); }
  }

  lemma {:induction false} BelowGrammatical(ns: seq<Node>)
    requires GrammaticalAll(ns)
    ensures forall d :: d in BelowAll(ns) ==> Grammatical(d)
    decreases ns
  {
    if ns != [] {
      BelowGrammatical(ns[0].children);
      BelowGrammatical(ns[1..]);
    }
  }

  // ------------------------------------------------- expressions do not bind

  predicate IsExpression(n: Node) {
    !IsStatement(n.kind) && Grammatical(n)
  }

  predicate Expressions(ns: seq<Node>) {
    forall k :: 0 <= k < |ns| ==> IsExpression(ns[k])
  }

  lemma HeldExpressions(n: Node)
    requires Grammatical(n) && HoldsExpressions(n.kind)
    ensures Expressions(n.children) && Expressions(Significant(n.children))
  {
    PartsGrammatical(n.children);
    assert forall k :: 0 <= k < |n.children| ==> n.children[k] in n.children;
    assert forall k :: 0 <= k < |Significant(n.children)| ==> Significant(n.children)[k] in n.children;
  }

  /** A field of a node that holds expressions is an expression. */
  lemma FieldExpression(n: Node, f: Field)
    requires Grammatical(n) && HoldsExpressions(n.kind) && n.Get(f).Some?
    ensures IsExpression(n.Get(f).value)
  {
    PartsGrammatical(n.children);
  }

  lemma FieldGrammatical(n: Node, f: Field)
    requires Grammatical(n) && n.Get(f).Some?
    ensures Grammatical(n.Get(f).value)
  {
    PartsGrammatical(n.children);
  }

  lemma PartsOf(n: Node)
    requires Grammatical(n)
    ensures GrammaticalAll(n.children)
  {}

  lemma OperandExpression(part: Node)
    requires Grammatical(part) && part.IsInterpolation() && Operand(part).Some?
    ensures IsExpression(Operand(part).value)
  {
    PartsGrammatical(part.children);
  }

  lemma ArgumentExpression(arg: Node)
    requires IsExpression(arg) && ArgumentValue(arg).Some?
    ensures IsExpression(ArgumentValue(arg).value)
  {
    if arg.kind == KeywordArgument { FieldExpression(arg, ValueField); }
  }

  lemma {:induction false} ExpressionKeepsNames(n: Node, lang: Language, depth: nat, s: State)
    requires depth <= MAX_DEPTH && IsExpression(n)
    requires CheckExpression(n, lang, depth, s).Some?
    ensures CheckExpression(n, lang, depth, s).value.state.values == s.values
    decreases MAX_DEPTH - depth, 1, 0
  {
    hide Grammatical;
    hide GrammaticalAll;
    hide CheckSequence;
    hide CheckString;
    hide CheckCall;
    hide CheckBinding;
    hide CheckBinary;
    hide Significant;
    var s1 := s.(steps := s.steps - 1);
    match n.kind
    case Parenthesized =>
      HeldExpressions(n);
      ExpressionKeepsNames(Significant(n.children)[0], lang, depth + 1, s1);
    case ConcatenatedString =>
      HeldExpressions(n);
      SequenceKeepsNames(Significant(n.children), lang, depth + 1, s1, true);
    case StringLiteral | TemplateString =>
      StringKeepsNames(n, lang, depth, s1);
    case BinaryOperator | BinaryExpression => BinaryKeepsNames(n, lang, depth, s1);
    case Call | CallExpression => CallKeepsNames(n, lang, depth + 1, s1);
    case _ =>
  }

  lemma {:induction false} StringKeepsNames(n: Node, lang: Language, depth: nat, s: State)
    requires depth < MAX_DEPTH && Grammatical(n) && CheckString(n, lang, depth, s).Some?
    ensures CheckString(n, lang, depth, s).value.state.values == s.values
    decreases MAX_DEPTH - depth, 0, |Below(n)| + 1
  {
    hide CheckParts;
    hide ContainsMarker;
    hide Grammatical;
    PartsOf(n);
    BelowGrammatical(n.children);
    PartsKeepNames(Below(n), lang, depth, s);
  }

  lemma {:induction false} BinaryKeepsNames(n: Node, lang: Language, depth: nat, s: State)
    requires depth < MAX_DEPTH && Grammatical(n) && HoldsExpressions(n.kind)
    requires CheckBinary(n, lang, depth, s).Some?
    ensures CheckBinary(n, lang, depth, s).value.state.values == s.values
    decreases MAX_DEPTH - depth, 0, 0
  {
    hide Grammatical;
    hide IsExpression;
    hide HoldsExpressions;
    hide CheckExpression;
    hide Operation;
    FieldExpression(n, LeftField);
    FieldExpression(n, RightField);
    ExpressionKeepsNames(n.Get(LeftField).value, lang, depth + 1, s);
    var l := CheckExpression(n.Get(LeftField).value, lang, depth + 1, s);
    ExpressionKeepsNames(n.Get(RightField).value, lang, depth + 1, l.value.state);
  }

  lemma {:induction false} SequenceKeepsNames(ns: seq<Node>, lang: Language, depth: nat, s: State, texts: bool)
    requires depth <= MAX_DEPTH && Expressions(ns)
    requires CheckSequence(ns, lang, depth, s, texts).Some?
    ensures CheckSequence(ns, lang, depth, s, texts).value.values == s.values
    decreases MAX_DEPTH - depth, 2, |ns|
  {
    hide IsExpression;
    hide CheckExpression;
    if ns != [] {
      ExpressionKeepsNames(ns[0], lang, depth, s);
      SequenceKeepsNames(ns[1..], lang, depth, CheckExpression(ns[0], lang, depth, s).value.state, texts);
    }
  }

  /** An interpolation whose expression passed with these names bound. */
  ghost predicate Approved(part: Node, lang: Language, depth: nat, values: map<string, Abstract>)
    requires depth < MAX_DEPTH
  {
    Operand(part).Some? && exists s: State ::
        s.values == values && PassesAsPart(Operand(part).value, lang, depth + 1, s)
  }

  predicate PassesAsPart(n: Node, lang: Language, depth: nat, s: State)
    requires depth <= MAX_DEPTH
  {
    var r := CheckExpression(n, lang, depth, s);
    r.Some? && (r.value.kind == Text || r.value.kind == Scalar)
  }

  lemma PassIsApproval(part: Node, lang: Language, depth: nat, s: State)
    requires depth < MAX_DEPTH && Operand(part).Some? && PassesAsPart(Operand(part).value, lang, depth + 1, s)
    ensures Approved(part, lang, depth, s.values)
  {
    hide PassesAsPart;
  }

  lemma PartsCases(ns: seq<Node>, lang: Language, depth: nat, s: State)
    requires depth < MAX_DEPTH && CheckParts(ns, lang, depth, s).Some?
    ensures ns == [] ==> CheckParts(ns, lang, depth, s) == Some(s)
    ensures ns != [] ==>
              && s.steps > 0
              && var s1 := s.(steps := s.steps - 1);
                 if ns[0].IsInterpolation() then
                   && Operand(ns[0]).Some? && PassesAsPart(Operand(ns[0]).value, lang, depth + 1, s1)
                   && CheckParts(ns, lang, depth, s)
                      == CheckParts(ns[1..], lang, depth,
                          CheckExpression(Operand(ns[0]).value, lang, depth + 1, s1).value.state)
                 else CheckParts(ns, lang, depth, s) == CheckParts(ns[1..], lang, depth, s1)
  {
    hide CheckExpression;
    hide Operand;
  }

  lemma {:induction false} PartsKeepNames(ns: seq<Node>, lang: Language, depth: nat, s: State)
    requires depth < MAX_DEPTH && forall d :: d in ns ==> Grammatical(d)
    requires CheckParts(ns, lang, depth, s).Some?
    ensures CheckParts(ns, lang, depth, s).value.values == s.values
    ensures forall d :: d in ns && d.IsInterpolation() ==> Approved(d, lang, depth, s.values)
    decreases MAX_DEPTH - depth, 0, |ns|
  {
    hide IsExpression;
    hide Grammatical;
    hide Operand;
    hide CheckExpression;
    hide CheckParts;
    hide Approved;
    PartsCases(ns, lang, depth, s);
    if ns != [] {
      var s1 := s.(steps := s.steps - 1);
      if ns[0].IsInterpolation() {
        OperandExpression(ns[0]);
        ExpressionKeepsNames(Operand(ns[0]).value, lang, depth + 1, s1);
        PassIsApproval(ns[0], lang, depth, s1);
        PartsKeepNames(ns[1..], lang, depth, CheckExpression(Operand(ns[0]).value, lang, depth + 1, s1).value.state);
      } else {
        PartsKeepNames(ns[1..], lang, depth, s1);
      }
    }
  }

  lemma {:induction false} ArgumentsKeepNames(args: seq<Node>, lang: Language, depth: nat, s: State)
    requires depth <= MAX_DEPTH && Expressions(args)
    requires CheckArguments(args, lang, depth, s).Some?
    ensures CheckArguments(args, lang, depth, s).value.values == s.values
    decreases MAX_DEPTH - depth, 2, |args|
  {
    hide IsExpression;
    hide ArgumentValue;
    hide CheckExpression;
    if args != [] {
      ArgumentExpression(args[0]);
      var value := ArgumentValue(args[0]).value;
      ExpressionKeepsNames(value, lang, depth, s);
      ArgumentsKeepNames(args[1..], lang, depth, CheckExpression(value, lang, depth, s).value.state);
    }
  }

  lemma {:induction false} CallKeepsNames(n: Node, lang: Language, depth: nat, s: State)
    requires depth <= MAX_DEPTH && Grammatical(n) && HoldsExpressions(n.kind)
    requires CheckCall(n, lang, depth, s).Some?
    ensures CheckCall(n, lang, depth, s).value.state.values == s.values
    decreases MAX_DEPTH - depth, 1, 0
  {
    hide Grammatical;
    hide Expressions;
    hide CheckArguments;
    hide CheckCallee;
    hide Significant;
    FieldGrammatical(n, FunctionField);
    FieldGrammatical(n, ArgumentsField);
    var arguments := n.Get(ArgumentsField).value;
    HeldExpressions(arguments);
    var args := Significant(arguments.children);
    ArgumentsKeepNames(args, lang, depth + 1, s.(steps := s.steps - 1));
    var s2 := CheckArguments(args, lang, depth + 1, s.(steps := s.steps - 1)).value;
    CalleeKeepsNames(n.Get(FunctionField).value, args, lang, depth, s2);
  }

  lemma {:induction false} CalleeKeepsNames(f: Node, args: seq<Node>, lang: Language, depth: nat, s: State)
    requires depth < MAX_DEPTH && Grammatical(f)
    requires CheckCallee(f, args, lang, depth, s).Some?
    ensures CheckCallee(f, args, lang, depth, s).value.state.values == s.values
    decreases MAX_DEPTH - depth, 0, 0
  {
    hide Grammatical;
    hide IsExpression;
    hide CheckExpression;
    hide NamedCall;
    hide MethodCall;
    if f.kind != Identifier {
      FieldExpression(f, ObjectField);
      var target := f.Get(ObjectField).value;
      if CheckExpression(target, lang, depth + 1, s).Some? {
        ExpressionKeepsNames(target, lang, depth + 1, s);
      }
    }
  }

  // ------------------------------------------------------------ names only grow

  /** The names that the proof refuses to bind are the API's. */
  lemma ReservedExact(x: string)
    ensures Reserved(x) <==> x in API_NAMES
  {}

  /** No name of the API is bound. */
  predicate SparesApi(s: State) {
    forall x :: x in API_NAMES ==> x !in s.values
  }

  /** Checking a statement only adds names, and none of the API's. */
  lemma {:induction false} ExpressionGrows(n: Node, lang: Language, depth: nat, s: State)
    requires depth <= MAX_DEPTH && Grammatical(n)
    requires CheckExpression(n, lang, depth, s).Some?
    ensures s.values.Keys <= CheckExpression(n, lang, depth, s).value.state.values.Keys
    ensures SparesApi(s) ==> SparesApi(CheckExpression(n, lang, depth, s).value.state)
    decreases MAX_DEPTH - depth, 1, 1
  {
    hide Grammatical;
    hide GrammaticalAll;
    hide CheckSequence;
    hide CheckParts;
    hide CheckCall;
    hide CheckBinding;
    hide CheckBinary;
    hide ContainsMarker;
    hide Significant;
    PartsOf(n);
    PartsGrammatical(n.children);
    var s1 := s.(steps := s.steps - 1);
    if !IsStatement(n.kind) {
      ExpressionKeepsNames(n, lang, depth, s);
    } else if n.kind == ExpressionStatement {
      ExpressionGrows(Significant(n.children)[0], lang, depth + 1, s1);
    } else if n.kind == Assignment || n.kind == VariableDeclarator {
      BindingGrows(n, lang, depth, s1);
    } else {
      SequenceGrows(Significant(n.children), n.children, lang, depth + 1, s1, false);
    }
  }

  lemma {:induction false} BindingGrows(n: Node, lang: Language, depth: nat, s: State)
    requires depth < MAX_DEPTH && (forall c :: c in n.children ==> Grammatical(c))
    requires CheckBinding(n, lang, depth, s).Some?
    ensures s.values.Keys <= CheckBinding(n, lang, depth, s).value.state.values.Keys
    ensures var right := n.GetEither(RightField, ValueField).value;
            CheckExpression(right, lang, depth + 1, s).value.state.values.Keys
            <= CheckBinding(n, lang, depth, s).value.state.values.Keys
    ensures SparesApi(s) ==> SparesApi(CheckBinding(n, lang, depth, s).value.state)
    decreases MAX_DEPTH - depth, 0, 0
  {
    hide *;
    BindingAdds(n, lang, depth, s);
    var x, right := n.GetEither(LeftField, NameField).value.text, n.GetEither(RightField, ValueField).value;
    ExpressionGrows(right, lang, depth + 1, s);
    GrowsByOne(s, CheckExpression(right, lang, depth + 1, s).value, CheckBinding(n, lang, depth, s).value.state, x);
  }

  lemma GrowsByOne(s: State, c: Checked, after: State, x: string)
    requires s.values.Keys <= c.state.values.Keys && (SparesApi(s) ==> SparesApi(c.state))
    requires x !in API_NAMES && after.values == c.state.values[x := c.kind]
    ensures s.values.Keys <= after.values.Keys && c.state.values.Keys <= after.values.Keys
    ensures SparesApi(s) ==> SparesApi(after)
  {}

  /** A binding adds one name to those after its right-hand side, and none of the API's. */
  lemma BindingAdds(n: Node, lang: Language, depth: nat, s: State)
    requires depth < MAX_DEPTH && CheckBinding(n, lang, depth, s).Some?
    ensures var left, right := n.GetEither(LeftField, NameField), n.GetEither(RightField, ValueField);
            && left.Some? && left.value.text !in API_NAMES && right.Some? && right.value in n.children
            && var r := CheckExpression(right.value, lang, depth + 1, s);
               && r.Some?
               && CheckBinding(n, lang, depth, s).value.state.values
                  == r.value.state.values[left.value.text := r.value.kind]
  {
    ReservedExact(n.GetEither(LeftField, NameField).value.text);
    hide Reserved;
    hide CheckExpression;
    hide Significant;
  }

  lemma {:induction false} SequenceGrows(ns: seq<Node>, from: seq<Node>, lang: Language, depth: nat, s: State,
          texts: bool)
    requires depth <= MAX_DEPTH && GrammaticalAll(from) && (forall c :: c in ns ==> c in from)
    requires CheckSequence(ns, lang, depth, s, texts).Some?
    ensures s.values.Keys <= CheckSequence(ns, lang, depth, s, texts).value.values.Keys
    ensures SparesApi(s) ==> SparesApi(CheckSequence(ns, lang, depth, s, texts).value)
    decreases MAX_DEPTH - depth, 2, |ns|
  {
    PartsGrammatical(from);
    hide Grammatical;
    hide GrammaticalAll;
    hide CheckExpression;
    if ns != [] {
      ExpressionGrows(ns[0], lang, depth, s);
      SequenceGrows(ns[1..], from, lang, depth, CheckExpression(ns[0], lang, depth, s).value.state, texts);
    }
  }

  // --------------------------------------------------------------- soundness

  lemma TracksLonger(values: map<string, Abstract>, m: Machine, trace: seq<Effect>, w: World)
    requires Tracks(values, m, w) && m.trace <= trace
    ensures Tracks(values, m.(trace := trace), w)
  {
    hide Proper;
    hide Apart;
    hide Images;
    forall x | x in values ensures HasKind(m.env[w.canon(x)], values[x], trace) {
      assert HasKind(m.env[w.canon(x)], values[x], m.trace);
    }
  }

  lemma TracksName(values: map<string, Abstract>, m: Machine, x: string, w: World)
    requires Tracks(values, m, w) && x in values
    ensures w.canon(x) in m.env && HasKind(m.env[w.canon(x)], values[x], m.trace)
  {}

  lemma TracksFree(values: map<string, Abstract>, m: Machine, w: World)
    requires Tracks(values, m, w)
    ensures Free(m)
  {
    hide Proper;
    forall x | x in API_NAMES ensures x !in m.env {
      assert x in m.env ==> x in Images(values.Keys, w.canon);
    }
  }

  lemma PlainTextMethods(name: string)
    requires name in TEXT_METHODS
    ensures IsPlainName(name)
  {}

  lemma PlainFileMethods(name: string)
    requires name in FILE_WRITES || name in FILE_SYSTEM_WRITES || name == "read" || name == "readFileSync"
    ensures IsPlainName(name)
  {}

  lemma PlainNames(name: string)
    requires name in API_NAMES || name in CONSOLE_METHODS
    ensures IsPlainName(name)
  {}

  /** The API's names are spelled one way only as far as the proof is concerned. */
  lemma ApiSpelling(name: string, w: World)
    requires Proper(w)
    requires name in API_NAMES || name in TEXT_METHODS || name in CONSOLE_METHODS || name in FILE_WRITES
             || name in FILE_SYSTEM_WRITES
             || name == "read" || name == "readFileSync"
    ensures w.canon(name) == name
  {
    hide IsPlainName;
    if name in TEXT_METHODS {
      PlainTextMethods(name);
    } else if name in API_NAMES || name in CONSOLE_METHODS {
      PlainNames(name);
    } else {
      PlainFileMethods(name);
    }
    assert IsNaming(w.canon) ==> w.canon(name) == name;
  }

  lemma ApartSubset(names: set<string>, all: set<string>, canon: string -> string, fixed: set<string>)
    requires Apart(all, canon, fixed) && names <= all
    ensures Apart(names, canon, fixed)
  {}

  lemma TracksApart(values: map<string, Abstract>, m: Machine, w: World)
    requires Tracks(values, m, w)
    ensures Apart(values.Keys, w.canon, w.fixed) && Proper(w)
  {}

  /** Checking an expression leaves the names as they were. */
  lemma ExpressionApart(n: Node, lang: Language, depth: nat, s: State, w: World, m: Machine)
    requires depth <= MAX_DEPTH && IsExpression(n) && Tracks(s.values, m, w)
    requires CheckExpression(n, lang, depth, s).Some?
    ensures var values := CheckExpression(n, lang, depth, s).value.state.values;
            values == s.values && Apart(values.Keys, w.canon, w.fixed)
  {
    ExpressionKeepsNames(n, lang, depth, s);
    TracksApart(s.values, m, w);
    hide *;
  }

  lemma ArithmeticTable(op: string)
    ensures IsArithmetic(op) ==> op in ARITHMETIC
  {}

  lemma MethodTable(k: Abstract, member: string)
    requires MethodCall(k, member).Some?
    ensures match k
            case Text => member in TEXT_METHODS
            case File => member == "read" || member in FILE_WRITES
            case NodeFs => member == "readFileSync" || member in FILE_SYSTEM_WRITES
            case Scalar => false
  {}

  lemma ConsoleTable(member: string)
    ensures IsConsoleMethod(member) ==> member in CONSOLE_METHODS
  {}

  /** What is said of the rest of a text, said of the text. */
  lemma OneFurther(text: string, i: nat, j: nat)
    requires text != [] && i <= j < |text|
    ensures text[i + 1..j + 1] == text[1..][i..j] && text[j + 1..] == text[1..][j..]
    ensures text[..i + 1] == [text[0]] + text[1..][..i]
  {}

  lemma {:induction false} QuotesTrimmed(text: string) returns (i: nat, j: nat)
    ensures i <= j <= |text| && text[i..j] == TrimQuotes(text) && AreQuotes(text[..i]) && AreQuotes(text[j..])
  {
    if text != [] && (text[0] == '\'' || text[0] == '"') {
      i, j := QuotesTrimmed(text[1..]);
      OneFurther(text, i, j);
      QuoteBefore(text[0], text[1..][..i]);
      i, j := i + 1, j + 1;
    } else {
      j := EndTrimmed(text);
      i := 0;
      assert text[0..j] == text[..j] && text[..0] == [];
    }
  }

  lemma QuoteBefore(c: char, s: string)
    requires IsQuoteMark(c) && AreQuotes(s)
    ensures AreQuotes([c] + s)
  {}

  lemma {:induction false} EndTrimmed(text: string) returns (j: nat)
    ensures j <= |text| && TrimQuotesEnd(text) == text[..j] && AreQuotes(text[j..])
  {
    j := |text|;
    assert text[..j] == text && text[j..] == [];
    if text != [] && (text[|text| - 1] == '\'' || text[|text| - 1] == '"') {
      var front := text[..|text| - 1];
      j := EndTrimmed(front);
      assert text[..j] == front[..j] && text[j..] == front[j..] + [text[|text| - 1]];
    }
  }

  lemma CodecIsNamed(text: string)
    requires TrimQuotes(text) in CODECS
    ensures NamesCodec(text)
  {
    hide TrimQuotes;
    var i, j := QuotesTrimmed(text);
  }

  lemma PositionsOf(args: seq<Node>)
    requires args != []
    ensures Positions(args)
            == Shifted(Positions(args[1..])) + if args[0].kind == KeywordArgument then {} else {0}
  {
    var rest := args[1..];
    forall k: nat | k in Positions(args) && k > 0 ensures k in Shifted(Positions(rest)) {
      assert rest[k - 1] == args[k];
      assert k - 1 in Positions(rest);
    }
  }

  lemma {:induction false} PositionsCount(args: seq<Node>)
    ensures Positional(args) == |Positions(args)|
  {
    if args != [] {
      PositionsOf(args);
      PositionsCount(args[1..]);
      ShiftedSize(Positions(args[1..]));
    }
  }

  lemma OpenTable(args: seq<Node>)
    requires PlainOpen(args)
    ensures OpensPlainly(args)
  {
    PositionsCount(args);
    hide TrimQuotes;
    hide NamesCodec;
    hide Positional;
    hide Positions;
    forall k | 0 <= k < |args| && args[k].kind == KeywordArgument
      ensures args[k].Get(NameField).Some?
      ensures var name := args[k].Get(NameField).value.text;
              name in OPEN_OPTIONS || (name == "encoding" && args[k].Get(ValueField).Some?
                && args[k].Get(ValueField).value.kind == StringLiteral
                && NamesCodec(args[k].Get(ValueField).value.text))
    {
      assert PlainOption(args[k]);
      if args[k].Get(NameField).value.text == "encoding" { CodecIsNamed(args[k].Get(ValueField).value.text); }
    }
  }

  /** The four source texts that the proof takes for the file-system module spell its names. */
  lemma FileSystemTable(source: string, w: World)
    requires IsFsSpelling(source) && Proper(w)
    ensures w.text(source) in FILE_SYSTEM
  {
    var quote := source[0];
    var name := if source == "'fs'" || source == "\"fs\"" then "fs" else "node:fs";
    assert source == [quote] + (name + [quote]);
    PlainSpelling(quote, name);
  }

  lemma {:induction false} PlainBody(s: string)
    requires forall k :: 0 <= k < |s| ==> s[k] != '\\' && s[k] != '\r'
    ensures SpellsBody(s, s, Flavor(false, false, false, false))
    decreases |s|
  {
    if s != [] {
      var f := Flavor(false, false, false, false);
      PlainBody(s[1..]);
      assert Itself(s[..1], s[..1], s[1..], f);
      assert Means(s[..1], s[..1], s[1..], f);
    }
  }

  lemma PlainSpelling(quote: char, s: string)
    requires quote == '\'' || quote == '"'
    requires forall k :: 0 <= k < |s| ==> s[k] != '\\' && s[k] != '\r'
    ensures Spells([quote] + (s + [quote]), s, JavaScript)
  {
    PlainBody(s);
    var p := Parts([], quote, 1, s, Flavor(false, false, false, false));
    assert Quotes(quote, 1) == [quote] && p.Text() == [quote] + (s + [quote]);
    assert SpelledBy(p, p.Text(), s, JavaScript);
  }

  lemma SafeStep(trace: seq<Effect>, e: Effect)
    requires SafeTrace(trace) && Safe(e) && (e.FileMethod? ==> Opened(e.handle, trace))
    ensures SafeTrace(trace + [e])
  {
    var after := trace + [e];
    forall i | 0 <= i < |after|
      ensures Safe(after[i]) && (after[i].FileMethod? ==> Opened(after[i].handle, after[..i]))
    {
      assert after[..i] == if i < |trace| then trace[..i] else trace;
    }
  }

  /** One safe effect whose answer has kind `k`. */
  lemma PerformConforms(e: Effect, result: string -> Value, w: World, m: Machine, k: Abstract, s: State)
    requires Consistent(s, m, w) && Safe(e) && (e.FileMethod? ==> Opened(e.handle, m.trace))
    requires forall a :: HasKind(result(a), k, m.trace + [e])
    ensures Conforms(k, s, m, Perform(e, result, w, m), w)
  {
    SafeStep(m.trace, e);
    TracksLonger(s.values, m, m.trace + [e], w);
    TracksFree(s.values, m, w);
  }

  /** An exception conforms to any prediction. */
  lemma RaisedConforms(k: Abstract, s: State, m: Machine, r: Run, k': Abstract, s': State, w: World)
    requires Conforms(k, s, m, r, w) && r.outcome.Raised?
    ensures Conforms(k', s', m, r, w)
  {}

  lemma ReturnedConforms(k: Abstract, s: State, m: Machine, r: Run, w: World)
    requires Conforms(k, s, m, r, w) && r.outcome.Returned?
    ensures Consistent(s, r.machine, w) && HasKind(r.outcome.value, k, r.machine.trace) && m.trace <= r.machine.trace
  {}

  /** A run that goes on from a later machine. */
  lemma EarlierConforms(k: Abstract, s: State, m: Machine, m': Machine, r: Run, w: World)
    requires Conforms(k, s, m', r, w) && m.trace <= m'.trace
    ensures Conforms(k, s, m, r, w)
  {}

  /** What the soundness of a list of evaluations says. */
  ghost predicate ConformsAll(values: map<string, Abstract>, m: Machine, done: bool, after: Machine, w: World) {
    m.trace <= after.trace && SafeTrace(after.trace) && Free(after) && (done ==> Tracks(values, after, w))
  }

  // The steps of a run, one after the other.

  lemma EqualNames(s: State, s': State, m: Machine, w: World)
    requires Consistent(s, m, w) && s'.values == s.values
    ensures Consistent(s', m, w)
  {
    hide Tracks;
  }

  lemma AfterExpression(k: Abstract, s: State, s': State, m: Machine, r: Run, w: World)
    requires Conforms(k, s, m, r, w) && r.outcome.Returned? && s'.values == s.values
    ensures m.trace <= r.machine.trace && Consistent(s', r.machine, w) && HasKind(r.outcome.value, k, r.machine.trace)
  {
    hide Tracks;
    hide SafeTrace;
    hide HasKind;
  }

  lemma AfterList(values: map<string, Abstract>, s: State, m: Machine, after: Machine, w: World)
    requires ConformsAll(values, m, true, after, w) && s.values == values
    ensures m.trace <= after.trace && Consistent(s, after, w)
  {
    hide Tracks;
    hide SafeTrace;
  }

  lemma ExpressionFails(k: Abstract, s: State, k': Abstract, s': State, values: map<string, Abstract>, m: Machine,
                        r: Run, w: World)
    requires Conforms(k, s, m, r, w) && r.outcome.Raised?
    ensures Conforms(k', s', m, r, w) && ConformsAll(values, m, false, r.machine, w)
  {
    hide SafeTrace;
    hide Free;
  }

  lemma ListFails(values: map<string, Abstract>, k: Abstract, s: State, m: Machine, m1: Machine, after: Machine,
                  w: World)
    requires m.trace <= m1.trace && ConformsAll(values, m1, false, after, w)
    ensures Conforms(k, s, m, Run(Raised, after), w)
  {
    hide SafeTrace;
    hide Free;
  }

  lemma Continues(k: Abstract, s: State, m: Machine, m1: Machine, r: Run, w: World)
    requires m.trace <= m1.trace && Conforms(k, s, m1, r, w)
    ensures Conforms(k, s, m, r, w)
  {
    hide SafeTrace;
    hide Free;
    hide Tracks;
    hide HasKind;
  }

  lemma ListContinues(values: map<string, Abstract>, m: Machine, m1: Machine, done: bool, after: Machine, w: World)
    requires m.trace <= m1.trace && ConformsAll(values, m1, done, after, w)
    ensures ConformsAll(values, m, done, after, w)
  {
    hide SafeTrace;
    hide Free;
    hide Tracks;
  }

  predicate IsBlock(k: Kind) {
    k == Module || k == Program || k == LexicalDeclaration || k == VariableDeclaration || k == ConcatenatedString
  }

  /** The last value is of the predicted kind. */
  lemma ListReturns(values: map<string, Abstract>, s: State, k: Abstract, v: Value, m: Machine, after: Machine,
                    w: World)
    requires ConformsAll(values, m, true, after, w) && s.values == values
    requires (k == Text && v.TextV?) || (k == Scalar && v.ScalarV?)
    ensures Conforms(k, s, m, Run(Returned(v), after), w)
  {
    hide SafeTrace;
    hide Free;
    hide Tracks;
  }

  lemma BlockCases(n: Node, lang: Language, depth: nat, s: State, w: World, m: Machine)
    requires depth < MAX_DEPTH && IsBlock(n.kind) && CheckExpression(n, lang, depth, s).Some?
    ensures s.steps > 0
    ensures var texts, c := n.kind == ConcatenatedString, CheckExpression(n, lang, depth, s).value;
            && CheckSequence(Significant(n.children), lang, depth + 1, s.(steps := s.steps - 1), texts) == Some(c.state)
            && c.kind == if texts then Text else Scalar
    ensures var r, all := EvalAll(n.children, lang, w, m), Eval(n, lang, w, m);
            if r.values.None? then all == Run(Raised, r.machine)
            else if n.kind == ConcatenatedString then
              (forall k :: 0 <= k < |r.values.value| ==> r.values.value[k].TextV?) ==>
                  all == Run(Returned(TextV(w.spell(n, r.values.value))), r.machine)
            else all == Run(Returned(ScalarV([])), r.machine)
  {
    hide CheckSequence;
    hide EvalAll;
    hide Significant;
  }

  /** Blocks and adjacent literals evaluate their children one after the other. */
  lemma {:induction false} SoundBlock(n: Node, lang: Language, depth: nat, s: State, w: World, m: Machine)
    requires depth < MAX_DEPTH && Grammatical(n) && Consistent(s, m, w) && IsBlock(n.kind)
    requires CheckExpression(n, lang, depth, s).Some?
             && Apart(CheckExpression(n, lang, depth, s).value.state.values.Keys, w.canon, w.fixed)
    ensures var c := CheckExpression(n, lang, depth, s).value;
            Conforms(c.kind, c.state, m, Eval(n, lang, w, m), w)
    decreases MAX_DEPTH - depth, 3, 1
  {
    hide *;
    PartsOf(n);
    BlockCases(n, lang, depth, s, w, m);
    var s1, c := s.(steps := s.steps - 1), CheckExpression(n, lang, depth, s).value;
    var texts := n.kind == ConcatenatedString;
    EqualNames(s, s1, m, w);
    SoundSequence(n.children, lang, depth + 1, s1, texts, w, m);
    var r := EvalAll(n.children, lang, w, m);
    if r.values.None? {
      ListFails(c.state.values, c.kind, c.state, m, m, r.machine, w);
    } else if texts {
      ListReturns(c.state.values, c.state, c.kind, TextV(w.spell(n, r.values.value)), m, r.machine, w);
    } else {
      ListReturns(c.state.values, c.state, c.kind, ScalarV([]), m, r.machine, w);
    }
  }

  lemma StringCases(n: Node, lang: Language, depth: nat, s: State, w: World, m: Machine)
    requires depth < MAX_DEPTH && (n.kind == StringLiteral || n.kind == TemplateString)
             && CheckExpression(n, lang, depth, s).Some?
    ensures s.steps > 0
    ensures var c, r := CheckExpression(n, lang, depth, s).value,
              CheckParts(Below(n), lang, depth, s.(steps := s.steps - 1));
            c.kind == Text && r.Some? && c.state.values == r.value.values
    ensures var r := EvalParts(n.children, -1, lang, w, m);
            Eval(n, lang, w, m)
              == Run(if r.values.Some? then Returned(TextV(w.spell(n, r.values.value))) else Raised, r.machine)
  {
    hide CheckParts;
    hide EvalParts;
    hide ContainsMarker;
    hide Below;
  }

  lemma ApprovedBelow(n: Node, lang: Language, depth: nat, values: map<string, Abstract>)
    requires depth < MAX_DEPTH && forall d :: d in Below(n) && d.IsInterpolation() ==> Approved(d, lang, depth, values)
    ensures ApprovedAll(n.children, lang, depth, values)
  {
    hide Approved;
  }

  lemma ConsistentParts(s: State, m: Machine, w: World)
    requires Consistent(s, m, w)
    ensures SafeTrace(m.trace) && Tracks(s.values, m, w)
  {}

  /** A literal evaluates its interpolations. */
  lemma {:induction false} SoundString(n: Node, lang: Language, depth: nat, s: State, w: World, m: Machine)
    requires depth < MAX_DEPTH && Grammatical(n) && Consistent(s, m, w)
             && (n.kind == StringLiteral || n.kind == TemplateString)
    requires CheckExpression(n, lang, depth, s).Some?
    ensures var c := CheckExpression(n, lang, depth, s).value;
            Conforms(c.kind, c.state, m, Eval(n, lang, w, m), w)
    decreases MAX_DEPTH - depth, 3, 1
  {
    hide *;
    PartsOf(n);
    StringCases(n, lang, depth, s, w, m);
    var s1, c := s.(steps := s.steps - 1), CheckExpression(n, lang, depth, s).value;
    BelowNodes(n);
    BelowGrammatical(n.children);
    PartsKeepNames(Below(n), lang, depth, s1);
    ApprovedBelow(n, lang, depth, s1.values);
    ConsistentParts(s, m, w);
    SoundParts(n.children, -1, lang, depth, s.values, w, m);
    var r := EvalParts(n.children, -1, lang, w, m);
    if r.values.None? {
      ListFails(s.values, c.kind, c.state, m, m, r.machine, w);
    } else {
      ListReturns(s.values, c.state, c.kind, TextV(w.spell(n, r.values.value)), m, r.machine, w);
    }
  }

  lemma BelowNodes(n: Node)
    ensures Below(n) == BelowAll(n.children)
  {}

  lemma {:induction false} SoundExpression(n: Node, lang: Language, depth: nat, s: State, w: World, m: Machine)
    requires depth <= MAX_DEPTH && Grammatical(n) && Consistent(s, m, w)
    requires CheckExpression(n, lang, depth, s).Some?
             && Apart(CheckExpression(n, lang, depth, s).value.state.values.Keys, w.canon, w.fixed)
    ensures var c := CheckExpression(n, lang, depth, s).value;
            Conforms(c.kind, c.state, m, Eval(n, lang, w, m), w)
    decreases MAX_DEPTH - depth, 4, 0
  {
    hide Grammatical;
    hide GrammaticalAll;
    hide ContainsMarker;
    hide Tracks;
    hide CheckSequence;
    hide CheckParts;
    hide CheckCall;
    hide CheckBinding;
    hide CheckBinary;
    hide EvalAll;
    hide EvalParts;
    hide EvalBinding;
    hide EvalBinary;
    hide EvalCall;
    hide Significant;
    hide SafeTrace;
    hide Apart;
    hide Free;
    TracksFree(s.values, m, w);
    PartsOf(n);
    var s1 := s.(steps := s.steps - 1);
    match n.kind
    case Identifier => TracksName(s.values, m, n.text, w);
    case Module | Program | LexicalDeclaration | VariableDeclaration | ConcatenatedString =>
      SoundBlock(n, lang, depth, s, w, m);
    case StringLiteral | TemplateString =>
      SoundString(n, lang, depth, s, w, m);
    case ExpressionStatement | Parenthesized =>
      PartsGrammatical(n.children);
      SoundExpression(Significant(n.children)[0], lang, depth + 1, s1, w, m);
    case Assignment | VariableDeclarator =>
      SoundBinding(n, lang, depth, s1, w, m);
    case BinaryOperator | BinaryExpression =>
      SoundBinary(n, lang, depth, s1, w, m);
    case Call | CallExpression =>
      SoundCall(n, lang, depth + 1, s1, w, m);
    case _ =>
  }

  lemma SignificantStep(ns: seq<Node>)
    ensures ns == [] ==> Significant(ns) == []
    ensures ns != [] && ns[0].named && ns[0].kind != Comment ==>
              Significant(ns) != [] && Significant(ns)[0] == ns[0] && Significant(ns)[1..] == Significant(ns[1..])
    ensures ns != [] && (!ns[0].named || ns[0].kind == Comment) ==> Significant(ns) == Significant(ns[1..])
  {}

  lemma ArgsEmpty()
    ensures PlainArgs([]) && Written([]) == []
  {}

  lemma ArgsStep(a: Arg, rest: seq<Arg>)
    requires PlainArgs(rest) && (a.value.TextV? || a.value.ScalarV?)
    ensures PlainArgs([a] + rest) && Written([a] + rest) == [a.node] + Written(rest)
  {
    assert ([a] + rest)[1..] == rest;
  }

  lemma {:induction false} SoundSequence(ns: seq<Node>, lang: Language, depth: nat, s: State, texts: bool, w: World,
          m: Machine)
    requires depth <= MAX_DEPTH && GrammaticalAll(ns) && Consistent(s, m, w)
    requires CheckSequence(Significant(ns), lang, depth, s, texts).Some?
    requires Apart(CheckSequence(Significant(ns), lang, depth, s, texts).value.values.Keys, w.canon, w.fixed)
    ensures var s' := CheckSequence(Significant(ns), lang, depth, s, texts).value;
            var r := EvalAll(ns, lang, w, m);
            && ConformsAll(s'.values, m, r.values.Some?, r.machine, w)
            && (texts && r.values.Some? ==> forall k :: 0 <= k < |r.values.value| ==> r.values.value[k].TextV?)
    decreases MAX_DEPTH - depth, 5, |ns|
  {
    hide Significant;
    hide CheckExpression;
    hide Eval;
    hide SafeTrace;
    hide Apart;
    hide Tracks;
    hide Free;
    SignificantStep(ns);
    TracksFree(s.values, m, w);
    if ns != [] {
      if !ns[0].named || ns[0].kind == Comment {
        SoundSequence(ns[1..], lang, depth, s, texts, w, m);
      } else {
        var c := CheckExpression(ns[0], lang, depth, s).value;
        SequenceGrows(Significant(ns[1..]), ns[1..], lang, depth, c.state, texts);
        ApartSubset(c.state.values.Keys, CheckSequence(Significant(ns), lang, depth, s, texts).value.values.Keys,
            w.canon, w.fixed);
        SoundExpression(ns[0], lang, depth, s, w, m);
        var r := Eval(ns[0], lang, w, m);
        if r.outcome.Returned? {
          SoundSequence(ns[1..], lang, depth, c.state, texts, w, r.machine);
        }
      }
    }
  }

  /** A new name is a variable of its own, so no other binding changes. */
  lemma BindTracks(values: map<string, Abstract>, m: Machine, x: string, k: Abstract, v: Value, w: World)
    requires Tracks(values, m, w) && HasKind(v, k, m.trace) && Apart(values.Keys + {x}, w.canon, w.fixed)
    ensures Tracks(values[x := k], Store(m, w.canon(x), v, w), w)
  {
    var values', env' := values[x := k], m.env[w.canon(x) := v];
    hide Proper;
    assert values'.Keys == values.Keys + {x};
    assert Images(values'.Keys, w.canon) == Images(values.Keys, w.canon) + {w.canon(x)};
    forall y | y in values' ensures w.canon(y) in env' && HasKind(env'[w.canon(y)], values'[y], m.trace) {
      if y != x { assert w.canon(y) != w.canon(x); }
    }
  }

  lemma {:induction false} SoundBinding(n: Node, lang: Language, depth: nat, s: State, w: World, m: Machine)
    requires depth < MAX_DEPTH && Grammatical(n) && Consistent(s, m, w)
    requires CheckBinding(n, lang, depth, s).Some?
             && Apart(CheckBinding(n, lang, depth, s).value.state.values.Keys, w.canon, w.fixed)
    ensures var c := CheckBinding(n, lang, depth, s).value;
            Conforms(c.kind, c.state, m, EvalBinding(n, lang, w, m), w)
    decreases MAX_DEPTH - depth, 3, 0
  {
    hide CheckExpression;
    hide Eval;
    hide SafeTrace;
    hide Significant;
    hide Tracks;
    hide Apart;
    hide Free;
    hide Conforms;
    hide Reserved;
    hide Grammatical;
    PartsOf(n);
    PartsGrammatical(n.children);
    BindingGrows(n, lang, depth, s);
    var right := n.GetEither(RightField, ValueField).value;
    var c, all := CheckExpression(right, lang, depth + 1, s).value,
        CheckBinding(n, lang, depth, s).value.state.values.Keys;
    ApartSubset(c.state.values.Keys, all, w.canon, w.fixed);
    SoundExpression(right, lang, depth + 1, s, w, m);
    var r := Eval(right, lang, w, m);
    if r.outcome.Returned? {
      var x := n.GetEither(LeftField, NameField).value.text;
      assert all == c.state.values.Keys + {x};
      hide CheckBinding;
      BoundConforms(c.kind, c.state, m, r, x, w);
    } else {
      var b := CheckBinding(n, lang, depth, s).value;
      RaisedConforms(c.kind, c.state, m, r, b.kind, b.state, w);
      hide CheckBinding;
    }
  }

  lemma BoundConforms(k: Abstract, s: State, m: Machine, r: Run, x: string, w: World)
    requires Conforms(k, s, m, r, w) && r.outcome.Returned? && Apart(s.values.Keys + {x}, w.canon, w.fixed)
    ensures Conforms(k, s.(values := s.values[x := k]), m,
              r.(machine := Store(r.machine, w.canon(x), r.outcome.value, w)), w)
  {
    BindTracks(s.values, r.machine, x, k, r.outcome.value, w);
    TracksFree(s.values[x := k], Store(r.machine, w.canon(x), r.outcome.value, w), w);
    hide Tracks;
    hide Free;
    hide SafeTrace;
    hide Apart;
  }

  lemma OperationConforms(op: string, left: Abstract, right: Abstract, a: Value, b: Value, n: Node, s: State, w: World,
                          m: Machine)
    requires Operation(left, op, right).Some? && Consistent(s, m, w)
    requires HasKind(a, left, m.trace) && HasKind(b, right, m.trace)
    ensures Conforms(Operation(left, op, right).value, s, m, Operate(op, a, b, n, w, m), w)
  {
    ArithmeticTable(op);
    hide IsArithmetic;
    hide Consistent;
    hide Conforms;
    if left == Text {
      PerformConforms(Arithmetic(op, a, b), x => TextV(x), w, m, Text, s);
    } else {
      PerformConforms(Arithmetic(op, a, b), x => ScalarV(x), w, m, Scalar, s);
    }
  }

  lemma {:induction false} SoundBinary(n: Node, lang: Language, depth: nat, s: State, w: World, m: Machine)
    requires depth < MAX_DEPTH && Grammatical(n) && HoldsExpressions(n.kind) && Consistent(s, m, w)
    requires CheckBinary(n, lang, depth, s).Some?
    ensures var c := CheckBinary(n, lang, depth, s).value;
            Conforms(c.kind, c.state, m, EvalBinary(n, lang, w, m), w)
    decreases MAX_DEPTH - depth, 3, 0
  {
    hide Grammatical;
    hide IsExpression;
    hide HoldsExpressions;
    hide Operate;
    hide Operation;
    hide CheckExpression;
    hide Eval;
    hide Conforms;
    hide Tracks;
    hide SafeTrace;
    hide HasKind;
    hide Apart;
    FieldExpression(n, LeftField);
    FieldExpression(n, RightField);
    var left, right, op := n.Get(LeftField).value, n.Get(RightField).value, n.Get(OperatorField).value.text;
    var c := CheckBinary(n, lang, depth, s).value;
    SoundPart(left, lang, depth + 1, s, w, m);
    var cl, l := CheckExpression(left, lang, depth + 1, s).value, Eval(left, lang, w, m);
    if l.outcome.Raised? {
      RaisedConforms(cl.kind, cl.state, m, l, c.kind, c.state, w);
    } else {
      ReturnedConforms(cl.kind, cl.state, m, l, w);
      SoundPart(right, lang, depth + 1, cl.state, w, l.machine);
      var cr, r := CheckExpression(right, lang, depth + 1, cl.state).value, Eval(right, lang, w, l.machine);
      EarlierConforms(cr.kind, cr.state, m, l.machine, r, w);
      if r.outcome.Raised? {
        RaisedConforms(cr.kind, cr.state, m, r, c.kind, c.state, w);
      } else {
        ReturnedConforms(cr.kind, cr.state, m, r, w);
        ReturnedConforms(cr.kind, cr.state, l.machine, r, w);
        KindLasts(l.outcome.value, cl.kind, l.machine.trace, r.machine.trace);
        OperationConforms(op, cl.kind, cr.kind, l.outcome.value, r.outcome.value, n, cr.state, w, r.machine);
        EarlierConforms(c.kind, c.state, m, r.machine, Operate(op, l.outcome.value, r.outcome.value, n, w, r.machine),
            w);
      }
    }
  }

  /** An expression inside another one, whose names are the ones already there. */
  lemma {:induction false} SoundPart(n: Node, lang: Language, depth: nat, s: State, w: World, m: Machine)
    requires depth <= MAX_DEPTH && IsExpression(n) && Consistent(s, m, w)
    requires CheckExpression(n, lang, depth, s).Some?
    ensures var c := CheckExpression(n, lang, depth, s).value;
            c.state.values == s.values && Conforms(c.kind, c.state, m, Eval(n, lang, w, m), w)
    decreases MAX_DEPTH - depth, 4, 1
  {
    hide CheckExpression;
    hide Eval;
    hide Grammatical;
    hide Conforms;
    hide Tracks;
    hide Apart;
    ExpressionApart(n, lang, depth, s, w, m);
    SoundExpression(n, lang, depth, s, w, m);
  }

  /** Every interpolation below `ns` has been approved. */
  ghost predicate ApprovedAll(ns: seq<Node>, lang: Language, depth: nat, values: map<string, Abstract>)
    requires depth < MAX_DEPTH
  {
    forall d :: d in BelowAll(ns) && d.IsInterpolation() ==> Approved(d, lang, depth, values)
  }

  lemma ApprovedStep(ns: seq<Node>, lang: Language, depth: nat, values: map<string, Abstract>)
    requires depth < MAX_DEPTH && ns != [] && ApprovedAll(ns, lang, depth, values)
    ensures ns[0].IsInterpolation() ==> Approved(ns[0], lang, depth, values)
    ensures ApprovedAll(ns[0].children, lang, depth, values) && ApprovedAll(ns[1..], lang, depth, values)
  {
    assert BelowAll(ns) == [ns[0]] + Below(ns[0]) + BelowAll(ns[1..]);
    assert ns[0] in BelowAll(ns);
    hide Approved;
  }

  lemma NoSteps(values: map<string, Abstract>, m: Machine, w: World)
    requires SafeTrace(m.trace) && Tracks(values, m, w) && Free(m)
    ensures ConformsAll(values, m, true, m, w)
  {}

  lemma AfterParts(values: map<string, Abstract>, m: Machine, after: Machine, w: World)
    requires ConformsAll(values, m, true, after, w)
    ensures m.trace <= after.trace && SafeTrace(after.trace) && Tracks(values, after, w)
  {}

  lemma GrammaticalStep(ns: seq<Node>)
    requires GrammaticalAll(ns) && ns != []
    ensures Grammatical(ns[0]) && GrammaticalAll(ns[0].children) && GrammaticalAll(ns[1..])
  {}

  lemma EvalPartsCases(ns: seq<Node>, skip: int, lang: Language, w: World, m: Machine)
    ensures ns == [] ==> EvalParts(ns, skip, lang, w, m) == Runs(Some([]), m)
    ensures ns != [] && skip == 0 ==> EvalParts(ns, skip, lang, w, m) == EvalParts(ns[1..], -1, lang, w, m)
    ensures ns != [] && skip != 0 ==>
              var head := if ns[0].IsInterpolation() then EvalInterpolation(ns[0], lang, w, m)
                else EvalParts(ns[0].children, -1, lang, w, m);
              var all := EvalParts(ns, skip, lang, w, m);
              if head.values.None? then all == head else
              var rest := EvalParts(ns[1..], skip - 1, lang, w, head.machine);
              all.machine == rest.machine && (all.values.Some? <==> rest.values.Some?)
  {
    hide EvalInterpolation;
  }

  lemma {:induction false} SoundParts(ns: seq<Node>, skip: int, lang: Language, depth: nat,
          values: map<string, Abstract>, w: World, m: Machine)
    requires depth < MAX_DEPTH && GrammaticalAll(ns)
    requires ApprovedAll(ns, lang, depth, values)
    requires SafeTrace(m.trace) && Tracks(values, m, w)
    ensures var r := EvalParts(ns, skip, lang, w, m);
            ConformsAll(values, m, r.values.Some?, r.machine, w)
    decreases MAX_DEPTH - depth, 2, ns, 0
  {
    hide *;
    TracksFree(values, m, w);
    NoSteps(values, m, w);
    EvalPartsCases(ns, skip, lang, w, m);
    if ns != [] {
      ApprovedStep(ns, lang, depth, values);
      GrammaticalStep(ns);
      if skip == 0 {
        SoundParts(ns[1..], -1, lang, depth, values, w, m);
      } else {
        var head := if ns[0].IsInterpolation() then EvalInterpolation(ns[0], lang, w, m)
          else EvalParts(ns[0].children, -1, lang, w, m);
        if ns[0].IsInterpolation() {
          SoundInterpolation(ns[0], lang, depth, values, w, m);
        } else {
          SoundParts(ns[0].children, -1, lang, depth, values, w, m);
        }
        if head.values.Some? {
          AfterParts(values, m, head.machine, w);
          SoundParts(ns[1..], skip - 1, lang, depth, values, w, head.machine);
          var rest := EvalParts(ns[1..], skip - 1, lang, w, head.machine);
          ListContinues(values, m, head.machine, rest.values.Some?, rest.machine, w);
        }
      }
    }
  }

  lemma MakeConsistent(s: State, values: map<string, Abstract>, m: Machine, w: World)
    requires SafeTrace(m.trace) && Tracks(values, m, w) && s.values == values
    ensures Consistent(s, m, w)
  {}

  lemma PlainKind(v: Value, k: Abstract, trace: seq<Effect>)
    requires HasKind(v, k, trace) && (k == Text || k == Scalar)
    ensures v.TextV? || v.ScalarV?
  {}

  /** What approval of an interpolation consists of. */
  lemma ApprovedOperand(part: Node, lang: Language, depth: nat, values: map<string, Abstract>) returns (s: State)
    requires depth < MAX_DEPTH && Approved(part, lang, depth, values)
    ensures Operand(part).Some? && s.values == values
    ensures var c := CheckExpression(Operand(part).value, lang, depth + 1, s);
            c.Some? && (c.value.kind == Text || c.value.kind == Scalar)
  {
    hide CheckExpression;
    hide Operand;
    s :| s.values == values && PassesAsPart(Operand(part).value, lang, depth + 1, s);
  }

  lemma InterpolationCases(part: Node, lang: Language, w: World, m: Machine)
    requires Operand(part).Some?
    ensures var r, all := Eval(Operand(part).value, lang, w, m), EvalInterpolation(part, lang, w, m);
            if r.outcome.Raised? then all == Runs(None, r.machine)
            else r.outcome.value.TextV? || r.outcome.value.ScalarV? ==>
              var more := EvalParts(part.children, OperandIndex(part), lang, w, r.machine);
              all.machine == more.machine && (all.values.Some? <==> more.values.Some?)
  {
    hide Eval;
    hide EvalParts;
    hide OperandIndex;
  }

  lemma {:induction false} SoundInterpolation(part: Node, lang: Language, depth: nat, values: map<string, Abstract>,
          w: World, m: Machine)
    requires depth < MAX_DEPTH && Grammatical(part) && part.IsInterpolation()
    requires Approved(part, lang, depth, values)
    requires ApprovedAll(part.children, lang, depth, values)
    requires SafeTrace(m.trace) && Tracks(values, m, w)
    ensures var r := EvalInterpolation(part, lang, w, m);
            ConformsAll(values, m, r.values.Some?, r.machine, w)
    decreases MAX_DEPTH - depth, 2, part, 1
  {
    hide *;
    var s := ApprovedOperand(part, lang, depth, values);
    OperandExpression(part);
    PartsOf(part);
    InterpolationCases(part, lang, w, m);
    MakeConsistent(s, values, m, w);
    var e := Operand(part).value;
    var c, r := CheckExpression(e, lang, depth + 1, s).value, Eval(e, lang, w, m);
    SoundPart(e, lang, depth + 1, s, w, m);
    if r.outcome.Raised? {
      ExpressionFails(c.kind, c.state, c.kind, c.state, values, m, r, w);
    } else {
      AfterExpression(c.kind, c.state, s, m, r, w);
      PlainKind(r.outcome.value, c.kind, r.machine.trace);
      ConsistentParts(s, r.machine, w);
      SoundParts(part.children, OperandIndex(part), lang, depth, values, w, r.machine);
      var more := EvalParts(part.children, OperandIndex(part), lang, w, r.machine);
      ListContinues(values, m, r.machine, more.values.Some?, more.machine, w);
    }
  }

  lemma ExpressionsStep(ns: seq<Node>)
    requires Expressions(ns) && ns != []
    ensures IsExpression(ns[0]) && Expressions(ns[1..])
  {
    hide IsExpression;
  }

  lemma ArgumentsNext(args: seq<Node>, lang: Language, depth: nat, s: State)
    requires depth <= MAX_DEPTH && args != [] && CheckArguments(args, lang, depth, s).Some?
             && ArgumentValue(args[0]).Some?
    ensures var c := CheckExpression(ArgumentValue(args[0]).value, lang, depth, s);
            && c.Some? && (c.value.kind == Text || c.value.kind == Scalar)
            && CheckArguments(args[1..], lang, depth, c.value.state).Some?
  {
    hide CheckExpression;
    hide ArgumentValue;
  }

  lemma ArgumentHasValue(args: seq<Node>, lang: Language, depth: nat, s: State)
    requires depth <= MAX_DEPTH && args != [] && CheckArguments(args, lang, depth, s).Some?
    ensures ArgumentValue(args[0]).Some?
  {
    hide CheckExpression;
    hide ArgumentValue;
  }

  lemma EvalArgsCases(ns: seq<Node>, lang: Language, w: World, m: Machine)
    ensures ns == [] ==> EvalArgs(ns, lang, w, m) == ArgRuns(Some([]), m)
    ensures ns != [] && (!ns[0].named || ns[0].kind == Comment) ==>
              EvalArgs(ns, lang, w, m) == EvalArgs(ns[1..], lang, w, m)
    ensures ns != [] && ns[0].named && ns[0].kind != Comment && ArgumentValue(ns[0]).Some? ==>
              var all, r := EvalArgs(ns, lang, w, m), Eval(ArgumentValue(ns[0]).value, lang, w, m);
              if r.outcome.Raised? then all == ArgRuns(None, r.machine) else
              var rest := EvalArgs(ns[1..], lang, w, r.machine);
              all == if rest.args.None? then rest
                else rest.(args := Some([Arg(ns[0], r.outcome.value)] + rest.args.value))
  {
    hide Eval;
    hide ArgumentValue;
  }

  lemma {:induction false} SoundArguments(ns: seq<Node>, lang: Language, depth: nat, s: State, w: World, m: Machine)
    requires depth <= MAX_DEPTH && Expressions(ns) && Consistent(s, m, w)
    requires CheckArguments(Significant(ns), lang, depth, s).Some?
    ensures var r := EvalArgs(ns, lang, w, m);
            && ConformsAll(s.values, m, r.args.Some?, r.machine, w)
            && (r.args.Some? ==> PlainArgs(r.args.value) && Written(r.args.value) == Significant(ns))
    decreases MAX_DEPTH - depth, 5, |ns|
  {
    hide *;
    SignificantStep(ns);
    EvalArgsCases(ns, lang, w, m);
    if ns == [] {
      ArgsEmpty();
      ConsistentParts(s, m, w);
      TracksFree(s.values, m, w);
      NoSteps(s.values, m, w);
    } else {
      ExpressionsStep(ns);
      if !ns[0].named || ns[0].kind == Comment {
        SoundArguments(ns[1..], lang, depth, s, w, m);
      } else {
        ArgumentHasValue(Significant(ns), lang, depth, s);
        ArgumentExpression(ns[0]);
        ArgumentsNext(Significant(ns), lang, depth, s);
        var value := ArgumentValue(ns[0]).value;
        var c, r := CheckExpression(value, lang, depth, s).value, Eval(value, lang, w, m);
        SoundPart(value, lang, depth, s, w, m);
        if r.outcome.Raised? {
          ExpressionFails(c.kind, c.state, c.kind, c.state, s.values, m, r, w);
        } else {
          AfterExpression(c.kind, c.state, c.state, m, r, w);
          PlainKind(r.outcome.value, c.kind, r.machine.trace);
          SoundArguments(ns[1..], lang, depth, c.state, w, r.machine);
          var rest := EvalArgs(ns[1..], lang, w, r.machine);
          ListContinues(s.values, m, r.machine, rest.args.Some?, rest.machine, w);
          if rest.args.Some? { ArgsStep(Arg(ns[0], r.outcome.value), rest.args.value); }
        }
      }
    }
  }

  lemma {:induction false} SoundCall(n: Node, lang: Language, depth: nat, s: State, w: World, m: Machine)
    requires depth <= MAX_DEPTH && Grammatical(n) && HoldsExpressions(n.kind) && Consistent(s, m, w)
    requires CheckCall(n, lang, depth, s).Some?
    ensures var c := CheckCall(n, lang, depth, s).value;
            Conforms(c.kind, c.state, m, EvalCall(n, lang, w, m), w)
    decreases MAX_DEPTH - depth, 4, 0
  {
    hide CheckArguments;
    hide CheckCallee;
    hide EvalCallee;
    hide Consistent;
    hide Conforms;
    hide Significant;
    hide Grammatical;
    hide Expressions;
    var s1 := s.(steps := s.steps - 1);
    var f, arguments := n.Get(FunctionField).value, n.Get(ArgumentsField).value;
    FieldGrammatical(n, FunctionField);
    FieldGrammatical(n, ArgumentsField);
    HeldExpressions(arguments);
    ConsistentSteps(s, s1, w, m);
    var s2 := CheckArguments(Significant(arguments.children), lang, depth + 1, s1).value;
    ArgumentsKeepNames(Significant(arguments.children), lang, depth + 1, s1);
    SoundCallee(n, f, arguments, lang, depth, s1, s2, w, m);
  }

  lemma {:induction false} SoundCallee(n: Node, f: Node, arguments: Node, lang: Language, depth: nat, s1: State,
          s2: State, w: World, m: Machine)
    requires f in n.children && arguments in n.children && Grammatical(f)
    requires depth < MAX_DEPTH && ArgumentsPass(arguments, lang, depth, s1, s2) && Consistent(s1, m, w)
    requires CheckCallee(f, Significant(arguments.children), lang, depth, s2).Some?
    ensures var c := CheckCallee(f, Significant(arguments.children), lang, depth, s2).value;
            Conforms(c.kind, c.state, m, EvalCallee(n, f, arguments, lang, w, m), w)
    decreases MAX_DEPTH - depth, 3, 1
  {
    hide CheckExpression;
    hide EvalNamedCall;
    hide EvalConsoleCall;
    hide EvalMethodCall;
    hide NamedCall;
    hide MethodCall;
    hide Consistent;
    hide Conforms;
    hide Significant;
    hide IsConsoleMethod;
    hide Grammatical;
    hide ArgumentsPass;
    ConsistentProper(s1, w, m);
    if f.kind == Identifier {
      NamedSpelling(lang, f.text, Significant(arguments.children), w);
      SoundNamed(n, f.text, arguments, lang, depth, s1, s2, w, m);
    } else {
      FieldExpression(f, ObjectField);
      var target, member := f.Get(ObjectField).value, f.GetEither(AttributeField, PropertyField).value.text;
      if lang == JavaScript && target.kind == Identifier && target.text == "console" {
        ConsoleUnbound(s1, w, m);
        ConsoleSpelling(member, w);
        SoundConsole(n, member, arguments, lang, depth, s1, s2, w, m);
      } else {
        ArgumentsFacts(arguments, lang, depth, s1, s2);
        NoConsole(target, lang, depth, s1, s2, w, m);
        MethodSpelling(CheckExpression(target, lang, depth + 1, s2).value.kind, member, w);
        SoundMethod(n, f, target, member, arguments, lang, depth, s1, s2, w, m);
      }
    }
  }

  lemma ConsistentSteps(s: State, s': State, w: World, m: Machine)
    requires Consistent(s, m, w) && s'.values == s.values
    ensures Consistent(s', m, w)
  {}

  lemma ConsistentProper(s: State, w: World, m: Machine)
    requires Consistent(s, m, w)
    ensures Proper(w)
  {}

  lemma NamedSpelling(lang: Language, name: string, args: seq<Node>, w: World)
    requires NamedCall(lang, name, args).Some? && Proper(w)
    ensures w.canon(name) == name
  {
    ApiSpelling(name, w);
  }

  lemma ConsoleSpelling(member: string, w: World)
    requires IsConsoleMethod(member) && Proper(w)
    ensures w.canon(member) == member
  {
    ConsoleTable(member);
    ApiSpelling(member, w);
  }

  lemma MethodSpelling(k: Abstract, member: string, w: World)
    requires MethodCall(k, member).Some? && Proper(w)
    ensures w.canon(member) == member
  {
    MethodTable(k, member);
    hide MethodCall;
    ApiSpelling(member, w);
  }

  /** A receiver that passes as a bound name is not another spelling of the console. */
  lemma NoConsole(target: Node, lang: Language, depth: nat, s1: State, s2: State, w: World, m: Machine)
    requires depth < MAX_DEPTH && Consistent(s1, m, w) && s2.values == s1.values
    requires CheckExpression(target, lang, depth + 1, s2).Some?
    ensures !IsConsole(target, lang, w, m)
  {
    TracksApart(s1.values, m, w);
    hide Tracks;
    if target.kind == Identifier {
      assert target.text in s1.values.Keys;
    }
  }

  lemma ConsoleUnbound(s: State, w: World, m: Machine)
    requires Consistent(s, m, w)
    ensures "console" !in m.env && w.canon("console") == "console"
  {
    TracksFree(s.values, m, w);
    TracksApart(s.values, m, w);
    ApiSpelling("console", w);
    hide Tracks;
  }

  /** What the checks of a call say about its arguments. */
  predicate ArgumentsPass(arguments: Node, lang: Language, depth: nat, s1: State, s2: State)
    requires depth < MAX_DEPTH
  {
    && Expressions(arguments.children)
    && CheckArguments(Significant(arguments.children), lang, depth + 1, s1) == Some(s2)
    && s2.values == s1.values
  }

  lemma {:induction false} SoundNamed(n: Node, name: string, arguments: Node, lang: Language, depth: nat, s1: State,
          s2: State, w: World, m: Machine)
    requires depth < MAX_DEPTH && ArgumentsPass(arguments, lang, depth, s1, s2) && Consistent(s1, m, w)
    requires NamedCall(lang, name, Significant(arguments.children)).Some?
    ensures Conforms(NamedCall(lang, name, Significant(arguments.children)).value, s2, m,
              EvalNamedCall(n, name, arguments, lang, w, m), w)
    decreases MAX_DEPTH - depth, 3, 0
  {
    hide CheckArguments;
    hide EvalArgs;
    hide CallNamed;
    hide NamedCall;
    hide SafeTrace;
    hide Significant;
    hide Reserved;
    hide Tracks;
    hide Expressions;
    hide PlainArgs;
    hide Free;
    NamedIsUnbound(lang, name, Significant(arguments.children), s1, w, m);
    SoundArguments(arguments.children, lang, depth + 1, s1, w, m);
    var a := EvalArgs(arguments.children, lang, w, m);
    if a.args.Some? {
      SoundNamedCall(n, name, a.args.value, lang, w, a.machine, s2);
    }
  }

  lemma {:induction false} SoundConsole(n: Node, member: string, arguments: Node, lang: Language, depth: nat, s1: State,
          s2: State, w: World, m: Machine)
    requires depth < MAX_DEPTH && ArgumentsPass(arguments, lang, depth, s1, s2) && Consistent(s1, m, w)
    requires IsConsoleMethod(member)
    ensures Conforms(Scalar, s2, m, EvalConsoleCall(n, member, arguments, lang, w, m), w)
    decreases MAX_DEPTH - depth, 3, 0
  {
    hide CheckArguments;
    hide EvalArgs;
    hide SafeTrace;
    hide Significant;
    hide Tracks;
    hide Expressions;
    hide PlainArgs;
    hide Free;
    ConsoleTable(member);
    hide IsConsoleMethod;
    SoundArguments(arguments.children, lang, depth + 1, s1, w, m);
    var a := EvalArgs(arguments.children, lang, w, m);
    if a.args.Some? {
      PerformConforms(Console(member, a.args.value), x => ScalarV(x), w, a.machine, Scalar, s2);
    }
  }

  /** A method call: the receiver, the arguments, the call itself. */
  lemma {:induction false} SoundMethod(n: Node, f: Node, target: Node, member: string, arguments: Node, lang: Language,
          depth: nat,
                                       s1: State, s2: State, w: World, m: Machine)
    requires f in n.children && arguments in n.children && target in f.children
    requires depth < MAX_DEPTH && ArgumentsPass(arguments, lang, depth, s1, s2) && Consistent(s1, m, w)
    requires IsExpression(target) && CheckExpression(target, lang, depth + 1, s2).Some?
    requires MethodCall(CheckExpression(target, lang, depth + 1, s2).value.kind, member).Some?
    ensures var c := CheckExpression(target, lang, depth + 1, s2).value;
            Conforms(MethodCall(c.kind, member).value, c.state, m,
                EvalMethodCall(n, f, target, member, arguments, lang, w, m), w)
    decreases MAX_DEPTH - depth, 3, 0
  {
    hide *;
    var c, r := CheckExpression(target, lang, depth + 1, s2).value, Eval(target, lang, w, m);
    ArgumentsFacts(arguments, lang, depth, s1, s2);
    MethodCases(n, f, target, member, arguments, lang, w, m);
    var k := MethodCall(c.kind, member).value;
    EqualNames(s1, s2, m, w);
    SoundPart(target, lang, depth + 1, s2, w, m);
    if r.outcome.Raised? {
      ExpressionFails(c.kind, c.state, k, c.state, s1.values, m, r, w);
    } else {
      AfterExpression(c.kind, c.state, s1, m, r, w);
      SoundArguments(arguments.children, lang, depth + 1, s1, w, r.machine);
      var a := EvalArgs(arguments.children, lang, w, r.machine);
      if a.args.None? {
        ListFails(s1.values, k, c.state, m, r.machine, a.machine, w);
      } else {
        AfterList(s1.values, c.state, r.machine, a.machine, w);
        KindLasts(r.outcome.value, c.kind, r.machine.trace, a.machine.trace);
        SoundMethodCall(n, r.outcome.value, c.kind, member, a.args.value, w, a.machine, c.state);
        Continues(k, c.state, m, a.machine, CallMethod(n, r.outcome.value, member, a.args.value, w, a.machine), w);
      }
    }
  }

  lemma ArgumentsFacts(arguments: Node, lang: Language, depth: nat, s1: State, s2: State)
    requires depth < MAX_DEPTH && ArgumentsPass(arguments, lang, depth, s1, s2)
    ensures Expressions(arguments.children)
            && CheckArguments(Significant(arguments.children), lang, depth + 1, s1).Some?
    ensures s2.values == s1.values
  {
    hide Expressions;
    hide CheckArguments;
  }

  lemma MethodCases(n: Node, f: Node, target: Node, member: string, arguments: Node, lang: Language, w: World,
                    m: Machine)
    requires f in n.children && arguments in n.children && target in f.children
    ensures var r, all := Eval(target, lang, w, m), EvalMethodCall(n, f, target, member, arguments, lang, w, m);
            if r.outcome.Raised? then all == r else
            var a := EvalArgs(arguments.children, lang, w, r.machine);
            all == if a.args.None? then Run(Raised, a.machine)
              else CallMethod(n, r.outcome.value, member, a.args.value, w, a.machine)
  {
    hide Eval;
    hide EvalArgs;
    hide CallMethod;
  }

  lemma NamedIsUnbound(lang: Language, name: string, args: seq<Node>, s: State, w: World, m: Machine)
    requires NamedCall(lang, name, args).Some? && Tracks(s.values, m, w)
    ensures name !in m.env
  {
    TracksFree(s.values, m, w);
    hide Tracks;
    assert name in API_NAMES;
  }

  lemma KindLasts(v: Value, k: Abstract, trace: seq<Effect>, later: seq<Effect>)
    requires HasKind(v, k, trace) && trace <= later
    ensures HasKind(v, k, later)
  {}

  lemma OpensSomething(args: seq<Arg>)
    requires PlainOpen(Written(args))
    ensures args != []
  {
    hide PlainOption;
    hide Positional;
  }

  lemma SoundNamedCall(n: Node, name: string, args: seq<Arg>, lang: Language, w: World, m: Machine, s: State)
    requires Consistent(s, m, w) && PlainArgs(args)
    requires NamedCall(lang, name, Written(args)).Some?
    ensures Conforms(NamedCall(lang, name, Written(args)).value, s, m, CallNamed(n, name, args, lang, w, m), w)
  {
    hide SafeTrace;
    hide PlainOpen;
    hide OpensPlainly;
    hide IsFsSpelling;
    hide Tracks;
    hide Free;
    if lang == Python && name == "print" {
      PerformConforms(Print(args), a => ScalarV(a), w, m, Scalar, s);
    } else if lang == Python {
      OpenTable(Written(args));
      OpensSomething(args);
      PerformConforms(Open(args), _ => FileV(|m.trace|), w, m, File, s);
    } else {
      assert |Written(args)| == 1 && Written(args)[0] == args[0].node && |args| == 1;
      ConsistentProper(s, w, m);
      FileSystemTable(args[0].node.text, w);
      var library := w.text(args[0].node.text);
      PerformConforms(Require(library, args), _ => ModuleV(library), w, m, NodeFs, s);
    }
  }

  lemma SoundMethodCall(n: Node, receiver: Value, k: Abstract, member: string, args: seq<Arg>, w: World, m: Machine,
                        s: State)
    requires Consistent(s, m, w) && PlainArgs(args) && HasKind(receiver, k, m.trace)
    requires MethodCall(k, member).Some?
    ensures Conforms(MethodCall(k, member).value, s, m, CallMethod(n, receiver, member, args, w, m), w)
  {
    MethodTable(k, member);
    hide SafeTrace;
    hide IsTextMethod;
    hide IsFileWrite;
    hide IsFsWrite;
    hide Tracks;
    hide Free;
    match receiver
    case TextV(t) => PerformConforms(TextMethod(member, t, args), a => TextV(a), w, m, Text, s);
    case FileV(h) =>
      if member == "read" {
        PerformConforms(FileMethod(member, h, args), a => TextV(a), w, m, Text, s);
      } else {
        PerformConforms(FileMethod(member, h, args), a => ScalarV(a), w, m, Scalar, s);
      }
    case ModuleV(name) =>
      if member == "readFileSync" {
        PerformConforms(ModuleMethod(member, name, args), a => TextV(a), w, m, Text, s);
      } else {
        PerformConforms(ModuleMethod(member, name, args), a => ScalarV(a), w, m, Scalar, s);
      }
  }

  /** What a run of an accepted program keeps to: nothing is asked of the world but plain text,
      console and file operations, the API names are never rebound, and if the run ends every
      name has a value of its recorded kind. */
  ghost predicate Inert(root: Node, lang: Language, w: World)
    requires Accepted(root, lang)
  {
    var c, r := Verdict(root, lang), Eval(root, lang, w, Machine(map[], []));
    && SafeTrace(r.machine.trace) && Free(r.machine)
    && (r.outcome.Returned? ==>
          && HasKind(r.outcome.value, c.kind, r.machine.trace)
          && r.machine.env.Keys == Images(c.state.values.Keys, w.canon)
          && forall x :: x in c.state.values ==>
               w.canon(x) in r.machine.env && HasKind(r.machine.env[w.canon(x)], c.state.values[x], r.machine.trace))
  }

  predicate Accepted(root: Node, lang: Language) {
    CheckExpression(root, lang, 0, State(map[], [], MAX_STEPS)).Some?
  }

  function Verdict(root: Node, lang: Language): Checked
    requires Accepted(root, lang)
  {
    CheckExpression(root, lang, 0, State(map[], [], MAX_STEPS)).value
  }

  /** Type soundness: an accepted program whose names are apart is inert, whatever the world answers. */
  lemma AcceptedProgramsAreInert(root: Node, lang: Language, w: World)
    requires Grammatical(root) && Accepted(root, lang) && Proper(w)
    requires Apart(Verdict(root, lang).state.values.Keys, w.canon, w.fixed)
    ensures Inert(root, lang, w)
  {
    SoundExpression(root, lang, 0, State(map[], [], MAX_STEPS), w, Machine(map[], []));
  }
}

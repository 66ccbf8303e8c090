/** Which names keep the documentation proof (src/ast_matcher.rs) sound, and programs that show it. */
module InertNames {
  import opened Decoding
  import opened InertProof
  import opened InertRun
  import opened InertSoundness
  import opened Spelling
  import opened Syntax
  import opened Trees
  import opened Wrappers

  // ------------------------------------------------------------ small programs

  /** `name(arg)` in Python. */
  function Calling(name: string, arg: Node, at: nat): Node {
    CallOf(Python, Name(name, at), arg)
  }

  /** Where the binding in a binding statement starts. */
  function BindingAt(lang: Language, at: nat): nat {
    if lang == Python then at else at + 4
  }

  /** `x = value` as a Python statement, `var x = value;` in JavaScript. */
  function Bind(lang: Language, x: string, value: Node, at: nat): Node {
    var b := Assigning(lang, x, value, BindingAt(lang, at));
    if lang == Python then Statement(Python, b) else Declaration(VariableDeclaration, "var", b, at)
  }

  /** The statement that binds `x` to the text `a`, and the one that binds it to `1`. */
  function BindWord(lang: Language, x: string, at: nat): Node {
    Bind(lang, x, Str("a", ValueAt(x, BindingAt(lang, at))), at)
  }

  function BindNumber(lang: Language, x: string, at: nat): Node {
    Bind(lang, x, Leaf(ScalarLiteral, "1", ValueAt(x, BindingAt(lang, at))), at)
  }

  /** A node whose children, a few at most, have none themselves and are not evaluated. */
  predicate IsFlat(n: Node) {
    |n.children| <= 3 && forall c :: c in n.children ==> c.children == [] && !c.IsInterpolation()
  }

  const START: State := State(map[], [], MAX_STEPS)

  // ------------------------------------------------------- how they are checked

  lemma Bounds()
    ensures MAX_DEPTH == 64 && MAX_NAMES == 128 && MAX_STEPS == 16384
  {}

  lemma LeafChecks(n: Node, lang: Language, depth: nat, s: State)
    requires IsFlat(n)
             && (n.kind == StringLiteral || n.kind == ScalarLiteral || (n.kind == Identifier && n.text in s.values))
    requires depth < MAX_DEPTH && s.steps > 3
    ensures var c := CheckExpression(n, lang, depth, s);
            && c.Some? && c.value.state.values == s.values && c.value.state.steps >= s.steps - 4
            && c.value.kind ==
               if n.kind == StringLiteral then Text else if n.kind == ScalarLiteral then Scalar else s.values[n.text]
  {
    LeafString(n, lang, depth, s.(steps := s.steps - 1));
    hide CheckString;
  }

  lemma LeafString(n: Node, lang: Language, depth: nat, s: State)
    requires IsFlat(n) && depth < MAX_DEPTH && s.steps >= 3
    ensures var c := CheckString(n, lang, depth, s);
            c.Some? && c.value.kind == Text && c.value.state.values == s.values && c.value.state.steps >= s.steps - 3
  {
    hide ContainsMarker;
    FlatBelow(n.children);
    FlatParts(n.children, lang, depth, s);
    hide CheckParts;
    hide BelowAll;
  }

  lemma {:induction false} FlatBelow(ns: seq<Node>)
    requires forall c :: c in ns ==> c.children == []
    ensures BelowAll(ns) == ns
  {
    if ns != [] {
      FlatBelow(ns[1..]);
      assert Below(ns[0]) == [] && [ns[0]] + [] + ns[1..] == ns;
    }
  }

  lemma {:induction false} FlatParts(ns: seq<Node>, lang: Language, depth: nat, s: State)
    requires depth < MAX_DEPTH && s.steps >= |ns| && forall c :: c in ns ==> !c.IsInterpolation()
    ensures CheckParts(ns, lang, depth, s) == Some(s.(steps := s.steps - |ns|))
    decreases |ns|
  {
    hide CheckExpression;
    hide Operand;
    hide Node.IsInterpolation;
    if ns != [] { FlatParts(ns[1..], lang, depth, s.(steps := s.steps - 1)); }
  }

  lemma OneArgumentChecks(arg: Node, lang: Language, depth: nat, s: State)
    requires arg.kind != KeywordArgument && depth <= MAX_DEPTH && CheckExpression(arg, lang, depth, s).Some?
    requires var k := CheckExpression(arg, lang, depth, s).value.kind; k == Text || k == Scalar
    ensures CheckArguments([arg], lang, depth, s) == Some(CheckExpression(arg, lang, depth, s).value.state)
  {
    assert [arg][1..] == [] && ArgumentValue(arg) == Some(arg);
    hide CheckExpression;
  }

  lemma CalleeChecks(n: Node, f: Node, a: Node, depth: nat, s: State, s': State, k: Abstract)
    requires n.kind == Call && n.Get(FunctionField) == Some(f) && n.Get(ArgumentsField) == Some(a)
    requires f.kind == Identifier && a.kind == ArgumentList && depth + 2 < MAX_DEPTH && s.steps > 2
    requires CheckArguments(Significant(a.children), Python, depth + 2, s.(steps := s.steps - 2)) == Some(s')
    requires NamedCall(Python, f.text, Significant(a.children)) == Some(k)
    ensures CheckExpression(n, Python, depth, s) == Some(Checked(k, s'))
  {
    hide CheckArguments;
    hide Significant;
    hide NamedCall;
    hide Node.Get;
    assert CheckCall(n, Python, depth + 1, s.(steps := s.steps - 1)) == Some(Checked(k, s')) by {
      hide CheckExpression;
    }
    hide CheckCall;
  }

  lemma NamedOfOne(name: string, arg: Node)
    requires arg.kind != KeywordArgument
    ensures NamedCall(Python, "print", [arg]) == Some(Scalar) && NamedCall(Python, "open", [arg]) == Some(File)
  {
    assert [arg][1..] == [];
    assert Positional([arg]) == 1 && PlainOption([arg][0]);
  }

  /** Printing or opening one plain argument. */
  lemma CallChecks(name: string, arg: Node, at: nat, depth: nat, s: State)
    requires name == "print" || name == "open"
    requires arg.named && arg.kind != Comment && arg.kind != KeywordArgument && depth + 2 < MAX_DEPTH && s.steps > 2
    requires var c := CheckExpression(arg, Python, depth + 2, s.(steps := s.steps - 2));
             c.Some? && (c.value.kind == Text || c.value.kind == Scalar)
    ensures var c := CheckExpression(arg, Python, depth + 2, s.(steps := s.steps - 2)).value;
            CheckExpression(Calling(name, arg, at), Python, depth, s)
              == Some(Checked(if name == "print" then Scalar else File, c.state))
  {
    hide *;
    var n := Calling(name, arg, at);
    var a := CallingShape(name, arg, at);
    OneArgumentChecks(arg, Python, depth + 2, s.(steps := s.steps - 2));
    NamedOfOne(name, arg);
    CalleeChecks(n, Name(name, at), a, depth, s,
        CheckExpression(arg, Python, depth + 2, s.(steps := s.steps - 2)).value.state,
                 if name == "print" then Scalar else File);
  }

  lemma CallingShape(name: string, arg: Node, at: nat) returns (a: Node)
    requires arg.named && arg.kind != Comment
    ensures var n, f := Calling(name, arg, at), Name(name, at);
            && n.kind == Call && n.named && n.children == [f, a] && n.Get(FunctionField) == Some(f)
               && n.Get(ArgumentsField) == Some(a)
            && f.kind == Identifier && f.text == name && f.children == []
            && a.kind == ArgumentList && Significant(a.children) == [arg]
            && forall c :: c in a.children ==> c == arg || IsMark(c)
  {
    a := CallShape(Python, Name(name, at), arg);
    hide Significant;
    hide CallOf;
  }

  /** A keyword or punctuation. */
  predicate IsMark(t: Node) {
    !t.named && t.children == [] && t.kind.OtherKind?
  }

  lemma {:induction false} AllSignificant(ns: seq<Node>)
    requires forall n :: n in ns ==> n.named && n.kind != Comment
    ensures Significant(ns) == ns
  {
    if ns != [] { AllSignificant(ns[1..]); }
  }

  /** A node that binds the name `x` to `value`. */
  predicate Binds(b: Node, x: string, value: Node) {
    && b.named && (b.kind == Assignment || b.kind == VariableDeclarator) && |Significant(b.children)| == 2
    && b.GetEither(LeftField, NameField).Some? && b.GetEither(RightField, ValueField) == Some(value)
    && var name := b.GetEither(LeftField, NameField).value;
       && name.kind == Identifier && name.text == x && name.children == []
       && forall c :: c in b.children ==> c == name || c == value || IsMark(c)
  }

  lemma BindingParts(lang: Language, x: string, value: Node, at: nat)
    requires value.named && value.kind != Comment
    ensures Binds(Assigning(lang, x, value, at), x, value)
  {
    hide *;
    BindingShape(lang, x, value, at);
    NameFacts(x, at);
    TokenIsMark("=", Name(x, at).end + 1);
    ShapeBinds(Assigning(lang, x, value, at), x, Name(x, at), Token("=", Name(x, at).end + 1), value);
  }

  lemma NameFacts(x: string, at: nat)
    ensures Name(x, at).kind == Identifier && Name(x, at).text == x && Name(x, at).children == []
  {}

  lemma TokenIsMark(text: string, at: nat)
    ensures IsMark(Token(text, at))
  {}

  lemma ShapeBinds(b: Node, x: string, name: Node, t: Node, value: Node)
    requires b.named && (b.kind == Assignment || b.kind == VariableDeclarator) && b.children == [name, t, value]
    requires Significant(b.children) == [name, value] && IsMark(t)
    requires b.GetEither(LeftField, NameField) == Some(name) && b.GetEither(RightField, ValueField) == Some(value)
    requires name.kind == Identifier && name.text == x && name.children == []
    ensures Binds(b, x, value)
  {
    hide Significant;
    hide Node.GetEither;
  }

  lemma BindsChecks(b: Node, x: string, value: Node, lang: Language, depth: nat, s: State)
    requires Binds(b, x, value) && depth + 1 < MAX_DEPTH && s.steps > 0 && |s.values| < MAX_NAMES && !Reserved(x)
    requires CheckExpression(value, lang, depth + 1, s.(steps := s.steps - 1)).Some?
    ensures var c := CheckExpression(value, lang, depth + 1, s.(steps := s.steps - 1)).value;
            CheckExpression(b, lang, depth, s) == Some(Checked(c.kind, c.state.(values := c.state.values[x := c.kind])))
  {
    hide Significant;
    hide Reserved;
    hide Node.GetEither;
    var c := CheckExpression(value, lang, depth + 1, s.(steps := s.steps - 1)).value;
    assert CheckBinding(b, lang, depth, s.(steps := s.steps - 1))
      == Some(Checked(c.kind, c.state.(values := c.state.values[x := c.kind]))) by {
      hide CheckExpression;
    }
    hide CheckBinding;
    hide Binds;
  }

  lemma BindingChecks(lang: Language, x: string, value: Node, at: nat, depth: nat, s: State)
    requires value.named && value.kind != Comment && depth + 1 < MAX_DEPTH && s.steps > 0 && |s.values| < MAX_NAMES
             && !Reserved(x)
    requires CheckExpression(value, lang, depth + 1, s.(steps := s.steps - 1)).Some?
    ensures var c := CheckExpression(value, lang, depth + 1, s.(steps := s.steps - 1)).value;
            CheckExpression(Assigning(lang, x, value, at), lang, depth, s)
            == Some(Checked(c.kind, c.state.(values := c.state.values[x := c.kind])))
  {
    hide *;
    BindingParts(lang, x, value, at);
    BindsChecks(Assigning(lang, x, value, at), x, value, lang, depth, s);
  }

  lemma OneOfSequence(n: Node, lang: Language, depth: nat, s: State)
    requires depth <= MAX_DEPTH && CheckExpression(n, lang, depth, s).Some?
    ensures CheckSequence([n], lang, depth, s, false) == Some(CheckExpression(n, lang, depth, s).value.state)
  {
    assert [n][1..] == [];
    hide CheckExpression;
  }

  /** A statement around one node. */
  predicate Wraps(n: Node, b: Node) {
    && (n.kind == ExpressionStatement || n.kind == VariableDeclaration) && n.named && Significant(n.children) == [b]
    && forall c :: c in n.children ==> c == b || IsMark(c)
  }

  lemma BindWraps(lang: Language, x: string, value: Node, at: nat)
    requires value.named && value.kind != Comment
    ensures Wraps(Bind(lang, x, value, at), Assigning(lang, x, value, BindingAt(lang, at)))
  {
    hide *;
    var b := Assigning(lang, x, value, BindingAt(lang, at));
    BindingParts(lang, x, value, BindingAt(lang, at));
    BindingNamed(b, x, value);
    BindForm(lang, x, value, at);
    if lang == Python {
      DoWraps(b);
    } else {
      DeclarationShape(VariableDeclaration, "var", b, at);
      TokenIsMark("var", at);
      TokenIsMark(";", b.end);
      ShapeWraps(Declaration(VariableDeclaration, "var", b, at), Token("var", at), b, Token(";", b.end));
    }
  }

  lemma BindForm(lang: Language, x: string, value: Node, at: nat)
    ensures var b := Assigning(lang, x, value, BindingAt(lang, at));
            Bind(lang, x, value, at) ==
            if lang == Python then Statement(Python, b) else Declaration(VariableDeclaration, "var", b, at)
  {
    hide Assigning;
    hide Statement;
    hide Declaration;
  }

  lemma ShapeWraps(n: Node, s: Node, b: Node, t: Node)
    requires n.kind == VariableDeclaration && n.named && n.children == [s, b, t] && Significant(n.children) == [b]
             && IsMark(s) && IsMark(t)
    ensures Wraps(n, b)
  {
    hide Significant;
  }

  lemma DoWraps(call: Node)
    requires call.named && call.kind != Comment
    ensures Wraps(Statement(Python, call), call) && Statement(Python, call).kind == ExpressionStatement
  {
    StatementShape(Python, call);
    hide Significant;
    hide Statement;
  }

  lemma WrapChecks(n: Node, b: Node, lang: Language, depth: nat, s: State)
    requires Wraps(n, b) && depth + 1 < MAX_DEPTH && s.steps > 0
    requires CheckExpression(b, lang, depth + 1, s.(steps := s.steps - 1)).Some?
    ensures var r := CheckExpression(n, lang, depth, s);
            r.Some? && r.value.state == CheckExpression(b, lang, depth + 1, s.(steps := s.steps - 1)).value.state
  {
    hide Significant;
    hide CheckSequence;
    hide CheckParts;
    hide CheckCall;
    hide CheckBinding;
    hide CheckBinary;
    hide ContainsMarker;
    hide Below;
    OneOfSequence(b, lang, depth + 1, s.(steps := s.steps - 1));
  }

  /** What a binding statement leaves behind. */
  lemma BindChecks(lang: Language, x: string, value: Node, at: nat, s: State)
    requires value.named && value.kind != Comment && s.steps > 2 && |s.values| < MAX_NAMES && !Reserved(x)
    requires CheckExpression(value, lang, 3, s.(steps := s.steps - 2)).Some?
    ensures var c := CheckExpression(value, lang, 3, s.(steps := s.steps - 2)).value;
            var r := CheckExpression(Bind(lang, x, value, at), lang, 1, s);
            r.Some? && r.value.state == c.state.(values := c.state.values[x := c.kind])
  {
    hide *;
    Bounds();
    BindingChecks(lang, x, value, BindingAt(lang, at), 2, s.(steps := s.steps - 1));
    BindWraps(lang, x, value, at);
    WrapChecks(Bind(lang, x, value, at), Assigning(lang, x, value, BindingAt(lang, at)), lang, 1, s);
  }

  lemma MoreStatements(n: Node, rest: seq<Node>, lang: Language, s: State)
    requires CheckExpression(n, lang, 1, s).Some?
    ensures CheckSequence([n] + rest, lang, 1, s, false)
            == CheckSequence(rest, lang, 1, CheckExpression(n, lang, 1, s).value.state, false)
  {
    assert ([n] + rest)[1..] == rest;
    hide CheckExpression;
  }

  lemma TopChecks(lang: Language, statements: seq<Node>)
    requires forall n :: n in statements ==> n.named && n.kind != Comment
    requires CheckSequence(statements, lang, 1, START.(steps := MAX_STEPS - 1), false).Some?
    ensures Accepted(Top(lang, statements), lang)
    ensures Verdict(Top(lang, statements), lang)
         == Checked(Scalar, CheckSequence(statements, lang, 1, START.(steps := MAX_STEPS - 1), false).value)
  {
    AllSignificant(statements);
    hide CheckSequence;
    hide Significant;
  }

  // ------------------------------------------------------------- how they run

  lemma LeafRuns(n: Node, lang: Language, w: World, m: Machine)
    requires IsFlat(n)
             && (n.kind == StringLiteral || n.kind == ScalarLiteral
                || (n.kind == Identifier && w.canon(n.text) in m.env))
    ensures var v := if n.kind == StringLiteral then TextV(w.spell(n, []))
            else if n.kind == ScalarLiteral then ScalarV(n.text)
                     else m.env[w.canon(n.text)];
            Eval(n, lang, w, m) == Run(Returned(v), m)
  {
    FlatRuns(n.children, -1, lang, w, m);
    hide EvalParts;
  }

  lemma {:induction false} FlatRuns(ns: seq<Node>, skip: int, lang: Language, w: World, m: Machine)
    requires skip < 0 && forall c :: c in ns ==> c.children == [] && !c.IsInterpolation()
    ensures EvalParts(ns, skip, lang, w, m) == Runs(Some([]), m)
    decreases |ns|
  {
    if ns != [] {
      assert EvalParts(ns[0].children, -1, lang, w, m) == Runs(Some([]), m);
      FlatRuns(ns[1..], skip - 1, lang, w, m);
      var none: seq<Value> := [];
      assert none + none == none;
    }
  }

  /** What is not significant is not evaluated. */
  lemma {:induction false} ArgsSignificant(ns: seq<Node>, lang: Language, w: World, m: Machine)
    ensures EvalArgs(ns, lang, w, m) == EvalArgs(Significant(ns), lang, w, m)
    decreases |ns|
  {
    hide Eval;
    hide ArgumentValue;
    SignificantStep(ns);
    if ns != [] {
      if ns[0].named && ns[0].kind != Comment {
        var value := ArgumentValue(ns[0]);
        if value.Some? && Eval(value.value, lang, w, m).outcome.Returned? {
          ArgsSignificant(ns[1..], lang, w, Eval(value.value, lang, w, m).machine);
        }
      } else {
        ArgsSignificant(ns[1..], lang, w, m);
      }
    }
  }

  lemma {:induction false} AllSignificantRun(ns: seq<Node>, lang: Language, w: World, m: Machine)
    ensures EvalAll(ns, lang, w, m) == EvalAll(Significant(ns), lang, w, m)
    decreases |ns|
  {
    hide Eval;
    SignificantStep(ns);
    if ns != [] {
      if ns[0].named && ns[0].kind != Comment {
        var r := Eval(ns[0], lang, w, m);
        if r.outcome.Returned? { AllSignificantRun(ns[1..], lang, w, r.machine); }
      } else {
        AllSignificantRun(ns[1..], lang, w, m);
      }
    }
  }

  lemma OneArgumentRuns(arg: Node, lang: Language, w: World, m: Machine)
    requires arg.named && arg.kind != Comment && arg.kind != KeywordArgument && Eval(arg, lang, w, m).outcome.Returned?
    ensures var r := Eval(arg, lang, w, m);
            EvalArgs([arg], lang, w, m) == ArgRuns(Some([Arg(arg, r.outcome.value)]), r.machine)
  {
    var r := Eval(arg, lang, w, m);
    hide Eval;
    assert [arg][1..] == [] && ArgumentValue(arg) == Some(arg);
    assert EvalArgs([], lang, w, r.machine) == ArgRuns(Some([]), r.machine);
    assert [Arg(arg, r.outcome.value)] + [] == [Arg(arg, r.outcome.value)];
  }

  lemma CalleeRuns(n: Node, f: Node, a: Node, name: string, args: seq<Arg>, w: World, m: Machine)
    requires n.kind == Call && n.Get(FunctionField) == Some(f) && n.Get(ArgumentsField) == Some(a)
    requires f.kind == Identifier && w.canon(f.text) == name && a.kind == ArgumentList && name !in m.env
    requires EvalArgs(a.children, Python, w, m) == ArgRuns(Some(args), m)
    ensures Eval(n, Python, w, m) == CallNamed(n, name, args, Python, w, m)
  {
    hide EvalArgs;
    hide CallNamed;
    hide Node.Get;
    assert EvalNamedCall(n, name, a, Python, w, m) == CallNamed(n, name, args, Python, w, m) by { hide Eval; }
    hide EvalNamedCall;
    assert EvalCall(n, Python, w, m) == CallNamed(n, name, args, Python, w, m) by { hide Eval; }
    hide EvalCall;
  }

  lemma CallRuns(name: string, arg: Node, at: nat, w: World, m: Machine, v: Value)
    requires name in API_NAMES && Proper(w) && name !in m.env
    requires arg.named && arg.kind != Comment && arg.kind != KeywordArgument
             && Eval(arg, Python, w, m) == Run(Returned(v), m)
    ensures var n := Calling(name, arg, at); Eval(n, Python, w, m) == CallNamed(n, name, [Arg(arg, v)], Python, w, m)
  {
    hide *;
    ApiSpelling(name, w);
    var a := CallingShape(name, arg, at);
    OneArgumentRuns(arg, Python, w, m);
    ArgsSignificant(a.children, Python, w, m);
    CalleeRuns(Calling(name, arg, at), Name(name, at), a, name, [Arg(arg, v)], w, m);
  }

  lemma OneOfAll(n: Node, lang: Language, w: World, m: Machine)
    requires n.named && n.kind != Comment
    ensures var r, a := Eval(n, lang, w, m), EvalAll([n], lang, w, m);
            a.machine == r.machine && (a.values.Some? <==> r.outcome.Returned?)
  {
    assert [n][1..] == [];
    hide Eval;
  }

  lemma BindsRuns(b: Node, x: string, value: Node, lang: Language, w: World, m: Machine)
    requires Binds(b, x, value) && Eval(value, lang, w, m).outcome.Returned?
    ensures var r := Eval(value, lang, w, m);
            Eval(b, lang, w, m) == r.(machine := Store(r.machine, w.canon(x), r.outcome.value, w))
  {
    hide Significant;
    hide Node.GetEither;
    hide Store;
    var r := Eval(value, lang, w, m);
    assert EvalBinding(b, lang, w, m) == r.(machine := Store(r.machine, w.canon(x), r.outcome.value, w)) by {
      hide Eval;
    }
    hide EvalBinding;
    hide Binds;
  }

  lemma WrapRuns(n: Node, b: Node, lang: Language, w: World, m: Machine)
    requires Wraps(n, b) && b.named && b.kind != Comment && Eval(b, lang, w, m).outcome.Returned?
    ensures Eval(n, lang, w, m).outcome.Returned? && Eval(n, lang, w, m).machine == Eval(b, lang, w, m).machine
  {
    OneOfAll(b, lang, w, m);
    AllSignificantRun(n.children, lang, w, m);
    hide Significant;
    hide EvalAll;
  }

  /** A binding statement binds the name that its spelling stands for. */
  lemma BindRuns(lang: Language, x: string, value: Node, at: nat, w: World, m: Machine)
    requires value.named && value.kind != Comment && Eval(value, lang, w, m).outcome.Returned?
    ensures var r := Eval(value, lang, w, m);
            var b := Eval(Bind(lang, x, value, at), lang, w, m);
            b.outcome.Returned? && b.machine == Store(r.machine, w.canon(x), r.outcome.value, w)
  {
    hide *;
    var b := Assigning(lang, x, value, BindingAt(lang, at));
    BindingParts(lang, x, value, BindingAt(lang, at));
    BindWraps(lang, x, value, at);
    BindingNamed(b, x, value);
    BindsRuns(b, x, value, lang, w, m);
    WrapRuns(Bind(lang, x, value, at), b, lang, w, m);
  }

  lemma BindingNamed(b: Node, x: string, value: Node)
    requires Binds(b, x, value)
    ensures b.named && b.kind != Comment && !HoldsExpressions(b.kind)
  {}

  lemma MoreRuns(n: Node, rest: seq<Node>, lang: Language, w: World, m: Machine)
    requires n.named && n.kind != Comment && Eval(n, lang, w, m).outcome.Returned?
    ensures var r := Eval(n, lang, w, m);
            var a, b := EvalAll([n] + rest, lang, w, m), EvalAll(rest, lang, w, r.machine);
            a.machine == b.machine && (a.values.Some? <==> b.values.Some?)
  {
    assert ([n] + rest)[1..] == rest;
    hide Eval;
  }

  lemma TopRuns(lang: Language, statements: seq<Node>, w: World)
    ensures var r, a := Eval(Top(lang, statements), lang, w, Machine(map[], [])),
              EvalAll(statements, lang, w, Machine(map[], []));
            r.machine == a.machine && (r.outcome.Returned? <==> a.values.Some?)
  {
    hide EvalAll;
  }

  // ----------------------------------------------------------------- grammar

  lemma {:induction false} AllGrammatical(ns: seq<Node>)
    requires forall n :: n in ns ==> Grammatical(n)
    ensures GrammaticalAll(ns)
  {
    hide Grammatical;
    if ns != [] { AllGrammatical(ns[1..]); }
  }

  lemma NodeGrammatical(n: Node)
    requires forall c :: c in n.children ==> Grammatical(c) && (HoldsExpressions(n.kind) ==> !IsStatement(c.kind))
    ensures Grammatical(n)
  {
    AllGrammatical(n.children);
    hide GrammaticalAll;
  }

  lemma MarkGrammatical(t: Node)
    requires t.children == []
    ensures Grammatical(t)
  {}

  lemma CallGrammatical(name: string, arg: Node, at: nat)
    requires arg.named && arg.kind != Comment && Grammatical(arg) && !IsStatement(arg.kind)
    ensures Grammatical(Calling(name, arg, at))
  {
    hide *;
    var a := CallingShape(name, arg, at);
    MarkGrammatical(Name(name, at));
    ListGrammatical(a, arg);
    PairGrammatical(Calling(name, arg, at), Name(name, at), a);
  }

  lemma ListGrammatical(a: Node, arg: Node)
    requires a.kind == ArgumentList && Grammatical(arg) && !IsStatement(arg.kind)
    requires forall c :: c in a.children ==> c == arg || IsMark(c)
    ensures Grammatical(a)
  {
    hide Grammatical;
    forall c | c in a.children ensures Grammatical(c) && !IsStatement(c.kind) {
      if c != arg { MarkGrammatical(c); }
    }
    NodeGrammatical(a);
  }

  lemma PairGrammatical(n: Node, f: Node, a: Node)
    requires n.children == [f, a] && Grammatical(f) && Grammatical(a) && f.kind == Identifier && a.kind == ArgumentList
    ensures Grammatical(n)
  {
    hide Grammatical;
    NodeGrammatical(n);
  }

  lemma BindsGrammatical(b: Node, x: string, value: Node)
    requires Binds(b, x, value) && Grammatical(value)
    ensures Grammatical(b)
  {
    BindingNamed(b, x, value);
    hide Grammatical;
    hide Significant;
    hide HoldsExpressions;
    forall c | c in b.children ensures Grammatical(c) {
      if c != value { MarkGrammatical(c); }
    }
    NodeGrammatical(b);
  }

  lemma WrapsGrammatical(n: Node, b: Node)
    requires Wraps(n, b) && Grammatical(b)
    ensures Grammatical(n) && n.named && n.kind != Comment
  {
    hide Grammatical;
    hide Significant;
    forall c | c in n.children ensures Grammatical(c) {
      if c != b { MarkGrammatical(c); }
    }
    assert !HoldsExpressions(n.kind);
    NodeGrammatical(n);
  }

  lemma BindGrammatical(lang: Language, x: string, value: Node, at: nat)
    requires value.named && value.kind != Comment && Grammatical(value)
    ensures var n := Bind(lang, x, value, at); Grammatical(n) && n.named && n.kind != Comment
  {
    hide *;
    var b := Assigning(lang, x, value, BindingAt(lang, at));
    BindingParts(lang, x, value, BindingAt(lang, at));
    BindsGrammatical(b, x, value);
    BindWraps(lang, x, value, at);
    WrapsGrammatical(Bind(lang, x, value, at), b);
  }

  lemma TopGrammatical(lang: Language, statements: seq<Node>)
    requires forall n :: n in statements ==> Grammatical(n)
    ensures Grammatical(Top(lang, statements))
  {
    hide Grammatical;
    NodeGrammatical(Top(lang, statements));
  }

  // ------------------------------------------------------------ what they show

  lemma CallStatement(name: string, arg: Node, at: nat)
    requires arg.named && arg.kind != Comment && Grammatical(arg) && !IsStatement(arg.kind)
    ensures var call, n := Calling(name, arg, at), Statement(Python, Calling(name, arg, at));
            && call.named && call.kind != Comment && Grammatical(call)
            && Wraps(n, call) && Grammatical(n) && n.named && n.kind == ExpressionStatement
  {
    hide *;
    CallGrammatical(name, arg, at);
    var a := CallingShape(name, arg, at);
    CallIsNoComment(Calling(name, arg, at));
    DoWraps(Calling(name, arg, at));
    WrapsGrammatical(Statement(Python, Calling(name, arg, at)), Calling(name, arg, at));
  }

  lemma CallIsNoComment(n: Node)
    ensures n.kind == Call ==> n.kind != Comment
  {}

  /** Strings, numbers and names as they stand in these programs. */
  lemma Atoms(s: string, at: nat)
    ensures var n := Str(s, at); n.named && n.kind == StringLiteral && IsFlat(n) && Grammatical(n)
    ensures var n := Leaf(ScalarLiteral, "1", at); n.named && n.kind == ScalarLiteral && IsFlat(n) && Grammatical(n)
    ensures var n := Name("x", at); n.named && n.kind == Identifier && n.text == "x" && IsFlat(n) && Grammatical(n)
  {
    hide *;
    FlatString(s, at);
    FlatLeaf(ScalarLiteral, "1", at);
    FlatLeaf(Identifier, "x", at);
    AtomKinds();
    NameIsLeaf("x", at);
    FlatGrammatical(Str(s, at));
    FlatGrammatical(Leaf(ScalarLiteral, "1", at));
    FlatGrammatical(Name("x", at));
  }

  lemma AtomKinds()
    ensures !HoldsExpressions(StringLiteral) && !HoldsExpressions(ScalarLiteral) && !HoldsExpressions(Identifier)
  {}

  lemma NameIsLeaf(x: string, at: nat)
    ensures Name(x, at) == Leaf(Identifier, x, at)
  {}

  lemma FlatLeaf(kind: Kind, text: string, at: nat)
    ensures var n := Leaf(kind, text, at); n.named && n.kind == kind && n.text == text && IsFlat(n)
  {}

  lemma FlatString(s: string, at: nat)
    ensures var n := Str(s, at); n.named && n.kind == StringLiteral && IsFlat(n)
  {}

  lemma FlatGrammatical(n: Node)
    requires IsFlat(n) && !HoldsExpressions(n.kind)
    ensures Grammatical(n)
  {
    hide Grammatical;
    forall c | c in n.children ensures Grammatical(c) { MarkGrammatical(c); }
    NodeGrammatical(n);
  }

  lemma SimpleKinds()
    ensures !IsStatement(StringLiteral) && !IsStatement(Identifier) && !IsStatement(Call)
    ensures "print" in API_NAMES && "open" in API_NAMES && !Reserved("x") && !Reserved(FULLWIDTH_X)
  {}

  lemma PrintEffect(n: Node, args: seq<Arg>, w: World, m: Machine)
    ensures CallNamed(n, "print", args, Python, w, m).machine == m.(trace := m.trace + [Print(args)])
  {}

  /** `print('...')`. */
  function PrintProgram(s: string): Node {
    Top(Python, [Statement(Python, Calling("print", Str(s, 6), 0))])
  }

  /** The theorem is about something: printing any literal is accepted, and does just that. */
  lemma PrintingIsAccepted(literal: string, w: World)
    requires Proper(w)
    ensures var arg, root := Str(literal, 6), PrintProgram(literal);
            && Grammatical(root) && Accepted(root, Python)
            && Eval(root, Python, w, Machine(map[], [])).machine.trace == [Print([Arg(arg, TextV(w.spell(arg, [])))])]
  {
    hide *;
    Bounds();
    SimpleKinds();
    Empty(w);
    Atoms(literal, 6);
    PrintUnfolded(literal);
    var arg, m := Str(literal, 6), Machine(map[], []);
    var call, s := Calling("print", arg, 0), START.(steps := MAX_STEPS - 1);
    var n := Statement(Python, call);
    CallStatement("print", arg, 0);
    TopGrammatical(Python, [n]);
    LeafChecks(arg, Python, 4, s.(steps := s.steps - 3));
    CallChecks("print", arg, 0, 2, s.(steps := s.steps - 1));
    WrapChecks(n, call, Python, 1, s);
    OneOfSequence(n, Python, 1, s);
    TopChecks(Python, [n]);
    LeafRuns(arg, Python, w, m);
    var args := [Arg(arg, TextV(w.spell(arg, [])))];
    CallRuns("print", arg, 0, w, m, TextV(w.spell(arg, [])));
    PrintEffect(call, args, w, m);
    PrintRuns(n, call, w, m);
    OneOfAll(n, Python, w, m);
    TopRuns(Python, [n], w);
  }

  lemma PrintUnfolded(s: string)
    ensures PrintProgram(s) == Top(Python, [Statement(Python, Calling("print", Str(s, 6), 0))])
    ensures START.(steps := MAX_STEPS - 1).values == map[] && START.(steps := MAX_STEPS - 1).steps == 16383
  {}

  /** A statement leaves the machine as its call does, whether or not the call raises. */
  lemma PrintRuns(n: Node, b: Node, w: World, m: Machine)
    requires Wraps(n, b) && n.kind == ExpressionStatement
    ensures Eval(n, Python, w, m) == Eval(b, Python, w, m)
  {
    hide Significant;
  }

  /** LATIN SMALL LETTER X in its full-width form, which Python reads as `x`. */
  const FULLWIDTH_X: string := "\U{FF58}"

  /** Three statements: `x = 'a'`, then full-width `x = open('f')`, then `print(x)`. */
  function Leak(): Node {
    Top(Python, [BindWord(Python, "x", 0)] + ([BindFile()] + [Showing()]))
  }

  const FILE: Node := Str("f", 19)
  const OPENING: Node := Calling("open", FILE, 14)
  const NAME_X: Node := Name("x", 30)

  /** The variable is a three-byte character. */
  function BindFile(): Node { Bind(Python, FULLWIDTH_X, OPENING, 8) }

  function Showing(): Node { Statement(Python, Calling("print", NAME_X, 24)) }

  // ----------------------------------------------------- the names that are safe

  /** Every accepted program that binds none but these names is inert, in every world that
      identifies names this way and lets a script assign all but the fixed ones. */
  ghost predicate Trustworthy(names: set<string>, lang: Language, canon: string -> string, fixed: set<string>) {
    forall root, w ::
      Grammatical(root) && Accepted(root, lang) && Proper(w) && w.canon == canon && w.fixed == fixed
      && Verdict(root, lang).state.values.Keys <= names
      ==> Inert(root, lang, w)
  }

  /** The value of a JavaScript literal's text, and nothing for any other text. */
  function TextValue(t: string): string {
    match TrueText(t, JavaScript)
    case Some(s) => s
    case None => []
  }

  /** A world that answers everything, and reads and assigns names the given way. */
  function Willing(canon: string -> string, fixed: set<string>): World {
    World((_, _) => Some([]), (_, _) => [], TextValue, canon, fixed)
  }

  lemma WillingIsProper(canon: string -> string, fixed: set<string>)
    requires IsNaming(canon)
    ensures var w := Willing(canon, fixed); Proper(w) && w.canon == canon && w.fixed == fixed
  {
    forall t, s | Spells(t, s, JavaScript) ensures TextValue(t) == s {
      TrueTextExact(t, s, JavaScript);
      hide TrueText;
    }
    hide TextValue;
  }

  /** `x = 'a'`. */
  function OneName(lang: Language, x: string): Node {
    Top(lang, [BindWord(lang, x, 0)])
  }

  /** `x = 'a'` and then `y = 1`. */
  function TwoNames(lang: Language, x: string, y: string): Node {
    Top(lang, [BindWord(lang, x, 0), BindNumber(lang, y, BindWord(lang, x, 0).end + 1)])
  }

  /** A binding statement in context: accepted as a statement, and grammatical. */
  lemma WordChecks(lang: Language, x: string, at: nat, s: State)
    requires s.steps > 20 && |s.values| < 2 && !Reserved(x)
    ensures var n := BindWord(lang, x, at); Grammatical(n) && n.named && n.kind != Comment
    ensures var r := CheckExpression(BindWord(lang, x, at), lang, 1, s);
            r.Some? && r.value.state.values == s.values[x := Text] && r.value.state.steps >= s.steps - 10
  {
    hide *;
    Bounds();
    BindForms(lang, x, at);
    var value := Str("a", ValueAt(x, BindingAt(lang, at)));
    Atoms("a", ValueAt(x, BindingAt(lang, at)));
    LeafChecks(value, lang, 3, s.(steps := s.steps - 2));
    BindChecks(lang, x, value, at, s);
    BindGrammatical(lang, x, value, at);
  }

  lemma NumberChecks(lang: Language, y: string, at: nat, s: State)
    requires s.steps > 20 && |s.values| < 2 && !Reserved(y)
    ensures var n := BindNumber(lang, y, at); Grammatical(n) && n.named && n.kind != Comment
    ensures var r := CheckExpression(BindNumber(lang, y, at), lang, 1, s);
            r.Some? && r.value.state.values == s.values[y := Scalar] && r.value.state.steps >= s.steps - 10
  {
    hide *;
    Bounds();
    BindForms(lang, y, at);
    var value := Leaf(ScalarLiteral, "1", ValueAt(y, BindingAt(lang, at)));
    Atoms("a", ValueAt(y, BindingAt(lang, at)));
    LeafChecks(value, lang, 3, s.(steps := s.steps - 2));
    BindChecks(lang, y, value, at, s);
    BindGrammatical(lang, y, value, at);
  }

  lemma BindForms(lang: Language, x: string, at: nat)
    ensures BindWord(lang, x, at) == Bind(lang, x, Str("a", ValueAt(x, BindingAt(lang, at))), at)
    ensures BindNumber(lang, x, at) == Bind(lang, x, Leaf(ScalarLiteral, "1", ValueAt(x, BindingAt(lang, at))), at)
  {}

  /** What these statements do, given that the names are as they are. */
  lemma WordRuns(lang: Language, x: string, at: nat, w: World, m: Machine) returns (v: Value)
    ensures var r := Eval(BindWord(lang, x, at), lang, w, m);
            v.TextV? && r.outcome.Returned? && r.machine == Store(m, w.canon(x), v, w)
  {
    hide *;
    BindForms(lang, x, at);
    var value := Str("a", ValueAt(x, BindingAt(lang, at)));
    Atoms("a", ValueAt(x, BindingAt(lang, at)));
    LeafRuns(value, lang, w, m);
    BindRuns(lang, x, value, at, w, m);
    v := TextV(w.spell(value, []));
  }

  lemma NumberRuns(lang: Language, y: string, at: nat, w: World, m: Machine) returns (v: Value)
    ensures var r := Eval(BindNumber(lang, y, at), lang, w, m);
            v.ScalarV? && r.outcome.Returned? && r.machine == Store(m, w.canon(y), v, w)
  {
    hide *;
    BindForms(lang, y, at);
    var value := Leaf(ScalarLiteral, "1", ValueAt(y, BindingAt(lang, at)));
    Atoms("a", ValueAt(y, BindingAt(lang, at)));
    LeafRuns(value, lang, w, m);
    BindRuns(lang, y, value, at, w, m);
    v := ScalarV(value.text);
  }

  lemma Unfolded(lang: Language, x: string, y: string)
    ensures OneName(lang, x) == Top(lang, [BindWord(lang, x, 0)])
    ensures TwoNames(lang, x, y)
            == Top(lang, [BindWord(lang, x, 0)] + [BindNumber(lang, y, BindWord(lang, x, 0).end + 1)])
    ensures START.(steps := MAX_STEPS - 1).values == map[] && START.(steps := MAX_STEPS - 1).steps == 16383
  {
    hide BindWord;
    hide BindNumber;
  }

  lemma OneEntry(x: string, m: map<string, Abstract>)
    requires m == map[]
    ensures |m| == 0 && m[x := Text] == map[x := Text] && |m[x := Text]| == 1
  {}

  lemma OneNameChecks(lang: Language, x: string)
    requires !Reserved(x)
    ensures Grammatical(OneName(lang, x)) && Accepted(OneName(lang, x), lang)
    ensures Verdict(OneName(lang, x), lang).state.values == map[x := Text]
  {
    hide *;
    Bounds();
    var b, s := BindWord(lang, x, 0), START.(steps := MAX_STEPS - 1);
    Unfolded(lang, x, x);
    OneEntry(x, s.values);
    WordChecks(lang, x, 0, s);
    TopGrammatical(lang, [b]);
    OneOfSequence(b, lang, 1, s);
    TopChecks(lang, [b]);
  }

  lemma TwoNamesCheck(lang: Language, x: string, y: string)
    requires !Reserved(x) && !Reserved(y)
    ensures Grammatical(TwoNames(lang, x, y)) && Accepted(TwoNames(lang, x, y), lang)
    ensures Verdict(TwoNames(lang, x, y), lang).state.values == map[x := Text][y := Scalar]
  {
    hide *;
    Bounds();
    var a, s := BindWord(lang, x, 0), START.(steps := MAX_STEPS - 1);
    var b := BindNumber(lang, y, a.end + 1);
    Unfolded(lang, x, y);
    OneEntry(x, s.values);
    WordChecks(lang, x, 0, s);
    var s1 := CheckExpression(a, lang, 1, s).value.state;
    NumberChecks(lang, y, a.end + 1, s1);
    TopGrammatical(lang, [a] + [b]);
    MoreStatements(a, [b], lang, s);
    OneOfSequence(b, lang, 1, s1);
    TopChecks(lang, [a] + [b]);
  }

  /** What the one-name program leaves behind. */
  lemma OneNameRuns(lang: Language, x: string, w: World) returns (v: Value)
    requires !Reserved(x)
    ensures var r := Eval(OneName(lang, x), lang, w, Machine(map[], []));
            v.TextV? && r.outcome.Returned? && r.machine == Store(Machine(map[], []), w.canon(x), v, w)
  {
    hide *;
    var b, m := BindWord(lang, x, 0), Machine(map[], []);
    Unfolded(lang, x, x);
    Bounds();
    OneEntry(x, map[]);
    WordChecks(lang, x, 0, START.(steps := MAX_STEPS - 1));
    v := WordRuns(lang, x, 0, w, m);
    OneOfAll(b, lang, w, m);
    TopRuns(lang, [b], w);
  }

  lemma StoreCases(m: Machine, x: string, v: Value, w: World)
    ensures x in w.fixed ==> Store(m, x, v, w) == m
    ensures x !in w.fixed ==> Store(m, x, v, w) == m.(env := m.env[x := v])
  {}

  /** A name that is another spelling of an API name: the API is rebound. */
  lemma RebindsApi(lang: Language, x: string, w: World)
    requires !Reserved(x) && w.canon(x) in API_NAMES && w.canon(x) !in w.fixed
    ensures Accepted(OneName(lang, x), lang) && !Inert(OneName(lang, x), lang, w)
  {
    hide *;
    OneNameChecks(lang, x);
    var v := OneNameRuns(lang, x, w);
    StoreCases(Machine(map[], []), w.canon(x), v, w);
    NotFree(OneName(lang, x), lang, w, w.canon(x));
  }

  /** A name that a script cannot assign: the proof records a value that the variable does not get,
      as for `NaN` at the top of a JavaScript script. */
  lemma FixedNameStays(lang: Language, x: string, w: World)
    requires !Reserved(x) && w.canon(x) in w.fixed
    ensures Accepted(OneName(lang, x), lang) && Verdict(OneName(lang, x), lang).state.values == map[x := Text]
    ensures Eval(OneName(lang, x), lang, w, Machine(map[], [])).machine == Machine(map[], [])
    ensures !Inert(OneName(lang, x), lang, w)
  {
    hide *;
    OneNameChecks(lang, x);
    var v := OneNameRuns(lang, x, w);
    StoreCases(Machine(map[], []), w.canon(x), v, w);
    NotTracked(OneName(lang, x), lang, w, x);
  }

  lemma NotFree(root: Node, lang: Language, w: World, name: string)
    requires Accepted(root, lang) && name in API_NAMES && name in Eval(root, lang, w, Machine(map[], [])).machine.env
    ensures !Inert(root, lang, w)
  {
    hide Eval;
    hide CheckExpression;
  }

  lemma NotTracked(root: Node, lang: Language, w: World, x: string)
    requires Accepted(root, lang) && Eval(root, lang, w, Machine(map[], [])).outcome.Returned?
    requires x in Verdict(root, lang).state.values && Verdict(root, lang).state.values[x] == Text
    requires var env := Eval(root, lang, w, Machine(map[], [])).machine.env;
             w.canon(x) in env ==> !env[w.canon(x)].TextV?
    ensures !Inert(root, lang, w)
  {
    hide Eval;
    hide CheckExpression;
  }

  /** Two spellings of one name: the second binding changes what the first name stands for. */
  lemma ConfusesNames(lang: Language, x: string, y: string, w: World)
    requires !Reserved(x) && !Reserved(y) && x != y && w.canon(x) == w.canon(y)
    ensures Accepted(TwoNames(lang, x, y), lang) && !Inert(TwoNames(lang, x, y), lang, w)
  {
    hide *;
    TwoNamesCheck(lang, x, y);
    var a, m, name := BindWord(lang, x, 0), Machine(map[], []), w.canon(x);
    var b := BindNumber(lang, y, a.end + 1);
    Unfolded(lang, x, y);
    Bounds();
    OneEntry(x, map[]);
    WordChecks(lang, x, 0, START.(steps := MAX_STEPS - 1));
    NumberChecks(lang, y, a.end + 1, START.(steps := MAX_STEPS - 1));
    var v := WordRuns(lang, x, 0, w, m);
    var m1 := Eval(a, lang, w, m).machine;
    var n := NumberRuns(lang, y, a.end + 1, w, m1);
    StoreCases(m, name, v, w);
    StoreCases(m1, name, n, w);
    MoreRuns(a, [b], lang, w, m);
    OneOfAll(b, lang, w, m1);
    TopRuns(lang, [a] + [b], w);
    NotTracked(TwoNames(lang, x, y), lang, w, x);
  }

  /** The exact condition, which a caller can look at before the check: with a set of names that
      the proof would bind, accepted programs are inert if and only if a script can assign all the
      names, no two of them are spellings of one and none is another spelling of an API name. */
  lemma NamesDecide(names: set<string>, lang: Language, canon: string -> string, fixed: set<string>)
    requires IsNaming(canon) && names !! API_NAMES
    ensures Trustworthy(names, lang, canon, fixed) <==> Apart(names, canon, fixed)
  {
    if Apart(names, canon, fixed) {
      forall root, w |
        Grammatical(root) && Accepted(root, lang) && Proper(w) && w.canon == canon && w.fixed == fixed
        && Verdict(root, lang).state.values.Keys <= names
        ensures Inert(root, lang, w)
      {
        ApartSubset(Verdict(root, lang).state.values.Keys, names, canon, fixed);
        AcceptedProgramsAreInert(root, lang, w);
      }
    } else {
      WillingIsProper(canon, fixed);
      NamesFail(names, lang, Willing(canon, fixed));
    }
  }

  lemma NotReserved(names: set<string>, x: string)
    requires names !! API_NAMES && x in names
    ensures !Reserved(x)
  {}

  lemma Untrustworthy(names: set<string>, root: Node, lang: Language, w: World)
    requires Grammatical(root) && Accepted(root, lang) && Proper(w) && Verdict(root, lang).state.values.Keys <= names
    requires !Inert(root, lang, w)
    ensures !Trustworthy(names, lang, w.canon, w.fixed)
  {
    hide Grammatical;
    hide CheckExpression;
    hide Proper;
    hide Inert;
  }

  lemma NamesFail(names: set<string>, lang: Language, w: World)
    requires Proper(w) && names !! API_NAMES && !Apart(names, w.canon, w.fixed)
    ensures !Trustworthy(names, lang, w.canon, w.fixed)
  {
    hide Trustworthy;
    hide Inert;
    hide Grammatical;
    hide Accepted;
    hide Verdict;
    hide Proper;
    hide Reserved;
    if x :| x in names && w.canon(x) in w.fixed {
      NotReserved(names, x);
      OneNameChecks(lang, x);
      FixedNameStays(lang, x, w);
      Untrustworthy(names, OneName(lang, x), lang, w);
    } else if x :| x in names && w.canon(x) in API_NAMES {
      NotReserved(names, x);
      OneNameChecks(lang, x);
      RebindsApi(lang, x, w);
      Untrustworthy(names, OneName(lang, x), lang, w);
    } else {
      var x, y :| x in names && y in names && w.canon(x) == w.canon(y) && x != y;
      NotReserved(names, x);
      NotReserved(names, y);
      TwoNamesCheck(lang, x, y);
      ConfusesNames(lang, x, y, w);
      Untrustworthy(names, TwoNames(lang, x, y), lang, w);
    }
  }

  /** Names that are their own spelling, and not fixed, are always safe. */
  lemma PlainNamesAreApart(names: set<string>, canon: string -> string, fixed: set<string>)
    requires IsNaming(canon) && names !! API_NAMES && names !! fixed && forall x :: x in names ==> IsPlainName(x)
    ensures Apart(names, canon, fixed)
  {}

  /** Without any condition on the API's names, which are never bound: an accepted program that binds
      only plain names that can be assigned is inert. */
  lemma PlainProgramsAreInert(root: Node, lang: Language, w: World)
    requires Grammatical(root) && Accepted(root, lang) && Proper(w)
    requires forall x :: x in Verdict(root, lang).state.values ==> IsPlainName(x) && x !in w.fixed
    ensures Inert(root, lang, w) && Verdict(root, lang).state.values.Keys !! API_NAMES
  {
    hide Grammatical;
    hide CheckExpression;
    hide IsPlainName;
    hide Inert;
    ExpressionGrows(root, lang, 0, State(map[], [], MAX_STEPS));
    PlainNamesAreApart(Verdict(root, lang).state.values.Keys, w.canon, w.fixed);
    AcceptedProgramsAreInert(root, lang, w);
  }

  // -------------------------------------------------------- a file that leaks

  lemma LeakParts()
    ensures Leak() == Top(Python, [BindWord(Python, "x", 0)] + ([BindFile()] + [Showing()]))
    ensures BindFile() == Bind(Python, FULLWIDTH_X, OPENING, 8) && OPENING == Calling("open", FILE, 14)
            && FILE == Str("f", 19)
    ensures Showing() == Statement(Python, Calling("print", NAME_X, 24)) && NAME_X == Name("x", 30)
    ensures START.(steps := MAX_STEPS - 1).values == map[] && START.(steps := MAX_STEPS - 1).steps == 16383
    ensures "x" != FULLWIDTH_X && IsPlainName("x")
  {
    hide BindWord;
    hide Bind;
    hide Calling;
    hide Statement;
    hide Str;
    hide Name;
  }

  lemma FileStatement()
    ensures Grammatical(BindFile()) && BindFile().named && BindFile().kind != Comment
    ensures Wraps(Showing(), Calling("print", NAME_X, 24)) && Grammatical(Showing()) && Showing().named
            && Showing().kind == ExpressionStatement
    ensures OPENING.named && OPENING.kind != Comment && FILE.named && FILE.kind == StringLiteral && IsFlat(FILE)
    ensures NAME_X.named && NAME_X.kind == Identifier && NAME_X.text == "x" && IsFlat(NAME_X)
  {
    hide *;
    SimpleKinds();
    LeakParts();
    Atoms("f", 19);
    Atoms("f", 30);
    CallStatement("open", FILE, 14);
    CallStatement("print", NAME_X, 24);
    BindGrammatical(Python, FULLWIDTH_X, OPENING, 8);
  }

  /** The second statement binds a file, and the third is accepted because `x` is still text. */
  lemma FileChecks(s: State)
    requires s.steps > 50 && |s.values| < 2
    ensures var r := CheckExpression(BindFile(), Python, 1, s);
            r.Some? && r.value.state.values == s.values[FULLWIDTH_X := File] && r.value.state.steps >= s.steps - 20
  {
    hide *;
    Bounds();
    SimpleKinds();
    LeakParts();
    FileStatement();
    LeafChecks(FILE, Python, 5, s.(steps := s.steps - 4));
    CallChecks("open", FILE, 14, 3, s.(steps := s.steps - 2));
    BindChecks(Python, FULLWIDTH_X, OPENING, 8, s);
  }

  lemma ShowingChecks(s: State)
    requires s.steps > 20 && "x" in s.values && s.values["x"] == Text
    ensures var r := CheckExpression(Showing(), Python, 1, s); r.Some? && r.value.state.values == s.values
  {
    hide *;
    Bounds();
    SimpleKinds();
    LeakParts();
    FileStatement();
    LeafChecks(NAME_X, Python, 4, s.(steps := s.steps - 3));
    CallChecks("print", NAME_X, 24, 2, s.(steps := s.steps - 1));
    WrapChecks(Showing(), Calling("print", NAME_X, 24), Python, 1, s);
  }

  lemma LeakChecks()
    ensures Grammatical(Leak()) && Accepted(Leak(), Python)
    ensures Verdict(Leak(), Python).state.values == map["x" := Text][FULLWIDTH_X := File]
  {
    hide *;
    Bounds();
    SimpleKinds();
    LeakParts();
    FileStatement();
    var a, b, c, s := BindWord(Python, "x", 0), BindFile(), Showing(), START.(steps := MAX_STEPS - 1);
    OneEntry("x", s.values);
    WordChecks(Python, "x", 0, s);
    var s1 := CheckExpression(a, Python, 1, s).value.state;
    FileChecks(s1);
    var s2 := CheckExpression(b, Python, 1, s1).value.state;
    ShowingChecks(s2);
    TopGrammatical(Python, [a] + ([b] + [c]));
    MoreStatements(a, [b] + [c], Python, s);
    MoreStatements(b, [c], Python, s1);
    OneOfSequence(c, Python, 1, s2);
    TopChecks(Python, [a] + ([b] + [c]));
  }

  lemma OpenEffect(n: Node, args: seq<Arg>, w: World, m: Machine)
    requires args != [] && forall t, e :: w.answer(t, e).Some?
    ensures CallNamed(n, "open", args, Python, w, m)
            == Run(Returned(FileV(|m.trace|)), m.(trace := m.trace + [Open(args)]))
  {}

  lemma EnvAfter(w: World, m: Machine, x: string, v: Value)
    requires m.env.Keys <= {x} && x !in API_NAMES && x !in w.fixed
    ensures var m' := Store(m, x, v, w);
            m'.env.Keys == {x} && m'.env[x] == v && m'.trace == m.trace && forall y :: y in API_NAMES ==> y !in m'.env
  {}

  lemma NotSafe(root: Node, lang: Language, w: World, e: Effect, before: seq<Effect>)
    requires Accepted(root, lang) && Eval(root, lang, w, Machine(map[], [])).machine.trace == before + [e] && !Safe(e)
    ensures !Inert(root, lang, w)
  {
    hide Eval;
    hide Safe;
    hide CheckExpression;
    var trace := Eval(root, lang, w, Machine(map[], [])).machine.trace;
    assert trace[|before|] == e;
  }

  lemma FileArgument(arg: Node, h: nat)
    ensures !Safe(Print([Arg(arg, FileV(h))]))
  {
    assert [Arg(arg, FileV(h))][0].value == FileV(h);
  }

  lemma Empty(w: World)
    requires Proper(w)
    ensures w.canon("x") == "x" && forall y :: y !in Machine(map[], []).env
  {
    assert IsPlainName("x");
  }

  /** The first two statements: the variable `x` holds the opened file. */
  lemma FileIsBound(w: World) returns (m: Machine)
    requires Proper(w) && w.canon(FULLWIDTH_X) == "x" && "x" !in w.fixed && forall t, e :: w.answer(t, e).Some?
    ensures m.trace == [Open([Arg(FILE, TextV(w.spell(FILE, [])))])]
    ensures m.env.Keys == {"x"} && m.env["x"] == FileV(0) && forall y :: y in API_NAMES ==> y !in m.env
    ensures Eval(Leak(), Python, w, Machine(map[], [])).machine == EvalAll([Showing()], Python, w, m).machine
  {
    hide *;
    SimpleKinds();
    LeakParts();
    FileStatement();
    Empty(w);
    NotAnApi();
    Bounds();
    OneEntry("x", map[]);
    var a, b, c, start := BindWord(Python, "x", 0), BindFile(), Showing(), Machine(map[], []);
    WordChecks(Python, "x", 0, START.(steps := MAX_STEPS - 1));
    var v := WordRuns(Python, "x", 0, w, start);
    EnvAfter(w, start, "x", v);
    var m1 := Eval(a, Python, w, start).machine;
    MoreRuns(a, [b] + [c], Python, w, start);
    LeafRuns(FILE, Python, w, m1);
    CallRuns("open", FILE, 14, w, m1, TextV(w.spell(FILE, [])));
    OpenEffect(OPENING, [Arg(FILE, TextV(w.spell(FILE, [])))], w, m1);
    BindRuns(Python, FULLWIDTH_X, OPENING, 8, w, m1);
    EnvAfter(w, Eval(OPENING, Python, w, m1).machine, "x", FileV(0));
    m := Eval(b, Python, w, m1).machine;
    MoreRuns(b, [c], Python, w, m1);
    TopRuns(Python, [a] + ([b] + [c]), w);
  }

  /** Where two spellings are one name, an accepted program hands an open file to `print`. */
  lemma FullWidthLeaks(w: World)
    requires Proper(w) && w.canon(FULLWIDTH_X) == "x" && "x" !in w.fixed && forall t, e :: w.answer(t, e).Some?
    ensures Accepted(Leak(), Python)
    ensures Eval(Leak(), Python, w, Machine(map[], [])).machine.trace
            == [Open([Arg(FILE, TextV(w.spell(FILE, [])))])] + [Print([Arg(NAME_X, FileV(0))])]
    ensures !Inert(Leak(), Python, w)
  {
    hide *;
    SimpleKinds();
    LeakParts();
    FileStatement();
    LeakChecks();
    Empty(w);
    var call, n := Calling("print", NAME_X, 24), Showing();
    var m := FileIsBound(w);
    var effect := Print([Arg(NAME_X, FileV(0))]);
    LeafRuns(NAME_X, Python, w, m);
    CallRuns("print", NAME_X, 24, w, m, FileV(0));
    PrintEffect(call, [Arg(NAME_X, FileV(0))], w, m);
    PrintRuns(n, call, w, m);
    OneOfAll(n, Python, w, m);
    FileArgument(NAME_X, 0);
    NotSafe(Leak(), Python, w, effect, m.trace);
  }

  lemma NotAnApi()
    ensures "x" !in API_NAMES
  {}
}

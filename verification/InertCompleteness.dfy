/** The other half of InertSoundness: the documentation proof refuses no program that runs safely,
    within its limits on names, depth and work. */
module InertCompleteness {
  import opened InertProof
  import opened InertRun
  import opened InertShown
  import opened InertSoundness
  import opened InertSteady
  import opened InertTables
  import opened Syntax
  import opened Wrappers

  import B = InertBudget

  // -------------------------------------------------------------- the limits

  /** Names are their own spelling, what is bound is among `names`, and a module is named without escapes. */
  ghost predicate TameNode(d: Node, w: World, names: set<string>) {
    && (d.kind == Identifier ==> w.canon(d.text) == d.text)
    && (d.GetEither(AttributeField, PropertyField).Some? ==>
          var p := d.GetEither(AttributeField, PropertyField).value; w.canon(p.text) == p.text)
    && ((d.kind == Assignment || d.kind == VariableDeclarator) && d.GetEither(LeftField, NameField).Some? ==>
          d.GetEither(LeftField, NameField).value.text in names)
    && (d.IsCall() && d.Get(FunctionField).Some? && d.Get(ArgumentsField).Some? ==>
          (d.Get(FunctionField).value.text == "require" ==>
             forall a :: a in Significant(d.Get(ArgumentsField).value.children) ==> PlainlyQuoted(a.text)))
  }

  ghost predicate Tame(n: Node, w: World, names: set<string>) {
    TameNode(n, w, names) && forall d :: d in Below(n) ==> TameNode(d, w, names)
  }

  /** A tree that the proof can be held to, checked at some depth. */
  ghost predicate Ready(n: Node, depth: nat, w: World, names: set<string>) {
    Grammatical(n) && Shown(n) && Tame(n, w, names) && depth + Levels(n) <= MAX_DEPTH
  }

  /** Fewer than 128 names, their own spellings, that a script can assign and that are no API names;
      those recorded so far are among them. */
  ghost predicate Room(s: State, names: set<string>, w: World) {
    && s.values.Keys <= names && |names| < 128 && Apart(names, w.canon, w.fixed)
    && forall x :: x in names ==> w.canon(x) == x
  }

  lemma BelowIsGrammatical(n: Node, c: Node)
    requires Grammatical(n) && c in Below(n)
    ensures Grammatical(c)
  {
    PartsOf(n);
    BelowGrammatical(n.children);
    B.BelowIs(n);
  }

  lemma BelowIsTame(n: Node, c: Node, w: World, names: set<string>)
    requires Tame(n, w, names) && c in Below(n)
    ensures Tame(c, w, names) && TameNode(n, w, names)
  {
    hide TameNode;
    forall d | d in Below(c) ensures d in Below(n) { BelowTrans(n, c, d); }
  }

  lemma ReadyBelow(n: Node, c: Node, depth: nat, depth': nat, w: World, names: set<string>)
    requires Ready(n, depth, w, names) && c in Below(n) && Shown(c) && depth' + Levels(c) <= MAX_DEPTH
    ensures Ready(c, depth', w, names)
  {
    hide Tame;
    hide Shown;
    hide Grammatical;
    BelowIsGrammatical(n, c);
    BelowIsTame(n, c, w, names);
  }

  lemma ReadyCases(n: Node, depth: nat, w: World, names: set<string>)
    requires Ready(n, depth, w, names)
    ensures Grammatical(n) && Shown(n) && Tame(n, w, names) && TameNode(n, w, names) && depth + Levels(n) <= MAX_DEPTH
    ensures depth < MAX_DEPTH
  {
    hide Shown;
    hide Grammatical;
    hide TameNode;
    LevelsIs(n);
  }

  /** What a check goes on to is ready one level down, below a call two. */
  lemma ReadyVisit(n: Node, c: Node, depth: nat, w: World, names: set<string>)
    requires Ready(n, depth, w, names) && !IsText(n.kind) && B.Visits(n, c)
    ensures Ready(c, depth + if n.IsCall() then 2 else 1, w, names)
    ensures |Below(c)| < |Below(n)| && c in Below(n)
  {
    hide *;
    ReadyCases(n, depth, w, names);
    VisitShown(n, c);
    VisitLevels(n, c);
    ReadyBelow(n, c, depth, depth + if n.IsCall() then 2 else 1, w, names);
  }

  lemma VisitLevels(n: Node, c: Node)
    requires B.Visits(n, c)
    ensures Levels(c) + (if n.IsCall() then 2 else 1) <= Levels(n)
  {
    hide Levels;
    B.VisitsCases(n, c);
    if n.IsCall() {
      CallLevels(n, c);
    } else {
      VisitIsChild(n, c);
      ChildLevels(n, c);
    }
  }

  lemma VisitIsChild(n: Node, c: Node)
    requires B.Visits(n, c) && !n.IsCall()
    ensures c in n.children
  {
    hide Significant;
    assert c in Significant(n.children) ==> c in n.children;
  }

  lemma CallLevels(n: Node, c: Node)
    requires B.Visits(n, c) && n.IsCall()
    ensures Levels(c) + 2 <= Levels(n)
  {
    hide Levels;
    if B.IsArgument(n, c) {
      var a := B.ArgumentOf(n, c);
      var list := n.Get(ArgumentsField).value;
      ChildLevels(n, list);
      ChildLevels(list, a);
      ArgumentPart(a);
      if c != a { ChildLevels(a, c); }
    } else {
      var f := n.Get(FunctionField).value;
      ChildLevels(n, f);
      ChildLevels(f, c);
    }
  }

  // ---------------------------------------------------------- checks go through

  /** With another budget a check leaves what one wants it to leave. */
  lemma Pays(n: Node, lang: Language, depth: nat, s: State, b: nat, rest: nat) returns (b': nat)
    requires depth <= MAX_DEPTH && CheckExpression(n, lang, depth, s.(steps := b)).Some?
    ensures var c := CheckExpression(n, lang, depth, s.(steps := b)).value;
            CheckExpression(n, lang, depth, s.(steps := b')) == Some(c.(state := c.state.(steps := rest)))
  {
    hide CheckExpression;
    var s0 := s.(steps := b);
    var c := CheckExpression(n, lang, depth, s0).value;
    B.ExpressionPays(n, lang, depth, s0);
    b' := b - c.state.steps + rest;
    B.ExpressionBudget(n, lang, depth, s0, b');
    assert s0.(steps := b') == s.(steps := b');
  }

  lemma ArgumentsPays(args: seq<Node>, lang: Language, depth: nat, s: State, b: nat, rest: nat) returns (b': nat)
    requires depth <= MAX_DEPTH && CheckArguments(args, lang, depth, s.(steps := b)).Some?
    ensures CheckArguments(args, lang, depth, s.(steps := b'))
         == Some(CheckArguments(args, lang, depth, s.(steps := b)).value.(steps := rest))
  {
    hide CheckArguments;
    var s0 := s.(steps := b);
    var t := CheckArguments(args, lang, depth, s0).value;
    B.ArgumentsBudget(args, lang, depth, s0, 0);
    b' := b - t.steps + rest;
    B.ArgumentsBudget(args, lang, depth, s0, b');
    assert s0.(steps := b') == s.(steps := b');
  }

  /** What a check that goes through says of the run. */
  lemma After(n: Node, lang: Language, depth: nat, s: State, names: set<string>, w: World, m: Machine)
    requires Answers(w) && Ready(n, depth, w, names) && Room(s, names, w) && Consistent(s, m, w)
    requires depth <= MAX_DEPTH && CheckExpression(n, lang, depth, s).Some?
    ensures var c, r := CheckExpression(n, lang, depth, s).value, Eval(n, lang, w, m);
            && r.outcome.Returned? && SafeTrace(r.machine.trace) && m.trace <= r.machine.trace
            && Consistent(c.state, r.machine, w) && HasKind(r.outcome.value, c.kind, r.machine.trace)
            && Room(c.state, names, w)
  {
    hide *;
    ReadyCases(n, depth, w, names);
    RoomCases(s, names, w);
    NamesStay(n, lang, depth, s, w, names);
    var c, r := CheckExpression(n, lang, depth, s).value, Eval(n, lang, w, m);
    ApartSubset(c.state.values.Keys, names, w.canon, w.fixed);
    SoundExpression(n, lang, depth, s, w, m);
    ConformsSafe(c.kind, c.state, m, r, w);
    SteadyEval(n, lang, w, m);
    SafeBefore(m, r.outcome.Returned?, r.machine, IsExpression(n));
    ReturnedConforms(c.kind, c.state, m, r, w);
    RoomFor(s, c.state, names, w);
  }

  lemma ConformsSafe(k: Abstract, s: State, m: Machine, r: Run, w: World)
    requires Conforms(k, s, m, r, w)
    ensures SafeTrace(r.machine.trace)
  {}

  lemma RoomCases(s: State, names: set<string>, w: World)
    requires Room(s, names, w)
    ensures s.values.Keys <= names && |names| < MAX_NAMES && Apart(names, w.canon, w.fixed)
  {}

  lemma RoomFor(s: State, s': State, names: set<string>, w: World)
    requires Room(s, names, w) && s'.values.Keys <= names
    ensures Room(s', names, w)
  {}

  lemma AnySteps(s: State, b: nat, names: set<string>, w: World, m: Machine)
    ensures Room(s, names, w) ==> Room(s.(steps := b), names, w)
    ensures Consistent(s, m, w) ==> Consistent(s.(steps := b), m, w)
  {}

  /** The check of a statement. */
  lemma StatementCases(n: Node, lang: Language, depth: nat, s: State)
    requires depth <= MAX_DEPTH && CheckExpression(n, lang, depth, s).Some?
    ensures depth < MAX_DEPTH && s.steps > 0
    ensures var all, s1, named := CheckExpression(n, lang, depth, s), s.(steps := s.steps - 1), Significant(n.children);
            match n.kind
            case ExpressionStatement => |named| == 1 && all == CheckExpression(named[0], lang, depth + 1, s1)
            case Assignment | VariableDeclarator => all == CheckBinding(n, lang, depth, s1)
            case Module | Program | LexicalDeclaration | VariableDeclaration =>
              var r := CheckSequence(named, lang, depth + 1, s1, false);
              r.Some? && all == Some(Checked(Scalar, r.value))
            case _ => true
  {
    hide CheckSequence;
    hide CheckString;
    hide CheckCall;
    hide CheckBinding;
    hide CheckBinary;
    hide Significant;
  }

  /** Checking binds names of the tree only. */
  lemma {:induction false} NamesStay(n: Node, lang: Language, depth: nat, s: State, w: World, names: set<string>)
    requires depth <= MAX_DEPTH && Grammatical(n) && Tame(n, w, names) && s.values.Keys <= names
    requires CheckExpression(n, lang, depth, s).Some?
    ensures CheckExpression(n, lang, depth, s).value.state.values.Keys <= names
    decreases MAX_DEPTH - depth, 1, 0
  {
    hide *;
    StatementCases(n, lang, depth, s);
    Deep();
    var s1 := s.(steps := s.steps - 1);
    match n.kind
    case ExpressionStatement =>
      OnlyChild(n);
      var c := Significant(n.children)[0];
      B.BelowStep(n, n, c);
      BelowIsTame(n, c, w, names);
      NamesStay(c, lang, depth + 1, s1, w, names);
    case Assignment | VariableDeclarator => BindingStays(n, lang, depth, s1, w, names);
    case Module | Program | LexicalDeclaration | VariableDeclaration =>
      SignificantBelow(n);
      SequenceStays(Significant(n.children), n, lang, depth + 1, s1, w, names);
    case _ =>
      NotStatement(n);
      ExpressionKeepsNames(n, lang, depth, s);
  }

  lemma Deep()
    ensures MAX_DEPTH == 64
  {}

  lemma NotStatement(n: Node)
    requires Grammatical(n)
    requires n.kind !in {ExpressionStatement, Assignment, VariableDeclarator, Module, Program, LexicalDeclaration,
                         VariableDeclaration}
    ensures IsExpression(n)
  {}

  lemma SignificantBelow(n: Node)
    ensures forall c :: c in Significant(n.children) ==> c in n.children && c in Below(n) && |Below(c)| < |Below(n)|
  {
    hide Below;
    forall c | c in Significant(n.children) ensures c in n.children && c in Below(n) && |Below(c)| < |Below(n)| {
      B.BelowStep(n, n, c);
    }
  }

  lemma BindingStays(n: Node, lang: Language, depth: nat, s: State, w: World, names: set<string>)
    requires depth < MAX_DEPTH && Grammatical(n) && Tame(n, w, names) && s.values.Keys <= names
    requires n.kind == Assignment || n.kind == VariableDeclarator
    requires CheckBinding(n, lang, depth, s).Some?
    ensures CheckBinding(n, lang, depth, s).value.state.values.Keys <= names
    decreases MAX_DEPTH - depth, 0, 0
  {
    hide Grammatical;
    hide Tame;
    hide CheckExpression;
    hide Significant;
    hide Reserved;
    var right := n.GetEither(RightField, ValueField).value;
    B.BelowStep(n, n, right);
    BelowIsTame(n, right, w, names);
    BelowIsGrammatical(n, right);
    NamesStay(right, lang, depth + 1, s, w, names);
  }

  lemma {:induction false} SequenceStays(ns: seq<Node>, n: Node, lang: Language, depth: nat, s: State, w: World,
          names: set<string>)
    requires depth <= MAX_DEPTH && Grammatical(n) && Tame(n, w, names) && (forall c :: c in ns ==> c in Below(n))
    requires s.values.Keys <= names && CheckSequence(ns, lang, depth, s, n.kind == ConcatenatedString).Some?
    ensures CheckSequence(ns, lang, depth, s, n.kind == ConcatenatedString).value.values.Keys <= names
    decreases MAX_DEPTH - depth, 2, |ns|
  {
    hide Grammatical;
    hide Tame;
    hide CheckExpression;
    hide Below;
    if ns != [] {
      BelowIsTame(n, ns[0], w, names);
      BelowIsGrammatical(n, ns[0]);
      NamesStay(ns[0], lang, depth, s, w, names);
      SequenceStays(ns[1..], n, lang, depth, CheckExpression(ns[0], lang, depth, s).value.state, w, names);
    }
  }

  // The cases of a check, with the step of the node paid.

  lemma CheckCases(n: Node, lang: Language, depth: nat, s: State, b: nat)
    requires depth < MAX_DEPTH
    ensures var all, s1, named := CheckExpression(n, lang, depth, s.(steps := b + 1)), s.(steps := b),
              Significant(n.children);
            match n.kind
            case Module | Program | LexicalDeclaration | VariableDeclaration =>
              all.Some? <==> CheckSequence(named, lang, depth + 1, s1, false).Some?
            case ExpressionStatement | Parenthesized =>
              |named| == 1 ==> all == CheckExpression(named[0], lang, depth + 1, s1)
            case Assignment | VariableDeclarator => all == CheckBinding(n, lang, depth, s1)
            case Identifier => n.text in s.values ==> all.Some?
            case ScalarLiteral => all.Some?
            case StringLiteral | TemplateString => all.Some? <==> CheckParts(Below(n), lang, depth, s1).Some?
            case ConcatenatedString => all.Some? <==> CheckSequence(named, lang, depth + 1, s1, true).Some?
            case BinaryOperator | BinaryExpression => all == CheckBinary(n, lang, depth, s1)
            case Call | CallExpression => all == CheckCall(n, lang, depth + 1, s1)
            case _ => true
  {
    hide CheckSequence;
    hide CheckParts;
    hide CheckBinding;
    hide CheckBinary;
    hide CheckCall;
    hide ContainsMarker;
    hide Below;
    hide Significant;
    assert s.(steps := b + 1).(steps := b) == s.(steps := b);
  }

  lemma NextOfSequence(ns: seq<Node>, lang: Language, depth: nat, s: State, texts: bool)
    requires depth <= MAX_DEPTH
    ensures ns == [] ==> CheckSequence(ns, lang, depth, s, texts) == Some(s)
    ensures ns != [] ==>
              var r := CheckExpression(ns[0], lang, depth, s);
              r.Some? && (texts ==> r.value.kind == Text) ==>
                CheckSequence(ns, lang, depth, s, texts) == CheckSequence(ns[1..], lang, depth, r.value.state, texts)
  {
    hide CheckExpression;
  }

  predicate AreTexts(vs: seq<Value>) { forall k :: 0 <= k < |vs| ==> vs[k].TextV? }

  lemma TextsCons(v: Value, vs: seq<Value>)
    requires AreTexts([v] + vs)
    ensures v.TextV? && AreTexts(vs)
  {
    assert ([v] + vs)[0] == v && forall k :: 0 <= k < |vs| ==> vs[k] == ([v] + vs)[k + 1];
  }

  lemma TextKind(v: Value, k: Abstract, trace: seq<Effect>)
    requires HasKind(v, k, trace)
    ensures v.TextV? <==> k == Text
    ensures v.ScalarV? <==> k == Scalar
  {}

  /** The statements of a block, or the pieces of an adjacent literal. */
  lemma {:induction false} CompleteSequence(ns: seq<Node>, n: Node, lang: Language, depth: nat, s: State, texts: bool,
                                            names: set<string>, w: World, m: Machine) returns (b: nat)
    requires Answers(w) && depth <= MAX_DEPTH && GrammaticalAll(ns) && Room(s, names, w) && Consistent(s, m, w)
    requires forall c :: c in Significant(ns) ==> Ready(c, depth, w, names) && |Below(c)| < |Below(n)|
    requires SafeTrace(EvalAll(ns, lang, w, m).machine.trace)
    requires texts ==> EvalAll(ns, lang, w, m).values.Some? && AreTexts(EvalAll(ns, lang, w, m).values.value)
    ensures CheckSequence(Significant(ns), lang, depth, s.(steps := b), texts).Some?
    decreases |Below(n)|, 1, |ns|
  {
    hide *;
    SignificantStep(ns);
    ListCases(ns, lang, w, m);
    if ns == [] {
      NoneSignificant();
      b := 0;
      NextOfSequence([], lang, depth, s.(steps := b), texts);
    } else {
      GrammaticalStep(ns);
      if !ns[0].named || ns[0].kind == Comment {
        b := CompleteSequence(ns[1..], n, lang, depth, s, texts, names, w, m);
      } else {
        var r := Eval(ns[0], lang, w, m);
        SteadyEval(ns[0], lang, w, m);
        SteadyAll(ns[1..], lang, w, r.machine);
        var rest := EvalAll(ns[1..], lang, w, r.machine);
        if r.outcome.Returned? {
          SafeBefore(r.machine, rest.values.Some?, rest.machine, Expressions(ns[1..]));
          if texts { TextsCons(r.outcome.value, rest.values.value); }
        }
        SafeBefore(m, r.outcome.Returned?, r.machine, IsExpression(ns[0]));
        var b1 := CompleteNode(ns[0], lang, depth, s, names, w, m);
        AnySteps(s, b1, names, w, m);
        After(ns[0], lang, depth, s.(steps := b1), names, w, m);
        var c := CheckExpression(ns[0], lang, depth, s.(steps := b1)).value;
        TextKind(r.outcome.value, c.kind, r.machine.trace);
        var b2 := CompleteSequence(ns[1..], n, lang, depth, c.state, texts, names, w, r.machine);
        b := Pays(ns[0], lang, depth, s, b1, b2);
        NextOfSequence(Significant(ns), lang, depth, s.(steps := b), texts);
      }
    }
  }

  lemma BindingPasses(n: Node, lang: Language, depth: nat, s: State)
    requires depth < MAX_DEPTH && |Significant(n.children)| == 2 && |s.values| < MAX_NAMES
    requires var left, right := n.GetEither(LeftField, NameField), n.GetEither(RightField, ValueField);
             && left.Some? && left.value.kind == Identifier && !Reserved(left.value.text)
             && right.Some? && CheckExpression(right.value, lang, depth + 1, s).Some?
    ensures CheckBinding(n, lang, depth, s).Some?
  {
    hide CheckExpression;
    hide Significant;
    hide Reserved;
  }

  lemma NotAnApi(x: string, names: set<string>, w: World)
    requires Apart(names, w.canon, w.fixed) && x in names && w.canon(x) == x
    ensures !Reserved(x)
  {
    assert w.canon(x) !in API_NAMES;
  }

  lemma FewNames(s: State, names: set<string>, w: World)
    requires Room(s, names, w)
    ensures |s.values| < MAX_NAMES
  {
    assert |s.values.Keys| <= |names| by { SubsetSize(s.values.Keys, names); }
  }

  lemma SubsetSize(a: set<string>, b: set<string>)
    requires a <= b
    ensures |a| <= |b|
    decreases |a|
  {
    if a != {} {
      var x :| x in a;
      SubsetSize(a - {x}, b - {x});
    }
  }

  lemma TameBinding(n: Node, w: World, names: set<string>)
    requires Tame(n, w, names) && (n.kind == Assignment || n.kind == VariableDeclarator)
    requires n.GetEither(LeftField, NameField).Some? && n.GetEither(LeftField, NameField).value.kind == Identifier
    ensures var x := n.GetEither(LeftField, NameField).value.text; x in names && w.canon(x) == x
  {
    var left := n.GetEither(LeftField, NameField).value;
    B.BelowStep(n, n, left);
    hide Below;
    assert TameNode(left, w, names);
  }

  lemma CompleteBinding(n: Node, lang: Language, depth: nat, s: State, names: set<string>, w: World, m: Machine)
    returns (b: nat)
    requires Answers(w) && Ready(n, depth, w, names) && depth < MAX_DEPTH && Room(s, names, w) && Consistent(s, m, w)
    requires n.kind == Assignment || n.kind == VariableDeclarator
    requires SafeTrace(EvalBinding(n, lang, w, m).machine.trace)
    ensures CheckBinding(n, lang, depth, s.(steps := b)).Some?
    decreases |Below(n)|, 2
  {
    hide *;
    ReadyCases(n, depth, w, names);
    BindingCases(n, lang, w, m);
    UnrulyIsUnsafe(n, w, m);
    var left, right := n.GetEither(LeftField, NameField).value, n.GetEither(RightField, ValueField).value;
    TameBinding(n, w, names);
    RoomCases(s, names, w);
    NotAnApi(left.text, names, w);
    BindingVisits(n, right);
    BindingIsNoCall(n);
    ReadyVisit(n, right, depth, w, names);
    var r := Eval(right, lang, w, m);
    if r.outcome.Returned? { StoreTrace(r.machine, w.canon(left.text), r.outcome.value, w); }
    b := CompleteNode(right, lang, depth + 1, s, names, w, m);
    AnySteps(s, b, names, w, m);
    FewNames(s.(steps := b), names, w);
    BindingPasses(n, lang, depth, s.(steps := b));
  }

  lemma BindingVisits(n: Node, c: Node)
    requires n.kind == Assignment || n.kind == VariableDeclarator
    requires n.GetEither(RightField, ValueField) == Some(c)
    ensures B.Visits(n, c)
  {}

  lemma BindingIsNoCall(n: Node)
    requires n.kind == Assignment || n.kind == VariableDeclarator
    ensures !n.IsCall() && !IsText(n.kind)
  {}

  lemma BinaryPasses(n: Node, lang: Language, depth: nat, s: State)
    requires depth < MAX_DEPTH && n.Get(LeftField).Some? && n.Get(RightField).Some? && n.Get(OperatorField).Some?
    requires var l := CheckExpression(n.Get(LeftField).value, lang, depth + 1, s);
             && l.Some?
             && var r := CheckExpression(n.Get(RightField).value, lang, depth + 1, l.value.state);
                r.Some? && Operation(l.value.kind, n.Get(OperatorField).value.text, r.value.kind).Some?
    ensures CheckBinary(n, lang, depth, s).Some?
  {
    hide CheckExpression;
    hide Operation;
  }

  lemma CompleteBinary(n: Node, lang: Language, depth: nat, s: State, names: set<string>, w: World, m: Machine)
    returns (b: nat)
    requires Answers(w) && Ready(n, depth, w, names) && depth < MAX_DEPTH && Room(s, names, w) && Consistent(s, m, w)
    requires n.kind == BinaryOperator || n.kind == BinaryExpression
    requires SafeTrace(EvalBinary(n, lang, w, m).machine.trace)
    ensures CheckBinary(n, lang, depth, s.(steps := b)).Some?
    decreases |Below(n)|, 2
  {
    hide *;
    ReadyCases(n, depth, w, names);
    KindCases(n);
    var l, r := BinarySafe(n, lang, w, m);
    var left, right, op := n.Get(LeftField).value, n.Get(RightField).value, n.Get(OperatorField).value.text;
    BinaryVisits(n);
    ReadyVisit(n, left, depth, w, names);
    ReadyVisit(n, right, depth, w, names);
    var b1 := CompleteNode(left, lang, depth + 1, s, names, w, m);
    AnySteps(s, b1, names, w, m);
    After(left, lang, depth + 1, s.(steps := b1), names, w, m);
    var c1 := CheckExpression(left, lang, depth + 1, s.(steps := b1)).value;
    var b2 := CompleteNode(right, lang, depth + 1, c1.state, names, w, l.machine);
    AnySteps(c1.state, b2, names, w, l.machine);
    After(right, lang, depth + 1, c1.state.(steps := b2), names, w, l.machine);
    var c2 := CheckExpression(right, lang, depth + 1, c1.state.(steps := b2)).value;
    KindLasts(l.outcome.value, c1.kind, l.machine.trace, r.machine.trace);
    OperationGoes(c1.kind, op, c2.kind, n, l.outcome.value, r.outcome.value, w, r.machine);
    UnrulyIsUnsafe(n, w, r.machine);
    b := Pays(left, lang, depth + 1, s, b1, b2);
    BinaryPasses(n, lang, depth, s.(steps := b));
  }

  lemma BinaryVisits(n: Node)
    requires n.kind == BinaryOperator || n.kind == BinaryExpression
    ensures !n.IsCall() && !IsText(n.kind)
    ensures n.Get(LeftField).Some? ==> B.Visits(n, n.Get(LeftField).value)
    ensures n.Get(RightField).Some? ==> B.Visits(n, n.Get(RightField).value)
  {}

  lemma NextOfArguments(args: seq<Node>, lang: Language, depth: nat, s: State)
    requires depth <= MAX_DEPTH
    ensures args == [] ==> CheckArguments(args, lang, depth, s) == Some(s)
    ensures args != [] && ArgumentValue(args[0]).Some? ==>
              var r := CheckExpression(ArgumentValue(args[0]).value, lang, depth, s);
              r.Some? && (r.value.kind == Text || r.value.kind == Scalar) ==>
                CheckArguments(args, lang, depth, s) == CheckArguments(args[1..], lang, depth, r.value.state)
  {
    hide CheckExpression;
    hide ArgumentValue;
  }

  lemma PlainCons(a: Arg, rest: seq<Arg>)
    requires PlainArgs([a] + rest)
    ensures (a.value.TextV? || a.value.ScalarV?) && PlainArgs(rest)
  {
    assert ([a] + rest)[0] == a && forall k :: 0 <= k < |rest| ==> rest[k] == ([a] + rest)[k + 1];
  }

  lemma {:induction false} CompleteArguments(ns: seq<Node>, n: Node, lang: Language, depth: nat, s: State,
          names: set<string>, w: World, m: Machine) returns (b: nat)
    requires Answers(w) && depth <= MAX_DEPTH && Expressions(ns) && Room(s, names, w) && Consistent(s, m, w)
    requires forall a :: a in Significant(ns) && ArgumentValue(a).Some? ==>
               Ready(ArgumentValue(a).value, depth, w, names) && |Below(ArgumentValue(a).value)| < |Below(n)|
    requires var r := EvalArgs(ns, lang, w, m); SafeTrace(r.machine.trace) && r.args.Some? && PlainArgs(r.args.value)
    ensures CheckArguments(Significant(ns), lang, depth, s.(steps := b)).Some?
    decreases |Below(n)|, 1, |ns|
  {
    hide *;
    SignificantStep(ns);
    EvalArgsCases(ns, lang, w, m);
    if ns == [] {
      NoneSignificant();
      b := 0;
      NextOfArguments([], lang, depth, s.(steps := b));
    } else {
      ExpressionsStep(ns);
      if !ns[0].named || ns[0].kind == Comment {
        b := CompleteArguments(ns[1..], n, lang, depth, s, names, w, m);
      } else {
        if ArgumentValue(ns[0]).None? { ArgCases(ns, lang, w, m); }
        var value := ArgumentValue(ns[0]).value;
        ArgumentExpression(ns[0]);
        var r := Eval(value, lang, w, m);
        ReadyCases(value, depth, w, names);
        SteadyEval(value, lang, w, m);
        SteadyArgs(ns[1..], lang, w, r.machine);
        var rest := EvalArgs(ns[1..], lang, w, r.machine);
        if r.outcome.Returned? {
          SafeBefore(r.machine, rest.args.Some?, rest.machine, true);
          PlainCons(Arg(ns[0], r.outcome.value), rest.args.value);
        }
        SafeBefore(m, r.outcome.Returned?, r.machine, IsExpression(value));
        var b1 := CompleteNode(value, lang, depth, s, names, w, m);
        AnySteps(s, b1, names, w, m);
        After(value, lang, depth, s.(steps := b1), names, w, m);
        var c := CheckExpression(value, lang, depth, s.(steps := b1)).value;
        TextKind(r.outcome.value, c.kind, r.machine.trace);
        var b2 := CompleteArguments(ns[1..], n, lang, depth, c.state, names, w, r.machine);
        b := Pays(value, lang, depth, s, b1, b2);
        NextOfArguments(Significant(ns), lang, depth, s.(steps := b));
      }
    }
  }

  lemma NamedPasses(n: Node, lang: Language, depth: nat, s: State, f: Node, a: Node)
    requires depth < MAX_DEPTH && n.Get(FunctionField) == Some(f) && n.Get(ArgumentsField) == Some(a)
    requires a.kind == ArgumentList || a.kind == Arguments
    requires CheckArguments(Significant(a.children), lang, depth + 1, s).Some?
    requires f.kind == Identifier && NamedCall(lang, f.text, Significant(a.children)).Some?
    ensures CheckCall(n, lang, depth, s.(steps := s.steps + 1)).Some?
  {
    hide CheckArguments;
    hide NamedCall;
    hide Significant;
    assert s.(steps := s.steps + 1).(steps := s.steps) == s;
  }

  lemma ConsolePasses(n: Node, lang: Language, depth: nat, s: State, f: Node, a: Node)
    requires depth < MAX_DEPTH && n.Get(FunctionField) == Some(f) && n.Get(ArgumentsField) == Some(a)
    requires a.kind == ArgumentList || a.kind == Arguments
    requires CheckArguments(Significant(a.children), lang, depth + 1, s).Some?
    requires f.kind == Attribute || f.kind == MemberExpression
    requires f.Get(ObjectField).Some? && f.GetEither(AttributeField, PropertyField).Some?
    requires var o := f.Get(ObjectField).value; lang == JavaScript && o.kind == Identifier && o.text == "console"
    requires IsConsoleMethod(f.GetEither(AttributeField, PropertyField).value.text)
    ensures CheckCall(n, lang, depth, s.(steps := s.steps + 1)).Some?
  {
    hide CheckArguments;
    hide IsConsoleMethod;
    hide Significant;
    assert s.(steps := s.steps + 1).(steps := s.steps) == s;
  }

  lemma MethodPasses(n: Node, lang: Language, depth: nat, s: State, f: Node, a: Node)
    requires depth < MAX_DEPTH && n.Get(FunctionField) == Some(f) && n.Get(ArgumentsField) == Some(a)
    requires a.kind == ArgumentList || a.kind == Arguments
    requires CheckArguments(Significant(a.children), lang, depth + 1, s).Some?
    requires f.kind == Attribute || f.kind == MemberExpression
    requires f.Get(ObjectField).Some? && f.GetEither(AttributeField, PropertyField).Some?
    requires var o := f.Get(ObjectField).value; !(lang == JavaScript && o.kind == Identifier && o.text == "console")
    requires var c := CheckExpression(f.Get(ObjectField).value, lang, depth + 1,
               CheckArguments(Significant(a.children), lang, depth + 1, s).value);
             c.Some? && MethodCall(c.value.kind, f.GetEither(AttributeField, PropertyField).value.text).Some?
    ensures CheckCall(n, lang, depth, s.(steps := s.steps + 1)).Some?
  {
    hide CheckArguments;
    hide CheckExpression;
    hide MethodCall;
    hide Significant;
    assert s.(steps := s.steps + 1).(steps := s.steps) == s;
  }

  /** A safe call is of plain arguments. */
  lemma SafeCallsArePlain(n: Node, name: string, v: Value, args: seq<Arg>, lang: Language, w: World, m: Machine)
    ensures SafeTrace(CallNamed(n, name, args, lang, w, m).machine.trace) ==> PlainArgs(args)
    ensures SafeTrace(CallMethod(n, v, name, args, w, m).machine.trace) ==> PlainArgs(args)
    ensures SafeTrace(m.trace + [Console(name, args)]) ==> PlainArgs(args)
  {
    SafeLast(m.trace, Print(args));
    SafeLast(m.trace, Open(args));
    SafeLast(m.trace, Opaque(n));
    SafeLast(m.trace, Console(name, args));
    SafeNamedArgs(n, name, args, lang, w, m);
    SafeMethodArgs(n, name, v, args, w, m);
    hide SafeTrace;
    hide CallNamed;
    hide CallMethod;
  }

  lemma SafeNamedArgs(n: Node, name: string, args: seq<Arg>, lang: Language, w: World, m: Machine)
    ensures SafeTrace(CallNamed(n, name, args, lang, w, m).machine.trace) ==> PlainArgs(args)
  {
    SafeLast(m.trace, Print(args));
    SafeLast(m.trace, Open(args));
    SafeLast(m.trace, Opaque(n));
    if |args| == 1 { SafeLast(m.trace, Require(w.text(args[0].node.text), args)); }
    hide SafeTrace;
    hide PlainArgs;
    hide OpensPlainly;
  }

  lemma SafeMethodArgs(n: Node, name: string, v: Value, args: seq<Arg>, w: World, m: Machine)
    ensures SafeTrace(CallMethod(n, v, name, args, w, m).machine.trace) ==> PlainArgs(args)
  {
    SafeLast(m.trace, Opaque(n));
    match v
    case TextV(t) =>
      SafeLast(m.trace, TextMethod(name, t, args));
      hide SafeTrace;
      hide PlainArgs;
    case FileV(h) =>
      SafeLast(m.trace, FileMethod(name, h, args));
      hide SafeTrace;
      hide PlainArgs;
    case ModuleV(library) =>
      SafeLast(m.trace, ModuleMethod(name, library, args));
      hide SafeTrace;
      hide PlainArgs;
    case _ =>
      hide SafeTrace;
      hide PlainArgs;
  }

  lemma SafeLast(trace: seq<Effect>, e: Effect)
    ensures SafeTrace(trace + [e]) ==> Safe(e)
  {
    hide Safe;
    assert (trace + [e])[|trace|] == e;
  }

  lemma IsConsoleMeans(target: Node, lang: Language, s: State, w: World, m: Machine)
    requires Consistent(s, m, w) && (target.kind == Identifier ==> w.canon(target.text) == target.text)
    ensures IsConsole(target, lang, w, m) <==>
              lang == JavaScript && target.kind == Identifier && target.text == "console"
  {
    ConsoleUnbound(s, w, m);
  }

  lemma TameCall(n: Node, f: Node, a: Node, w: World, names: set<string>)
    requires Tame(n, w, names) && n.IsCall() && n.Get(FunctionField) == Some(f) && n.Get(ArgumentsField) == Some(a)
    ensures f.kind == Identifier ==> w.canon(f.text) == f.text
    ensures f.GetEither(AttributeField, PropertyField).Some? ==>
              var p := f.GetEither(AttributeField, PropertyField).value; w.canon(p.text) == p.text
    ensures f.Get(ObjectField).Some? ==>
              var o := f.Get(ObjectField).value; o.kind == Identifier ==> w.canon(o.text) == o.text
    ensures f.text == "require" ==> forall x :: x in Significant(a.children) ==> PlainlyQuoted(x.text)
  {
    hide PlainlyQuoted;
    B.BelowStep(n, n, f);
    if f.Get(ObjectField).Some? { B.BelowStep(n, f, f.Get(ObjectField).value); }
    hide Below;
    assert TameNode(n, w, names) && TameNode(f, w, names);
  }

  lemma {:induction false} WrittenAs(ns: seq<Node>, lang: Language, w: World, m: Machine)
    requires EvalArgs(ns, lang, w, m).args.Some?
    ensures Written(EvalArgs(ns, lang, w, m).args.value) == Significant(ns)
    decreases |ns|
  {
    hide *;
    SignificantStep(ns);
    EvalArgsCases(ns, lang, w, m);
    if ns == [] {
      NoneSignificant();
      ArgsEmpty();
    } else if !ns[0].named || ns[0].kind == Comment {
      WrittenAs(ns[1..], lang, w, m);
    } else {
      if ArgumentValue(ns[0]).None? { ArgCases(ns, lang, w, m); }
      var r := Eval(ArgumentValue(ns[0]).value, lang, w, m);
      WrittenAs(ns[1..], lang, w, r.machine);
      WrittenCons(Arg(ns[0], r.outcome.value), EvalArgs(ns[1..], lang, w, r.machine).args.value);
    }
  }

  lemma WrittenCons(a: Arg, rest: seq<Arg>)
    ensures Written([a] + rest) == [a.node] + Written(rest)
  {
    assert ([a] + rest)[1..] == rest;
  }

  lemma ArgumentsReady(n: Node, a: Node, depth: nat, w: World, names: set<string>)
    requires Ready(n, depth, w, names) && n.IsCall() && n.Get(ArgumentsField) == Some(a)
    ensures forall x :: x in Significant(a.children) && ArgumentValue(x).Some? ==>
              Ready(ArgumentValue(x).value, depth + 2, w, names) && |Below(ArgumentValue(x).value)| < |Below(n)|
  {
    hide *;
    IsACall(n);
    forall x | x in Significant(a.children) && ArgumentValue(x).Some?
      ensures Ready(ArgumentValue(x).value, depth + 2, w, names) && |Below(ArgumentValue(x).value)| < |Below(n)|
    {
      ArgumentVisited(n, a, x);
      ReadyVisit(n, ArgumentValue(x).value, depth, w, names);
    }
  }

  lemma IsACall(n: Node)
    requires n.IsCall()
    ensures (n.kind == Call || n.kind == CallExpression) && !IsText(n.kind)
  {}

  lemma ArgumentVisited(n: Node, a: Node, x: Node)
    requires n.IsCall() && n.Get(ArgumentsField) == Some(a) && x in Significant(a.children) && ArgumentValue(x).Some?
    ensures B.Visits(n, ArgumentValue(x).value)
  {
    hide Significant;
    hide ArgumentValue;
    assert B.IsArgument(n, ArgumentValue(x).value);
    hide B.IsReceiver;
    hide B.IsArgument;
  }

  lemma ReceiverReady(n: Node, f: Node, o: Node, depth: nat, w: World, names: set<string>)
    requires Ready(n, depth, w, names) && n.IsCall() && n.Get(FunctionField) == Some(f) && f.Get(ObjectField) == Some(o)
    requires f.kind == Attribute || f.kind == MemberExpression
    ensures |Below(o)| < |Below(n)| && (o.kind != Identifier ==> Ready(o, depth + 2, w, names))
    ensures o.kind == Identifier ==> Tame(o, w, names)
    ensures depth + 2 < MAX_DEPTH
  {
    hide *;
    ReadyCases(n, depth, w, names);
    IsACall(n);
    B.BelowStep(n, n, f);
    B.BelowStep(n, f, o);
    ChildLevels(n, f);
    ChildLevels(f, o);
    LevelsIs(o);
    if o.kind != Identifier {
      ReceiverVisited(n, f, o);
      ReadyVisit(n, o, depth, w, names);
    } else {
      BelowIsTame(n, o, w, names);
    }
  }

  lemma ReceiverVisited(n: Node, f: Node, o: Node)
    requires n.IsCall() && n.Get(FunctionField) == Some(f) && f.Get(ObjectField) == Some(o)
    requires (f.kind == Attribute || f.kind == MemberExpression) && o.kind != Identifier
    ensures B.Visits(n, o)
  {
    assert B.IsReceiver(n, o);
    hide B.IsReceiver;
    hide B.IsArgument;
  }

  lemma CompleteCall(n: Node, lang: Language, depth: nat, s: State, names: set<string>, w: World, m: Machine)
    returns (b: nat)
    requires Answers(w) && Ready(n, depth, w, names) && depth < MAX_DEPTH && Room(s, names, w) && Consistent(s, m, w)
    requires (n.kind == Call || n.kind == CallExpression) && SafeTrace(EvalCall(n, lang, w, m).machine.trace)
    ensures depth + 1 < MAX_DEPTH && CheckCall(n, lang, depth + 1, s.(steps := b)).Some?
    decreases |Below(n)|, 3
  {
    hide *;
    ReadyCases(n, depth, w, names);
    KindCases(n);
    CallIsCall(n);
    var f, a, m1, args := CallSafe(n, lang, w, m);
    SafeCallCases(n, f, a, m1, args, lang, w, m);
    var r := EvalArgs(a.children, lang, w, m1);
    TameCall(n, f, a, w, names);
    ArgumentsReady(n, a, depth, w, names);
    CallHeight(n, a);
    SteadyConsistent(s, m, m1, w);
    WrittenAs(a.children, lang, w, m1);
    if f.kind == Identifier {
      SafeCallsArePlain(n, w.canon(f.text), UnknownV, args, lang, w, r.machine);
      var b1 := CompleteArguments(a.children, n, lang, depth + 2, s, names, w, m1);
      WrittenArgs(args);
      ConsistentProper(s, w, m);
      QuotedArgument(f, a, args);
      NamedGoes(lang, f.text, n, args, w, r.machine);
      NamedSafe(n, f.text, args, lang, w, r.machine);
      NamedPasses(n, lang, depth + 1, s.(steps := b1), f, a);
      b := b1 + 1;
    } else {
      var o, p := f.Get(ObjectField).value, f.GetEither(AttributeField, PropertyField).value;
      IsConsoleMeans(o, lang, s, w, m);
      if IsConsole(o, lang, w, m) {
        SafeCallsArePlain(n, p.text, UnknownV, args, lang, w, r.machine);
        var b1 := CompleteArguments(a.children, n, lang, depth + 2, s, names, w, m1);
        MethodSets(p.text);
        ConsolePasses(n, lang, depth + 1, s.(steps := b1), f, a);
        b := b1 + 1;
      } else {
        b := CompleteMethod(n, f, a, o, p, lang, depth, s, names, w, m, m1, args);
      }
    }
  }

  lemma CallIsCall(n: Node)
    requires n.kind == Call || n.kind == CallExpression
    ensures n.IsCall() && !IsText(n.kind)
  {}

  lemma CallHeight(n: Node, a: Node)
    requires n.Get(ArgumentsField) == Some(a)
    ensures Levels(n) >= 2
  {
    LevelsIs(a);
    ChildLevels(n, a);
    hide Levels;
  }

  lemma SteadyConsistent(s: State, m: Machine, m1: Machine, w: World)
    requires Consistent(s, m, w) && Steady(m, true, m1, true) && SafeTrace(m1.trace)
    ensures Consistent(s, m1, w)
  {
    SteadyTracks(s.values, m, true, m1, w);
    hide Tracks;
  }

  lemma QuotedArgument(f: Node, a: Node, args: seq<Arg>)
    requires Written(args) == Significant(a.children) && |args| == |Written(args)|
    requires forall k :: 0 <= k < |args| ==> Written(args)[k] == args[k].node
    requires f.text == "require" ==> forall x :: x in Significant(a.children) ==> PlainlyQuoted(x.text)
    ensures f.text == "require" && |args| == 1 ==> PlainlyQuoted(args[0].node.text)
  {
    hide PlainlyQuoted;
    hide Written;
    hide Significant;
    if f.text == "require" && |args| == 1 {
      assert Significant(a.children)[0] in Significant(a.children);
    }
  }

  lemma NamedSafe(n: Node, name: string, args: seq<Arg>, lang: Language, w: World, m: Machine)
    requires Goes(CallNamed(n, name, args, lang, w, m), m, NamedCall(lang, name, Written(args)))
    requires SafeTrace(CallNamed(n, name, args, lang, w, m).machine.trace)
    ensures NamedCall(lang, name, Written(args)).Some?
  {
    hide CallNamed;
    hide NamedCall;
    hide Performs;
    hide SafeTrace;
  }

  lemma CompleteMethod(n: Node, f: Node, a: Node, o: Node, p: Node, lang: Language, depth: nat, s: State,
                       names: set<string>, w: World, m: Machine, m1: Machine, args: seq<Arg>) returns (b: nat)
    requires Answers(w) && Ready(n, depth, w, names) && depth + 1 < MAX_DEPTH && Room(s, names, w)
    requires Consistent(s, m, w) && Consistent(s, m1, w) && n.IsCall()
    requires n.Get(FunctionField) == Some(f) && n.Get(ArgumentsField) == Some(a)
    requires (a.kind == ArgumentList || a.kind == Arguments) && Expressions(a.children)
    requires (f.kind == Attribute || f.kind == MemberExpression) && f.Get(ObjectField) == Some(o) && IsExpression(o)
    requires f.GetEither(AttributeField, PropertyField) == Some(p) && w.canon(p.text) == p.text
    requires !(lang == JavaScript && o.kind == Identifier && o.text == "console")
    requires var t, r := Eval(o, lang, w, m), EvalArgs(a.children, lang, w, m1);
             && t.outcome.Returned? && m1 == t.machine && r.args == Some(args) && SafeTrace(r.machine.trace)
             && SafeTrace(CallMethod(n, t.outcome.value, p.text, args, w, r.machine).machine.trace)
    requires forall x :: x in Significant(a.children) && ArgumentValue(x).Some? ==>
               Ready(ArgumentValue(x).value, depth + 2, w, names) && |Below(ArgumentValue(x).value)| < |Below(n)|
    ensures CheckCall(n, lang, depth + 1, s.(steps := b)).Some?
    decreases |Below(n)|, 2
  {
    hide *;
    var t, r := Eval(o, lang, w, m), EvalArgs(a.children, lang, w, m1);
    SafeCallsArePlain(n, p.text, t.outcome.value, args, lang, w, r.machine);
    ConsistentParts(s, m1, w);
    var b1 := CompleteArguments(a.children, n, lang, depth + 2, s, names, w, m1);
    AnySteps(s, b1, names, w, m1);
    SoundArguments(a.children, lang, depth + 2, s.(steps := b1), w, m1);
    var s2 := CheckArguments(Significant(a.children), lang, depth + 2, s.(steps := b1)).value;
    SignificantExpressions(a.children);
    ArgumentsKeepNames(Significant(a.children), lang, depth + 2, s.(steps := b1));
    EqualNames(s, s2, m, w);
    RoomCases(s, names, w);
    RoomFor(s, s2, names, w);
    ReceiverReady(n, f, o, depth, w, names);
    var b2 := CompleteReceiver(n, o, lang, depth + 2, s2, names, w, m);
    AnySteps(s2, b2, names, w, m);
    ReceiverAfter(o, lang, depth + 2, s2.(steps := b2), names, w, m);
    var c := CheckExpression(o, lang, depth + 2, s2.(steps := b2)).value;
    ListGrows(s.values, m1, r, w);
    KindLasts(t.outcome.value, c.kind, m1.trace, r.machine.trace);
    MethodGoes(c.kind, p.text, n, t.outcome.value, args, w, r.machine);
    UnrulyIsUnsafe(n, w, r.machine);
    var b3 := ArgumentsPays(Significant(a.children), lang, depth + 2, s, b1, b2);
    MethodPasses(n, lang, depth + 1, s.(steps := b3), f, a);
    b := b3 + 1;
  }

  lemma ListGrows(values: map<string, Abstract>, m: Machine, r: ArgRuns, w: World)
    requires ConformsAll(values, m, r.args.Some?, r.machine, w)
    ensures m.trace <= r.machine.trace
  {}

  lemma SignificantExpressions(ns: seq<Node>)
    requires Expressions(ns)
    ensures Expressions(Significant(ns))
  {
    hide IsExpression;
    forall k | 0 <= k < |Significant(ns)| ensures IsExpression(Significant(ns)[k]) {
      assert Significant(ns)[k] in Significant(ns);
      assert Significant(ns)[k] in ns;
    }
  }

  /** A receiver: a name that is bound, or any other expression. */
  lemma CompleteReceiver(n: Node, o: Node, lang: Language, depth: nat, s: State, names: set<string>, w: World,
                         m: Machine)
    returns (b: nat)
    requires Answers(w) && depth < MAX_DEPTH && Room(s, names, w) && Consistent(s, m, w) && |Below(o)| < |Below(n)|
    requires if o.kind == Identifier then Tame(o, w, names) else Ready(o, depth, w, names)
    requires SafeTrace(Eval(o, lang, w, m).machine.trace)
    ensures CheckExpression(o, lang, depth, s.(steps := b)).Some?
    decreases |Below(n)|, 0
  {
    hide *;
    if o.kind == Identifier {
      b := CompleteName(o, lang, depth, s, names, w, m);
    } else {
      b := CompleteNode(o, lang, depth, s, names, w, m);
    }
  }

  lemma CompleteName(n: Node, lang: Language, depth: nat, s: State, names: set<string>, w: World, m: Machine)
    returns (b: nat)
    requires n.kind == Identifier && depth < MAX_DEPTH && Tame(n, w, names) && Consistent(s, m, w) && Room(s, names, w)
    requires SafeTrace(Eval(n, lang, w, m).machine.trace)
    ensures CheckExpression(n, lang, depth, s.(steps := b)).Some?
  {
    hide *;
    EvalCases(n, lang, w, m);
    UnrulyIsUnsafe(n, w, m);
    TameName(n, w, names);
    BoundIsRecorded(n.text, s, names, w, m);
    CheckCases(n, lang, depth, s, 0);
    b := 1;
  }

  lemma TameName(n: Node, w: World, names: set<string>)
    requires Tame(n, w, names) && n.kind == Identifier
    ensures w.canon(n.text) == n.text
  {
    hide Below;
  }

  lemma BoundIsRecorded(x: string, s: State, names: set<string>, w: World, m: Machine)
    requires Consistent(s, m, w) && Room(s, names, w) && x in m.env
    ensures x in s.values
  {
    hide Proper;
    assert x in Images(s.values.Keys, w.canon);
  }

  lemma ReceiverAfter(o: Node, lang: Language, depth: nat, s: State, names: set<string>, w: World, m: Machine)
    requires Answers(w) && depth <= MAX_DEPTH && Room(s, names, w) && Consistent(s, m, w) && IsExpression(o)
    requires CheckExpression(o, lang, depth, s).Some? && Eval(o, lang, w, m).outcome.Returned?
    ensures HasKind(Eval(o, lang, w, m).outcome.value, CheckExpression(o, lang, depth, s).value.kind,
                    Eval(o, lang, w, m).machine.trace)
  {
    hide *;
    IsGrammatical(o);
    ConsistentParts(s, m, w);
    ExpressionApart(o, lang, depth, s, w, m);
    SoundExpression(o, lang, depth, s, w, m);
    var c := CheckExpression(o, lang, depth, s).value;
    ReturnedConforms(c.kind, c.state, m, Eval(o, lang, w, m), w);
  }

  // ------------------------------------------------------------------ strings

  lemma OperandReady(n: Node, d: Node, depth: nat, w: World, names: set<string>)
    requires IsText(n.kind) && Ready(n, depth, w, names) && d in Below(n) && d.IsInterpolation() && Operand(d).Some?
    ensures Ready(Operand(d).value, depth + 1, w, names) && IsExpression(Operand(d).value)
    ensures |Below(Operand(d).value)| < |Below(n)|
  {
    hide *;
    var e := Operand(d).value;
    ReadyCases(n, depth, w, names);
    TextShown(n);
    B.BelowIs(n);
    OperandIsBelow(n, d);
    OperandInList(n.children, d);
    BelowIsGrammatical(n, d);
    OperandExpression(d);
    B.BelowIs(n);
    BelowLevels(n.children, d);
    OperandChild(d);
    ChildLevels(d, e);
    LevelsIs(n);
    ReadyBelow(n, e, depth, depth + 1, w, names);
  }

  lemma OperandChild(d: Node)
    requires Operand(d).Some?
    ensures Operand(d).value in d.children
  {}

  lemma OperandInList(ns: seq<Node>, d: Node)
    requires OperandsShown(ns) && d in BelowAll(ns) && d.IsInterpolation() && Operand(d).Some?
    ensures Shown(Operand(d).value)
  {
    hide Shown;
    hide Operand;
  }

  lemma PartRunsCases(d: Node, lang: Language, values: map<string, Abstract>, w: World, m: Machine)
    requires PartRuns(d, lang, values, w, m)
    ensures SafeTrace(m.trace) && Tracks(values, m, w) && Operand(d).Some?
    ensures var r := Eval(Operand(d).value, lang, w, m);
            && SafeTrace(r.machine.trace) && r.outcome.Returned? && (r.outcome.value.TextV? || r.outcome.value.ScalarV?)
  {
    hide SafeTrace;
    hide Tracks;
    hide Operand;
    hide Eval;
  }

  /** The walk below a string: every interpolation is evaluated somewhere, so its expression passes. */
  lemma {:induction false} CompleteParts(ns: seq<Node>, n: Node, lang: Language, depth: nat, s: State,
          names: set<string>, w: World, m: Machine) returns (b: nat)
    requires Answers(w) && IsText(n.kind) && Ready(n, depth, w, names) && depth < MAX_DEPTH
    requires Room(s, names, w) && Consistent(s, m, w) && SafeTrace(EvalParts(n.children, -1, lang, w, m).machine.trace)
    requires forall d :: d in ns ==> d in Below(n)
    ensures CheckParts(ns, lang, depth, s.(steps := b)).Some?
    decreases |Below(n)|, 1, |ns|
  {
    hide *;
    if ns == [] {
      NoParts(lang, depth);
      b := 0;
    } else if !ns[0].IsInterpolation() {
      var b1 := CompleteParts(ns[1..], n, lang, depth, s, names, w, m);
      b := b1 + 1;
      CheckPartsNext(ns, lang, depth, s.(steps := b));
      assert s.(steps := b).(steps := b1) == s.(steps := b1);
    } else {
      var d := ns[0];
      assert d in ns;
      ReadyCases(n, depth, w, names);
      TextShown(n);
      B.BelowIs(n);
      PartsOf(n);
      ConsistentParts(s, m, w);
      var m' := PartsShow(n.children, -1, lang, s.values, w, m, d);
      PartRunsCases(d, lang, s.values, w, m');
      MakeConsistent(s, s.values, m', w);
      OperandReady(n, d, depth, w, names);
      var e := Operand(d).value;
      var b1 := CompleteNode(e, lang, depth + 1, s, names, w, m');
      AnySteps(s, b1, names, w, m');
      After(e, lang, depth + 1, s.(steps := b1), names, w, m');
      ExpressionKeepsNames(e, lang, depth + 1, s.(steps := b1));
      var c := CheckExpression(e, lang, depth + 1, s.(steps := b1)).value;
      TextKind(Eval(e, lang, w, m').outcome.value, c.kind, Eval(e, lang, w, m').machine.trace);
      EqualNames(s, c.state, m, w);
      var b2 := CompleteParts(ns[1..], n, lang, depth, c.state, names, w, m);
      var b3 := Pays(e, lang, depth + 1, s, b1, b2);
      b := b3 + 1;
      CheckPartsNext(ns, lang, depth, s.(steps := b));
      assert s.(steps := b).(steps := b3) == s.(steps := b3);
    }
  }

  // --------------------------------------------------------------- every node

  lemma SequenceReady(n: Node, depth: nat, w: World, names: set<string>)
    requires Ready(n, depth, w, names) && B.IsSequence(n.kind)
    ensures forall c :: c in Significant(n.children) ==> Ready(c, depth + 1, w, names) && |Below(c)| < |Below(n)|
  {
    hide Ready;
    hide Below;
    hide Significant;
    forall c | c in Significant(n.children) ensures Ready(c, depth + 1, w, names) && |Below(c)| < |Below(n)| {
      ReadyVisit(n, c, depth, w, names);
    }
  }

  lemma SequenceKinds(n: Node)
    ensures n.kind in {Module, Program, LexicalDeclaration, VariableDeclaration, ConcatenatedString} ==>
              B.IsSequence(n.kind)
  {}

  lemma OnlyVisits(n: Node)
    requires (n.kind == ExpressionStatement || n.kind == Parenthesized) && |Significant(n.children)| == 1
    ensures B.Visits(n, Significant(n.children)[0]) && !n.IsCall() && !IsText(n.kind)
  {
    hide Significant;
  }

  /** What runs safely passes, out of some budget. */
  lemma {:induction false} CompleteNode(n: Node, lang: Language, depth: nat, s: State, names: set<string>, w: World,
          m: Machine)
    returns (b: nat)
    requires Answers(w) && Ready(n, depth, w, names) && depth <= MAX_DEPTH && Room(s, names, w) && Consistent(s, m, w)
    requires SafeTrace(Eval(n, lang, w, m).machine.trace)
    ensures CheckExpression(n, lang, depth, s.(steps := b)).Some?
    decreases |Below(n)|, 4
  {
    hide *;
    ReadyCases(n, depth, w, names);
    EvalCases(n, lang, w, m);
    UnrulyIsUnsafe(n, w, m);
    SequenceKinds(n);
    PartsOf(n);
    var b0: nat := 0;
    match n.kind {
      case Module | Program | LexicalDeclaration | VariableDeclaration =>
        SequenceReady(n, depth, w, names);
        b0 := CompleteSequence(n.children, n, lang, depth + 1, s, false, names, w, m);
      case ExpressionStatement | Parenthesized =>
        OnlyVisits(n);
        ReadyVisit(n, Significant(n.children)[0], depth, w, names);
        b0 := CompleteNode(Significant(n.children)[0], lang, depth + 1, s, names, w, m);
      case Assignment | VariableDeclarator => b0 := CompleteBinding(n, lang, depth, s, names, w, m);
      case Identifier => b0 := CompleteName(n, lang, depth, s, names, w, m);
      case StringLiteral | TemplateString =>
        B.BelowIs(n);
        TextKinds(n);
        b0 := CompleteParts(Below(n), n, lang, depth, s, names, w, m);
      case ConcatenatedString =>
        SequenceReady(n, depth, w, names);
        ConcatenatedSafe(n, lang, w, m);
        b0 := CompleteSequence(n.children, n, lang, depth + 1, s, true, names, w, m);
      case BinaryOperator | BinaryExpression => b0 := CompleteBinary(n, lang, depth, s, names, w, m);
      case Call | CallExpression => b0 := CompleteCall(n, lang, depth, s, names, w, m);
      case _ =>
    }
    CheckCases(n, lang, depth, s, b0);
    b := if n.kind == Identifier then b0 else b0 + 1;
  }

  lemma TextKinds(n: Node)
    ensures n.kind == StringLiteral || n.kind == TemplateString ==> IsText(n.kind)
  {}

  lemma ConcatenatedSafe(n: Node, lang: Language, w: World, m: Machine)
    requires Answers(w) && Grammatical(n) && n.kind == ConcatenatedString
             && SafeTrace(Eval(n, lang, w, m).machine.trace)
    ensures var r := EvalAll(n.children, lang, w, m);
            SafeTrace(r.machine.trace) && r.values.Some? && AreTexts(r.values.value)
  {
    hide *;
    EvalCases(n, lang, w, m);
    PartsOf(n);
    var r := EvalAll(n.children, lang, w, m);
    SteadyAll(n.children, lang, w, m);
    UnrulyIsUnsafe(n, w, r.machine);
    SafeBefore(m, r.values.Some?, r.machine, Expressions(n.children));
    if r.values.Some? { AreTextsIs(r.values.value); }
  }

  lemma AreTextsIs(vs: seq<Value>)
    ensures AreTexts(vs) <==> forall k :: 0 <= k < |vs| ==> vs[k].TextV?
  {}

  // -------------------------------------------------------------- the theorem

  /** What a program has to keep to, apart from the work it costs: the grammars, at most 64 levels, and
      fewer than 128 names, which are their own spelling and can be assigned, and are no API names. */
  ghost predicate WithinLimits(root: Node, w: World, names: set<string>) {
    && Grammatical(root) && Shown(root) && Levels(root) <= 64
    && Tame(root, w, names) && |names| < 128 && Apart(names, w.canon, w.fixed)
    && forall x :: x in names ==> w.canon(x) == x
  }

  /** The program asks nothing of the world but plain text, console and file operations. */
  ghost predicate RunsSafely(root: Node, lang: Language, w: World) {
    SafeTrace(Eval(root, lang, w, Machine(map[], [])).machine.trace)
  }

  lemma Begins(w: World, names: set<string>, b: nat)
    requires Proper(w) && |names| < 128 && Apart(names, w.canon, w.fixed) && forall x :: x in names ==> w.canon(x) == x
    ensures Consistent(State(map[], [], b), Machine(map[], []), w) && Room(State(map[], [], b), names, w)
  {
    hide Proper;
  }

  lemma LimitsAre(root: Node, w: World, names: set<string>)
    requires WithinLimits(root, w, names)
    ensures Ready(root, 0, w, names) && Grammatical(root) && Tame(root, w, names)
    ensures |names| < 128 && Apart(names, w.canon, w.fixed) && forall x :: x in names ==> w.canon(x) == x
  {
    hide Grammatical;
    hide Shown;
    hide Tame;
  }

  /** A budget accepts the program if and only if it covers this price. */
  ghost predicate Costs(root: Node, lang: Language, price: nat) {
    price > 0 && forall b: nat :: CheckExpression(root, lang, 0, State(map[], [], b)).Some? <==> b >= price
  }

  /** Acceptance, exactly. A program within the limits passes with some budget if and only if it runs
      safely in a world that answers; then it has a price, which a budget has to cover, and it is
      accepted if and only if the price is at most 16384. */
  lemma SafeProgramsPass(root: Node, lang: Language, w: World, names: set<string>)
    requires Answers(w) && Proper(w) && WithinLimits(root, w, names)
    ensures RunsSafely(root, lang, w) <==> exists b: nat :: CheckExpression(root, lang, 0, State(map[], [], b)).Some?
    ensures RunsSafely(root, lang, w) ==>
              exists price :: Costs(root, lang, price) && (Accepted(root, lang) <==> price <= 16384)
  {
    var s, m := State(map[], [], 0), Machine(map[], []);
    LimitsAre(root, w, names);
    Safely(root, lang, w);
    hide *;
    if RunsSafely(root, lang, w) {
      Begins(w, names, 0);
      var b := CompleteNode(root, lang, 0, s, names, w, m);
      assert s.(steps := b) == State(map[], [], b);
      var price := HasPrice(root, lang, b);
      Priced(root, lang, price);
    }
    if b: nat :| CheckExpression(root, lang, 0, State(map[], [], b)).Some? {
      var s1 := State(map[], [], b);
      Begins(w, names, b);
      After(root, lang, 0, s1, names, w, m);
    }
  }

  lemma Safely(root: Node, lang: Language, w: World)
    ensures RunsSafely(root, lang, w) <==> SafeTrace(Eval(root, lang, w, Machine(map[], [])).machine.trace)
  {
    hide SafeTrace;
    hide Eval;
  }

  lemma Priced(root: Node, lang: Language, price: nat)
    requires Costs(root, lang, price)
    ensures Accepted(root, lang) <==> price <= 16384
  {
    hide CheckExpression;
  }

  lemma HasPrice(root: Node, lang: Language, b: nat) returns (price: nat)
    requires CheckExpression(root, lang, 0, State(map[], [], b)).Some?
    ensures Costs(root, lang, price)
  {
    hide CheckExpression;
    var s := State(map[], [], b);
    B.BudgetIsACutoff(root, lang, 0, s, b);
    price := b - CheckExpression(root, lang, 0, s).value.state.steps;
    forall c: nat ensures CheckExpression(root, lang, 0, State(map[], [], c)).Some? <==> c >= price {
      B.BudgetIsACutoff(root, lang, 0, s, c);
      assert s.(steps := c) == State(map[], [], c);
    }
  }
}

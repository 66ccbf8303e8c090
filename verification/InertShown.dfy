/** Where the strings of a program stand: a run that asks for nothing unsafe has evaluated every
    interpolation that the documentation proof looks at, to text or a scalar. */
module InertShown {
  import opened InertProof
  import opened InertRun
  import opened InertSoundness
  import opened InertSteady
  import opened InertTables
  import opened Syntax
  import opened Wrappers

  import B = InertBudget

  // ---------------------------------------------------------- shapes of trees

  /** The levels of a tree. */
  function Levels(n: Node): nat
    decreases n, 1
  {
    1 + LevelsOf(n.children)
  }

  function LevelsOf(ns: seq<Node>): nat
    decreases ns, 0
  {
    if ns == [] then 0 else if Levels(ns[0]) > LevelsOf(ns[1..]) then Levels(ns[0]) else LevelsOf(ns[1..])
  }

  lemma {:induction false} LevelsChild(ns: seq<Node>, c: Node)
    requires c in ns
    ensures Levels(c) <= LevelsOf(ns)
  {
    hide Levels;
    if ns[0] != c { LevelsChild(ns[1..], c); }
  }

  lemma ChildLevels(n: Node, c: Node)
    requires c in n.children
    ensures Levels(c) < Levels(n)
  {
    LevelsChild(n.children, c);
  }

  lemma {:induction false} BelowLevels(ns: seq<Node>, d: Node)
    requires d in BelowAll(ns)
    ensures Levels(d) <= LevelsOf(ns)
    decreases ns
  {
    hide Levels;
    hide Below;
    B.BelowUnfolds(ns);
    if d in BelowAll(ns[1..]) {
      BelowLevels(ns[1..], d);
    } else if d != ns[0] {
      B.BelowIs(ns[0]);
      BelowLevels(ns[0].children, d);
      LevelsIs(ns[0]);
    }
  }

  lemma LevelsIs(n: Node)
    ensures Levels(n) == 1 + LevelsOf(n.children)
  {}

  /** Interpolations stand only in strings, and strings only where they are evaluated: below a node that
      is no string each is below one of the nodes that evaluation goes on to. */
  ghost predicate Shown(n: Node)
    decreases |Below(n)|
  {
    if IsText(n.kind) then
      forall d :: d in Below(n) && d.IsInterpolation() && Operand(d).Some? && |Below(Operand(d).value)| < |Below(n)| ==>
        Shown(Operand(d).value)
    else
      && (forall d :: d in Below(n) && d.IsInterpolation() ==> exists c :: B.Visits(n, c) && d in Below(c))
      && (forall c :: B.Visits(n, c) && |Below(c)| < |Below(n)| ==> Shown(c))
  }

  /** Every interpolation of the list has an expression that is shown. */
  ghost predicate OperandsShown(ns: seq<Node>) {
    forall d :: d in BelowAll(ns) && d.IsInterpolation() && Operand(d).Some? ==> Shown(Operand(d).value)
  }

  lemma OperandIsBelow(n: Node, d: Node)
    requires d in Below(n) && Operand(d).Some?
    ensures Operand(d).value in Below(n) && |Below(Operand(d).value)| < |Below(n)| && Operand(d).value in Below(d)
  {
    B.BelowStep(n, d, Operand(d).value);
    B.BelowStep(d, d, Operand(d).value);
  }

  lemma TextShown(n: Node)
    requires IsText(n.kind) && Shown(n)
    ensures OperandsShown(n.children)
  {
    hide Operand;
    B.BelowIs(n);
    forall d | d in BelowAll(n.children) && d.IsInterpolation() && Operand(d).Some? ensures Shown(Operand(d).value) {
      OperandIsBelow(n, d);
    }
  }

  lemma OtherShown(n: Node, d: Node) returns (c: Node)
    requires !IsText(n.kind) && Shown(n) && d in Below(n) && d.IsInterpolation()
    ensures B.Visits(n, c) && d in Below(c) && Shown(c) && |Below(c)| < |Below(n)|
  {
    hide B.Visits;
    c :| B.Visits(n, c) && d in Below(c);
    B.VisitsBelow(n, c);
  }

  lemma VisitShown(n: Node, c: Node)
    requires !IsText(n.kind) && Shown(n) && B.Visits(n, c)
    ensures Shown(c) && c in Below(n) && |Below(c)| < |Below(n)|
  {
    hide B.Visits;
    B.VisitsBelow(n, c);
  }

  /** What is below something below is below. */
  lemma BelowTrans(n: Node, c: Node, d: Node)
    requires c in Below(n) && d in Below(c)
    ensures d in Below(n)
  {
    B.BelowIs(n);
    var pre, post := B.Segment(n.children, c);
    hide Below;
    assert d in [c] + Below(c);
  }

  lemma OperandsBelow(ns: seq<Node>, more: seq<Node>)
    requires OperandsShown(ns) && forall d :: d in BelowAll(more) ==> d in BelowAll(ns)
    ensures OperandsShown(more)
  {
    hide Operand;
    hide Shown;
  }

  // ------------------------------------------------ every part is evaluated

  /** From `m` the expression of the interpolation `d` runs safely to text or a scalar. */
  ghost predicate PartRuns(d: Node, lang: Language, values: map<string, Abstract>, w: World, m: Machine) {
    && SafeTrace(m.trace) && Tracks(values, m, w) && Operand(d).Some?
    && var r := Eval(Operand(d).value, lang, w, m);
       && SafeTrace(r.machine.trace) && r.outcome.Returned? && (r.outcome.value.TextV? || r.outcome.value.ScalarV?)
  }

  lemma SteadyTracks(values: map<string, Abstract>, m: Machine, done: bool, after: Machine, w: World)
    requires Tracks(values, m, w) && Steady(m, done, after, true) && SafeTrace(after.trace)
    ensures Tracks(values, after, w) && SafeTrace(m.trace) && done
  {
    SafePrefix(m.trace, after.trace);
    TracksLonger(values, m, after.trace, w);
    hide Tracks;
    hide SafeTrace;
    assert after == m.(trace := after.trace);
  }

  lemma SafeBefore(m: Machine, done: bool, after: Machine, keeps: bool)
    requires Steady(m, done, after, keeps) && SafeTrace(after.trace)
    ensures SafeTrace(m.trace) && done
  {
    SafePrefix(m.trace, after.trace);
  }

  lemma ListBelow(ns: seq<Node>)
    requires ns != []
    ensures BelowAll(ns) == [ns[0]] + Below(ns[0]) + BelowAll(ns[1..]) && Below(ns[0]) == BelowAll(ns[0].children)
    ensures forall d :: d in BelowAll(ns) <==> d == ns[0] || d in BelowAll(ns[0].children) || d in BelowAll(ns[1..])
    ensures |BelowAll(ns[0].children)| < |BelowAll(ns)| && |BelowAll(ns[1..])| < |BelowAll(ns)|
  {
    B.BelowUnfolds(ns);
    B.BelowIs(ns[0]);
  }

  /** An interpolation below a list whose parts run safely is evaluated on the way; the child at `skip`
      has been before. */
  lemma {:induction false} PartsShow(ns: seq<Node>, skip: int, lang: Language, values: map<string, Abstract>, w: World,
                                     m: Machine, d: Node) returns (m': Machine)
    requires Answers(w) && GrammaticalAll(ns) && OperandsShown(ns) && Tracks(values, m, w)
    requires SafeTrace(EvalParts(ns, skip, lang, w, m).machine.trace)
    requires d in BelowAll(ns) && d.IsInterpolation()
    requires 0 <= skip < |ns| ==> d != ns[skip] && d !in Below(ns[skip])
    ensures PartRuns(d, lang, values, w, m')
    decreases |BelowAll(ns)|, 0
  {
    hide *;
    B.BelowUnfolds(ns);
    ListBelow(ns);
    GrammaticalStep(ns);
    EvalPartsCases(ns, skip, lang, w, m);
    OperandsBelow(ns, ns[1..]);
    OperandsBelow(ns, ns[0].children);
    if skip == 0 {
      m' := PartsShow(ns[1..], -1, lang, values, w, m, d);
    } else {
      var head := if ns[0].IsInterpolation() then EvalInterpolation(ns[0], lang, w, m)
                  else EvalParts(ns[0].children, -1, lang, w, m);
      if ns[0].IsInterpolation() {
        SteadyInterpolation(ns[0], lang, w, m);
      } else {
        SteadyParts(ns[0].children, -1, lang, w, m);
      }
      var all, rest := EvalParts(ns, skip, lang, w, m), EvalParts(ns[1..], skip - 1, lang, w, head.machine);
      SteadyParts(ns[1..], skip - 1, lang, w, head.machine);
      if head.values.Some? { SafeBefore(head.machine, rest.values.Some?, rest.machine, true); }
      SteadyTracks(values, m, head.values.Some?, head.machine, w);
      if d == ns[0] || d in Below(ns[0]) {
        if ns[0].IsInterpolation() {
          m' := InterpolationShows(ns[0], lang, values, w, m, d, ns);
        } else {
          m' := PartsShow(ns[0].children, -1, lang, values, w, m, d);
        }
      } else {
        m' := PartsShow(ns[1..], skip - 1, lang, values, w, head.machine, d);
      }
    }
  }

  lemma {:induction false} InterpolationShows(part: Node, lang: Language, values: map<string, Abstract>, w: World,
                                              m: Machine, d: Node, all: seq<Node>) returns (m': Machine)
    requires Answers(w) && Grammatical(part) && part.IsInterpolation() && Tracks(values, m, w)
    requires OperandsShown(all) && part in all
    requires SafeTrace(EvalInterpolation(part, lang, w, m).machine.trace)
    requires (d == part || d in Below(part)) && d.IsInterpolation()
    ensures PartRuns(d, lang, values, w, m')
    decreases |Below(part)|, 1
  {
    hide *;
    PartCases(part, lang, w, m);
    B.BelowIs(part);
    AllBelow(all, part);
    OperandsBelow(all, part.children);
    if Operand(part).None? {
      UnrulyIsUnsafe(part, w, m);
      assert false;
    } else {
      var e := Operand(part).value;
      var r, more := Eval(e, lang, w, m),
          EvalParts(part.children, OperandIndex(part), lang, w, Eval(e, lang, w, m).machine);
      OperandExpression(part);
      IsGrammatical(e);
      PartsOf(part);
      SteadyEval(e, lang, w, m);
      SteadyParts(part.children, OperandIndex(part), lang, w, r.machine);
      UnrulyIsUnsafe(part, w, r.machine);
      OperandPlace(part);
      OperandPlaced(all, part);
      if r.outcome.Returned? && (r.outcome.value.TextV? || r.outcome.value.ScalarV?) {
        SafeBefore(r.machine, more.values.Some?, more.machine, true);
      }
      SteadyTracks(values, m, r.outcome.Returned?, r.machine, w);
      if d == part {
        m' := m;
        IsPartRuns(part, lang, values, w, m);
      } else if d == e {
        PartIsUnruly(e, lang, w, m);
        UnrulyIsUnsafe(e, w, m);
        assert false;
      } else if d in Below(e) {
        m' := NodeShows(e, lang, values, w, m, d);
      } else {
        m' := PartsShow(part.children, OperandIndex(part), lang, values, w, r.machine, d);
      }
    }
  }

  lemma AllBelow(all: seq<Node>, part: Node)
    requires part in all
    ensures part in BelowAll(all) && forall d :: d in BelowAll(part.children) ==> d in BelowAll(all)
  {
    B.BelowIs(part);
    BelowOf(all, part);
  }

  lemma {:induction false} BelowOf(ns: seq<Node>, c: Node)
    requires c in ns
    ensures c in BelowAll(ns) && forall d :: d in Below(c) ==> d in BelowAll(ns)
    decreases |ns|
  {
    hide Below;
    B.BelowUnfolds(ns);
    if ns[0] != c { BelowOf(ns[1..], c); }
  }

  lemma OperandPlace(part: Node)
    requires Operand(part).Some?
    ensures OperandIndex(part) < |part.children| && part.children[OperandIndex(part)] == Operand(part).value
    ensures Operand(part).value in Below(part) && |Below(Operand(part).value)| < |Below(part)|
  {
    B.BelowStep(part, part, Operand(part).value);
    hide Below;
  }

  lemma OperandPlaced(all: seq<Node>, part: Node)
    requires OperandsShown(all) && part in BelowAll(all) && part.IsInterpolation() && Operand(part).Some?
    ensures Shown(Operand(part).value)
  {
    hide Shown;
    hide Operand;
  }

  lemma PartIsUnruly(e: Node, lang: Language, w: World, m: Machine)
    requires e.IsInterpolation()
    ensures Eval(e, lang, w, m) == Unruly(e, w, m)
  {}

  lemma IsPartRuns(d: Node, lang: Language, values: map<string, Abstract>, w: World, m: Machine)
    requires SafeTrace(m.trace) && Tracks(values, m, w) && Operand(d).Some?
    requires var r := Eval(Operand(d).value, lang, w, m);
             && SafeTrace(r.machine.trace) && r.outcome.Returned?
                && (r.outcome.value.TextV? || r.outcome.value.ScalarV?)
    ensures PartRuns(d, lang, values, w, m)
  {
    hide SafeTrace;
    hide Tracks;
    hide Operand;
    hide Eval;
  }

  /** An interpolation below an expression that runs safely is evaluated on the way. */
  lemma {:induction false} NodeShows(e: Node, lang: Language, values: map<string, Abstract>, w: World, m: Machine,
          d: Node)
    returns (m': Machine)
    requires Answers(w) && IsExpression(e) && Shown(e) && Tracks(values, m, w)
    requires SafeTrace(Eval(e, lang, w, m).machine.trace)
    requires d in Below(e) && d.IsInterpolation()
    ensures PartRuns(d, lang, values, w, m')
    decreases |Below(e)|, 1
  {
    hide *;
    if IsText(e.kind) {
      TextCases(e, lang, w, m);
      TextShown(e);
      IsGrammatical(e);
      PartsOf(e);
      B.BelowIs(e);
      m' := PartsShow(e.children, -1, lang, values, w, m, d);
    } else {
      var c := OtherShown(e, d);
      var m1 := VisitRuns(e, c, lang, values, w, m);
      m' := NodeShows(c, lang, values, w, m1, d);
    }
  }

  lemma TextCases(n: Node, lang: Language, w: World, m: Machine)
    requires IsText(n.kind)
    ensures Eval(n, lang, w, m).machine == EvalParts(n.children, -1, lang, w, m).machine
  {
    hide EvalParts;
  }

  /** What evaluation goes on to runs safely, and with the same names. */
  lemma VisitRuns(e: Node, c: Node, lang: Language, values: map<string, Abstract>, w: World, m: Machine)
    returns (m': Machine)
    requires Answers(w) && IsExpression(e) && !IsText(e.kind) && B.Visits(e, c) && Tracks(values, m, w)
    requires SafeTrace(Eval(e, lang, w, m).machine.trace)
    ensures IsExpression(c) && Tracks(values, m', w) && SafeTrace(Eval(c, lang, w, m').machine.trace)
  {
    hide *;
    EvalCases(e, lang, w, m);
    KindCases(e);
    IsGrammatical(e);
    PartsOf(e);
    VisitKinds(e, c);
    if e.kind == Parenthesized {
      m' := m;
      OnlyChild(e);
    } else if e.kind == ConcatenatedString {
      HeldExpressions(e);
      var all := EvalAll(e.children, lang, w, m);
      UnrulyIsUnsafe(e, w, all.machine);
      m' := ListRuns(e.children, c, lang, values, w, m);
    } else if e.kind == BinaryOperator || e.kind == BinaryExpression {
      m' := BinaryRuns(e, c, lang, values, w, m);
    } else {
      m' := CallRuns(e, c, lang, values, w, m);
    }
  }

  lemma VisitKinds(e: Node, c: Node)
    requires B.Visits(e, c) && IsExpression(e)
    ensures e.kind in {Parenthesized, ConcatenatedString, BinaryOperator, BinaryExpression, Call, CallExpression}
    ensures e.kind == Parenthesized ==> Significant(e.children) == [c]
    ensures e.kind == ConcatenatedString ==> c in Significant(e.children)
    ensures e.kind == BinaryOperator || e.kind == BinaryExpression ==>
              e.Get(LeftField) == Some(c) || e.Get(RightField) == Some(c)
    ensures e.kind == Call || e.kind == CallExpression ==> B.IsArgument(e, c) || B.IsReceiver(e, c)
  {
    hide Grammatical;
    hide B.IsArgument;
    hide B.IsReceiver;
    hide Significant;
  }

  lemma {:induction false} ListRuns(ns: seq<Node>, c: Node, lang: Language, values: map<string, Abstract>, w: World,
                                    m: Machine) returns (m': Machine)
    requires Answers(w) && GrammaticalAll(ns) && Expressions(ns) && c in Significant(ns) && Tracks(values, m, w)
    requires SafeTrace(EvalAll(ns, lang, w, m).machine.trace)
    ensures IsExpression(c) && Tracks(values, m', w) && SafeTrace(Eval(c, lang, w, m').machine.trace)
    decreases |ns|
  {
    hide *;
    SignificantStep(ns);
    if ns == [] { NoneSignificant(); }
    ListCases(ns, lang, w, m);
    ExpressionsStep(ns);
    GrammaticalStep(ns);
    if !ns[0].named || ns[0].kind == Comment {
      m' := ListRuns(ns[1..], c, lang, values, w, m);
    } else {
      var r := Eval(ns[0], lang, w, m);
      SteadyEval(ns[0], lang, w, m);
      if r.outcome.Returned? {
        SteadyAll(ns[1..], lang, w, r.machine);
        var rest := EvalAll(ns[1..], lang, w, r.machine);
        SafeBefore(r.machine, rest.values.Some?, rest.machine, Expressions(ns[1..]));
      }
      if c == ns[0] {
        m' := m;
      } else {
        SteadyTracks(values, m, r.outcome.Returned?, r.machine, w);
        m' := ListRuns(ns[1..], c, lang, values, w, r.machine);
      }
    }
  }

  lemma NoneSignificant()
    ensures Significant([]) == []
  {}

  lemma BinaryRuns(e: Node, c: Node, lang: Language, values: map<string, Abstract>, w: World, m: Machine)
    returns (m': Machine)
    requires Answers(w) && Grammatical(e) && HoldsExpressions(e.kind) && Tracks(values, m, w)
    requires e.Get(LeftField) == Some(c) || e.Get(RightField) == Some(c)
    requires SafeTrace(EvalBinary(e, lang, w, m).machine.trace)
    ensures IsExpression(c) && Tracks(values, m', w) && SafeTrace(Eval(c, lang, w, m').machine.trace)
  {
    hide *;
    UnrulyIsUnsafe(e, w, m);
    var l, r := BinarySafe(e, lang, w, m);
    var left, right := e.Get(LeftField).value, e.Get(RightField).value;
    FieldExpression(e, LeftField);
    FieldExpression(e, RightField);
    if c == left {
      m' := m;
    } else {
      IsGrammatical(left);
      SteadyEval(left, lang, w, m);
      SteadyTracks(values, m, l.outcome.Returned?, l.machine, w);
      m' := l.machine;
    }
  }

  /** A safe binary operation evaluates both sides. */
  lemma BinarySafe(e: Node, lang: Language, w: World, m: Machine) returns (l: Run, r: Run)
    requires Answers(w) && Grammatical(e) && HoldsExpressions(e.kind)
    requires SafeTrace(EvalBinary(e, lang, w, m).machine.trace)
    ensures e.Get(LeftField).Some? && e.Get(RightField).Some? && e.Get(OperatorField).Some?
    ensures l == Eval(e.Get(LeftField).value, lang, w, m) && SafeTrace(l.machine.trace) && l.outcome.Returned?
    ensures r == Eval(e.Get(RightField).value, lang, w, l.machine) && SafeTrace(r.machine.trace) && r.outcome.Returned?
    ensures EvalBinary(e, lang, w, m)
         == Operate(e.Get(OperatorField).value.text, l.outcome.value, r.outcome.value, e, w, r.machine)
  {
    hide *;
    BinaryCases(e, lang, w, m);
    UnrulyIsUnsafe(e, w, m);
    var left, right := e.Get(LeftField).value, e.Get(RightField).value;
    FieldExpression(e, LeftField);
    FieldExpression(e, RightField);
    IsGrammatical(left);
    IsGrammatical(right);
    l := Eval(left, lang, w, m);
    r := Eval(right, lang, w, l.machine);
    SteadyEval(left, lang, w, m);
    SteadyEval(right, lang, w, l.machine);
    var op := e.Get(OperatorField).value.text;
    if l.outcome.Returned? && r.outcome.Returned? {
      OperateSteady(op, l.outcome.value, r.outcome.value, e, w, r.machine);
      var all := Operate(op, l.outcome.value, r.outcome.value, e, w, r.machine);
      SafeBefore(r.machine, all.outcome.Returned?, all.machine, true);
    }
    if l.outcome.Returned? { SafeBefore(l.machine, r.outcome.Returned?, r.machine, IsExpression(right)); }
    SafeBefore(m, l.outcome.Returned?, l.machine, IsExpression(left));
  }

  lemma {:induction false} ArgsRun(ns: seq<Node>, a: Node, c: Node, lang: Language, values: map<string, Abstract>,
                                   w: World,
                                   m: Machine) returns (m': Machine)
    requires Answers(w) && Expressions(ns) && a in Significant(ns) && ArgumentValue(a) == Some(c)
             && Tracks(values, m, w)
    requires SafeTrace(EvalArgs(ns, lang, w, m).machine.trace)
    ensures IsExpression(c) && Tracks(values, m', w) && SafeTrace(Eval(c, lang, w, m').machine.trace)
    decreases |ns|
  {
    hide *;
    SignificantStep(ns);
    if ns == [] { NoneSignificant(); }
    EvalArgsCases(ns, lang, w, m);
    ExpressionsStep(ns);
    if !ns[0].named || ns[0].kind == Comment {
      m' := ArgsRun(ns[1..], a, c, lang, values, w, m);
    } else {
      if ArgumentValue(ns[0]).None? {
        ArgCases(ns, lang, w, m);
        UnrulyIsUnsafe(ns[0], w, m);
      }
      var value := ArgumentValue(ns[0]).value;
      ArgumentExpression(ns[0]);
      IsGrammatical(value);
      var r := Eval(value, lang, w, m);
      SteadyEval(value, lang, w, m);
      if r.outcome.Returned? {
        SteadyArgs(ns[1..], lang, w, r.machine);
        var rest := EvalArgs(ns[1..], lang, w, r.machine);
        SafeBefore(r.machine, rest.args.Some?, rest.machine, true);
      }
      if a == ns[0] {
        m' := m;
      } else {
        SteadyTracks(values, m, r.outcome.Returned?, r.machine, w);
        m' := ArgsRun(ns[1..], a, c, lang, values, w, r.machine);
      }
    }
  }

  /** A safe call has one of three forms: `f` is called with the arguments of `a`, which come to `args`,
      from `m1`, where its receiver has run unless it is the console. */
  ghost predicate IsSafeCall(e: Node, f: Node, a: Node, m1: Machine, args: seq<Arg>, lang: Language, w: World,
                             m: Machine) {
    var r := EvalArgs(a.children, lang, w, m1);
    && e.Get(FunctionField) == Some(f) && e.Get(ArgumentsField) == Some(a)
    && (a.kind == ArgumentList || a.kind == Arguments) && Expressions(a.children) && Grammatical(f)
    && Steady(m, true, m1, true) && SafeTrace(m1.trace)
    && r.args == Some(args) && SafeTrace(r.machine.trace)
    && if f.kind == Identifier then
         && m1 == m && w.canon(f.text) !in m.env
         && SafeTrace(CallNamed(e, w.canon(f.text), args, lang, w, r.machine).machine.trace)
       else
         && (f.kind == Attribute || f.kind == MemberExpression)
         && f.Get(ObjectField).Some? && f.GetEither(AttributeField, PropertyField).Some?
         && var target, member := f.Get(ObjectField).value,
              w.canon(f.GetEither(AttributeField, PropertyField).value.text);
            && IsExpression(target)
            && if IsConsole(target, lang, w, m) then
                 m1 == m && member in CONSOLE_METHODS && SafeTrace(r.machine.trace + [Console(member, args)])
               else
                 var t := Eval(target, lang, w, m);
                 && t.outcome.Returned? && m1 == t.machine
                 && SafeTrace(CallMethod(e, t.outcome.value, member, args, w, r.machine).machine.trace)
  }

  lemma SafeCallCases(e: Node, f: Node, a: Node, m1: Machine, args: seq<Arg>, lang: Language, w: World, m: Machine)
    requires IsSafeCall(e, f, a, m1, args, lang, w, m)
    ensures var r := EvalArgs(a.children, lang, w, m1);
            && e.Get(FunctionField) == Some(f) && e.Get(ArgumentsField) == Some(a)
            && (a.kind == ArgumentList || a.kind == Arguments) && Expressions(a.children) && Grammatical(f)
            && Steady(m, true, m1, true) && SafeTrace(m1.trace)
            && r.args == Some(args) && SafeTrace(r.machine.trace)
            && if f.kind == Identifier then
                 && m1 == m && w.canon(f.text) !in m.env
                 && SafeTrace(CallNamed(e, w.canon(f.text), args, lang, w, r.machine).machine.trace)
               else
                 && (f.kind == Attribute || f.kind == MemberExpression)
                 && f.Get(ObjectField).Some? && f.GetEither(AttributeField, PropertyField).Some?
                 && var target, member := f.Get(ObjectField).value,
                      w.canon(f.GetEither(AttributeField, PropertyField).value.text);
                    && IsExpression(target)
                    && if IsConsole(target, lang, w, m) then
                         m1 == m && member in CONSOLE_METHODS && SafeTrace(r.machine.trace + [Console(member, args)])
                       else
                         var t := Eval(target, lang, w, m);
                         && t.outcome.Returned? && m1 == t.machine
                         && SafeTrace(CallMethod(e, t.outcome.value, member, args, w, r.machine).machine.trace)
  {
    hide Steady;
    hide SafeTrace;
    hide EvalArgs;
    hide Eval;
    hide CallNamed;
    hide CallMethod;
    hide IsConsole;
    hide IsExpression;
    hide Expressions;
    hide Grammatical;
  }

  lemma CallSafe(e: Node, lang: Language, w: World, m: Machine) returns (f: Node, a: Node, m1: Machine, args: seq<Arg>)
    requires Answers(w) && Grammatical(e) && HoldsExpressions(e.kind)
             && SafeTrace(EvalCall(e, lang, w, m).machine.trace)
    ensures IsSafeCall(e, f, a, m1, args, lang, w, m)
  {
    hide Steady;
    hide SafeTrace;
    hide EvalArgs;
    hide EvalCall;
    hide Eval;
    hide CallNamed;
    hide CallMethod;
    hide IsConsole;
    hide IsExpression;
    hide Expressions;
    hide Grammatical;
    hide HoldsExpressions;
    hide Answers;
    hide Unruly;
    hide Perform;
    CallCases(e, lang, w, m);
    UnrulyIsUnsafe(e, w, m);
    Stays(m);
    f, a := e.Get(FunctionField).value, e.Get(ArgumentsField).value;
    FieldGrammatical(e, FunctionField);
    FieldGrammatical(e, ArgumentsField);
    ListHolds(a);
    HeldExpressions(a);
    m1 := m;
    if f.kind == Identifier {
      var name := w.canon(f.text);
      NamedCases(e, name, a, lang, w, m);
      SteadyArgs(a.children, lang, w, m);
      var r := EvalArgs(a.children, lang, w, m);
      if r.args.Some? {
        CalledSteady(e, name, UnknownV, r.args.value, lang, w, r.machine);
        var all := CallNamed(e, name, r.args.value, lang, w, r.machine);
        SafeBefore(r.machine, all.outcome.Returned?, all.machine, true);
      }
      SafeBefore(m, r.args.Some?, r.machine, true);
      args := r.args.value;
    } else {
      ListHolds(f);
      var target, member := f.Get(ObjectField).value, w.canon(f.GetEither(AttributeField, PropertyField).value.text);
      FieldExpression(f, ObjectField);
      IsGrammatical(target);
      if IsConsole(target, lang, w, m) {
        NamedCases(e, member, a, lang, w, m);
        SteadyArgs(a.children, lang, w, m);
        var r := EvalArgs(a.children, lang, w, m);
        UnrulyIsUnsafe(e, w, r.machine);
        if r.args.Some? {
          Performed(Console(member, r.args.value), s => ScalarV(s), w, r.machine);
          var all := Perform(Console(member, r.args.value), s => ScalarV(s), w, r.machine);
          if member in CONSOLE_METHODS { SafeBefore(r.machine, all.outcome.Returned?, all.machine, true); }
          PerformTrace(Console(member, r.args.value), s => ScalarV(s), w, r.machine);
        }
        SafeBefore(m, r.args.Some?, r.machine, true);
        args := r.args.value;
      } else {
        MethodCases(e, f, target, member, a, lang, w, m);
        var t := Eval(target, lang, w, m);
        SteadyEval(target, lang, w, m);
        m1 := t.machine;
        SteadyArgs(a.children, lang, w, m1);
        var r := EvalArgs(a.children, lang, w, m1);
        if t.outcome.Returned? {
          if r.args.Some? {
            CalledSteady(e, member, t.outcome.value, r.args.value, lang, w, r.machine);
            var all := CallMethod(e, t.outcome.value, member, r.args.value, w, r.machine);
            SafeBefore(r.machine, all.outcome.Returned?, all.machine, true);
          }
          SafeBefore(m1, r.args.Some?, r.machine, true);
        }
        SafeBefore(m, t.outcome.Returned?, m1, IsExpression(target));
        args := r.args.value;
      }
    }
  }

  lemma PerformTrace(e: Effect, result: string -> Value, w: World, m: Machine)
    ensures Perform(e, result, w, m).machine.trace == m.trace + [e]
  {}

  lemma CallRuns(e: Node, c: Node, lang: Language, values: map<string, Abstract>, w: World, m: Machine)
    returns (m': Machine)
    requires Answers(w) && Grammatical(e) && HoldsExpressions(e.kind) && Tracks(values, m, w)
    requires B.IsArgument(e, c) || B.IsReceiver(e, c)
    requires SafeTrace(EvalCall(e, lang, w, m).machine.trace)
    ensures IsExpression(c) && Tracks(values, m', w) && SafeTrace(Eval(c, lang, w, m').machine.trace)
  {
    hide *;
    var f, a, m1, args := CallSafe(e, lang, w, m);
    SafeCallCases(e, f, a, m1, args, lang, w, m);
    if B.IsArgument(e, c) {
      var arg := B.ArgumentOf(e, c);
      SteadyTracks(values, m, true, m1, w);
      m' := ArgsRun(a.children, arg, c, lang, values, w, m1);
    } else {
      m' := m;
      ReceiverCases(e, f, c, lang, w, m);
    }
  }

  lemma ReceiverCases(e: Node, f: Node, c: Node, lang: Language, w: World, m: Machine)
    requires B.IsReceiver(e, c) && e.Get(FunctionField) == Some(f)
    ensures f.kind != Identifier && f.Get(ObjectField) == Some(c) && !IsConsole(c, lang, w, m)
  {}
}

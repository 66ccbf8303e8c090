/** Runs in a world that answers: one that asks for nothing unsafe comes to its end. */
module InertSteady {
  import opened InertProof
  import opened InertRun
  import opened InertSoundness
  import opened InertTables
  import opened Syntax
  import opened Wrappers

  import B = InertBudget

  // ------------------------------------------------------------- safe runs go on

  /** In a world that answers: the trace only grows; if it ends safe, the run has come to its end and,
      with `keeps`, has bound nothing. */
  ghost predicate Steady(m: Machine, done: bool, after: Machine, keeps: bool) {
    && m.trace <= after.trace
    && (SafeTrace(after.trace) ==> done && (keeps ==> after.env == m.env))
  }

  lemma SafePrefix(a: seq<Effect>, b: seq<Effect>)
    requires a <= b && SafeTrace(b)
    ensures SafeTrace(a)
  {
    hide Safe;
    forall i | 0 <= i < |a| ensures Safe(a[i]) && (a[i].FileMethod? ==> Opened(a[i].handle, a[..i])) {
      assert a[i] == b[i] && a[..i] == b[..i];
    }
  }

  lemma Stays(m: Machine)
    ensures Steady(m, true, m, true)
  {}

  lemma GoesOn(m: Machine, before: bool, m1: Machine, done: bool, after: Machine, keeps: bool)
    requires Steady(m, before, m1, keeps) && Steady(m1, done, after, keeps)
    ensures Steady(m, done, after, keeps) && (SafeTrace(after.trace) ==> SafeTrace(m1.trace) && before)
  {
    hide SafeTrace;
    if SafeTrace(after.trace) { SafePrefix(m1.trace, after.trace); }
  }

  lemma Weaker(m: Machine, done: bool, after: Machine, keeps: bool)
    requires Steady(m, done, after, true)
    ensures Steady(m, done, after, keeps)
  {}

  lemma Performed(e: Effect, result: string -> Value, w: World, m: Machine)
    requires Answers(w)
    ensures var r := Perform(e, result, w, m); Steady(m, r.outcome.Returned?, r.machine, true)
  {
    hide SafeTrace;
  }

  /** Nothing opaque is safe. */
  lemma UnrulyIsUnsafe(n: Node, w: World, m: Machine)
    ensures var r := Unruly(n, w, m); !SafeTrace(r.machine.trace) && forall done, keeps ::
              Steady(m, done, r.machine, keeps)
  {
    UnsafeTrace(m.trace, Opaque(n));
    hide SafeTrace;
  }

  lemma ListCases(ns: seq<Node>, lang: Language, w: World, m: Machine)
    ensures ns == [] ==> EvalAll(ns, lang, w, m) == Runs(Some([]), m)
    ensures ns != [] && (!ns[0].named || ns[0].kind == Comment) ==>
              EvalAll(ns, lang, w, m) == EvalAll(ns[1..], lang, w, m)
    ensures ns != [] && ns[0].named && ns[0].kind != Comment ==>
              var all, r := EvalAll(ns, lang, w, m), Eval(ns[0], lang, w, m);
              if r.outcome.Raised? then all == Runs(None, r.machine) else
              var rest := EvalAll(ns[1..], lang, w, r.machine);
              all == if rest.values.None? then rest else rest.(values := Some([r.outcome.value] + rest.values.value))
  {
    hide Eval;
  }

  lemma {:induction false} SteadyAll(ns: seq<Node>, lang: Language, w: World, m: Machine)
    requires Answers(w) && GrammaticalAll(ns)
    ensures var r := EvalAll(ns, lang, w, m); Steady(m, r.values.Some?, r.machine, Expressions(ns))
    decreases ns, 0
  {
    hide *;
    ListCases(ns, lang, w, m);
    if ns == [] {
      Stays(m);
      Weaker(m, true, m, Expressions(ns));
    } else {
      GrammaticalStep(ns);
      if Expressions(ns) { ExpressionsStep(ns); }
      if !ns[0].named || ns[0].kind == Comment {
        SteadyAll(ns[1..], lang, w, m);
        SteadyIf(m, EvalAll(ns, lang, w, m).values.Some?, EvalAll(ns, lang, w, m).machine, Expressions(ns),
            Expressions(ns[1..]));
      } else {
        var r := Eval(ns[0], lang, w, m);
        SteadyEval(ns[0], lang, w, m);
        SteadyIf(m, r.outcome.Returned?, r.machine, Expressions(ns), IsExpression(ns[0]));
        if r.outcome.Returned? {
          SteadyAll(ns[1..], lang, w, r.machine);
          var rest := EvalAll(ns[1..], lang, w, r.machine);
          SteadyIf(r.machine, rest.values.Some?, rest.machine, Expressions(ns), Expressions(ns[1..]));
          GoesOn(m, true, r.machine, rest.values.Some?, rest.machine, Expressions(ns));
        }
      }
    }
  }

  lemma SteadyIf(m: Machine, done: bool, after: Machine, keeps: bool, more: bool)
    requires Steady(m, done, after, more) && (keeps ==> more)
    ensures Steady(m, done, after, keeps)
  {}

  lemma BindingCases(n: Node, lang: Language, w: World, m: Machine)
    ensures var left, right, all := n.GetEither(LeftField, NameField), n.GetEither(RightField, ValueField),
              EvalBinding(n, lang, w, m);
            if |Significant(n.children)| != 2 || left.None? || left.value.kind != Identifier || right.None? then
              all == Unruly(n, w, m)
            else
              var r := Eval(right.value, lang, w, m);
              all == if r.outcome.Raised? then r
                     else r.(machine := Store(r.machine, w.canon(left.value.text), r.outcome.value, w))
  {
    hide Eval;
    hide Significant;
    hide Unruly;
    hide Store;
  }

  lemma StoreTrace(m: Machine, x: string, v: Value, w: World)
    ensures Store(m, x, v, w).trace == m.trace
  {}

  lemma {:induction false} SteadyBinding(n: Node, lang: Language, w: World, m: Machine)
    requires Answers(w) && Grammatical(n)
    ensures var r := EvalBinding(n, lang, w, m); Steady(m, r.outcome.Returned?, r.machine, false)
    decreases n, 2
  {
    hide Eval;
    hide EvalBinding;
    hide Significant;
    hide Unruly;
    hide Store;
    hide SafeTrace;
    hide Grammatical;
    BindingCases(n, lang, w, m);
    UnrulyIsUnsafe(n, w, m);
    PartsOf(n);
    PartsGrammatical(n.children);
    var left, right := n.GetEither(LeftField, NameField), n.GetEither(RightField, ValueField);
    if right.Some? {
      SteadyEval(right.value, lang, w, m);
      var r := Eval(right.value, lang, w, m);
      if left.Some? && r.outcome.Returned? { StoreTrace(r.machine, w.canon(left.value.text), r.outcome.value, w); }
    }
  }

  lemma {:induction false} SteadyParts(ns: seq<Node>, skip: int, lang: Language, w: World, m: Machine)
    requires Answers(w) && GrammaticalAll(ns)
    ensures var r := EvalParts(ns, skip, lang, w, m); Steady(m, r.values.Some?, r.machine, true)
    decreases ns, 0
  {
    hide *;
    Stays(m);
    EvalPartsCases(ns, skip, lang, w, m);
    if ns != [] {
      GrammaticalStep(ns);
      if skip == 0 {
        SteadyParts(ns[1..], -1, lang, w, m);
      } else {
        var head := if ns[0].IsInterpolation() then EvalInterpolation(ns[0], lang, w, m)
                    else EvalParts(ns[0].children, -1, lang, w, m);
        if ns[0].IsInterpolation() {
          SteadyInterpolation(ns[0], lang, w, m);
        } else {
          SteadyParts(ns[0].children, -1, lang, w, m);
        }
        if head.values.Some? {
          SteadyParts(ns[1..], skip - 1, lang, w, head.machine);
          var rest := EvalParts(ns[1..], skip - 1, lang, w, head.machine);
          GoesOn(m, true, head.machine, rest.values.Some?, rest.machine, true);
        }
      }
    }
  }

  lemma PartCases(part: Node, lang: Language, w: World, m: Machine)
    ensures var all := EvalInterpolation(part, lang, w, m);
            if Operand(part).None? then all == Runs(None, Unruly(part, w, m).machine) else
            var r := Eval(Operand(part).value, lang, w, m);
            if r.outcome.Raised? then all == Runs(None, r.machine)
            else if !r.outcome.value.TextV? && !r.outcome.value.ScalarV? then
              all == Runs(None, Unruly(part, w, r.machine).machine)
            else
              var more := EvalParts(part.children, OperandIndex(part), lang, w, r.machine);
              all.machine == more.machine && (all.values.Some? <==> more.values.Some?)
  {
    hide Eval;
    hide EvalParts;
    hide OperandIndex;
    hide Unruly;
  }

  lemma {:induction false} SteadyInterpolation(part: Node, lang: Language, w: World, m: Machine)
    requires Answers(w) && Grammatical(part) && part.IsInterpolation()
    ensures var r := EvalInterpolation(part, lang, w, m); Steady(m, r.values.Some?, r.machine, true)
    decreases part, 2
  {
    hide *;
    PartCases(part, lang, w, m);
    if Operand(part).None? {
      UnrulyIsUnsafe(part, w, m);
    } else {
      OperandExpression(part);
      IsGrammatical(Operand(part).value);
      PartsOf(part);
      var r := Eval(Operand(part).value, lang, w, m);
      SteadyEval(Operand(part).value, lang, w, m);
      if r.outcome.Returned? {
        if !r.outcome.value.TextV? && !r.outcome.value.ScalarV? {
          UnrulyIsUnsafe(part, w, r.machine);
          GoesOn(m, true, r.machine, false, Unruly(part, w, r.machine).machine, true);
        } else {
          SteadyParts(part.children, OperandIndex(part), lang, w, r.machine);
          var more := EvalParts(part.children, OperandIndex(part), lang, w, r.machine);
          GoesOn(m, true, r.machine, more.values.Some?, more.machine, true);
        }
      }
    }
  }

  lemma IsGrammatical(n: Node)
    requires IsExpression(n)
    ensures Grammatical(n)
  {}

  lemma BinaryCases(n: Node, lang: Language, w: World, m: Machine)
    ensures var left, right, op, all := n.Get(LeftField), n.Get(RightField), n.Get(OperatorField),
              EvalBinary(n, lang, w, m);
            if left.None? || right.None? || op.None? then all == Unruly(n, w, m) else
            var l := Eval(left.value, lang, w, m);
            if l.outcome.Raised? then all == l else
            var r := Eval(right.value, lang, w, l.machine);
            if r.outcome.Raised? then all == r
            else all == Operate(op.value.text, l.outcome.value, r.outcome.value, n, w, r.machine)
  {
    hide Eval;
    hide Unruly;
    hide Operate;
  }

  lemma OperateSteady(op: string, a: Value, b: Value, n: Node, w: World, m: Machine)
    requires Answers(w)
    ensures var r := Operate(op, a, b, n, w, m); Steady(m, r.outcome.Returned?, r.machine, true)
  {
    hide Perform;
    hide Unruly;
    hide Steady;
    UnrulyIsUnsafe(n, w, m);
    Performed(Arithmetic(op, a, b), s => TextV(s), w, m);
    Performed(Arithmetic(op, a, b), s => ScalarV(s), w, m);
  }

  lemma {:induction false} SteadyBinary(n: Node, lang: Language, w: World, m: Machine)
    requires Answers(w) && Grammatical(n) && HoldsExpressions(n.kind)
    ensures var r := EvalBinary(n, lang, w, m); Steady(m, r.outcome.Returned?, r.machine, true)
    decreases n, 2
  {
    hide *;
    BinaryCases(n, lang, w, m);
    UnrulyIsUnsafe(n, w, m);
    if n.Get(LeftField).Some? && n.Get(RightField).Some? && n.Get(OperatorField).Some? {
      var left, right := n.Get(LeftField).value, n.Get(RightField).value;
      FieldExpression(n, LeftField);
      FieldExpression(n, RightField);
      IsGrammatical(left);
      IsGrammatical(right);
      SteadyEval(left, lang, w, m);
      var l := Eval(left, lang, w, m);
      if l.outcome.Returned? {
        SteadyEval(right, lang, w, l.machine);
        var r := Eval(right, lang, w, l.machine);
        GoesOn(m, true, l.machine, r.outcome.Returned?, r.machine, true);
        if r.outcome.Returned? {
          var op := n.Get(OperatorField).value.text;
          OperateSteady(op, l.outcome.value, r.outcome.value, n, w, r.machine);
          var all := Operate(op, l.outcome.value, r.outcome.value, n, w, r.machine);
          GoesOn(m, true, r.machine, all.outcome.Returned?, all.machine, true);
        }
      }
    }
  }

  lemma ArgCases(ns: seq<Node>, lang: Language, w: World, m: Machine)
    requires ns != [] && ns[0].named && ns[0].kind != Comment && ArgumentValue(ns[0]).None?
    ensures EvalArgs(ns, lang, w, m) == ArgRuns(None, Unruly(ns[0], w, m).machine)
  {
    hide Unruly;
  }

  lemma {:induction false} SteadyArgs(ns: seq<Node>, lang: Language, w: World, m: Machine)
    requires Answers(w) && Expressions(ns)
    ensures var r := EvalArgs(ns, lang, w, m); Steady(m, r.args.Some?, r.machine, true)
    decreases ns, 0
  {
    hide *;
    Stays(m);
    EvalArgsCases(ns, lang, w, m);
    if ns != [] {
      ExpressionsStep(ns);
      if !ns[0].named || ns[0].kind == Comment {
        SteadyArgs(ns[1..], lang, w, m);
      } else if ArgumentValue(ns[0]).None? {
        ArgCases(ns, lang, w, m);
        UnrulyIsUnsafe(ns[0], w, m);
      } else {
        var value := ArgumentValue(ns[0]).value;
        ArgumentExpression(ns[0]);
        IsGrammatical(value);
        ArgumentPart(ns[0]);
        SteadyEval(value, lang, w, m);
        var r := Eval(value, lang, w, m);
        if r.outcome.Returned? {
          SteadyArgs(ns[1..], lang, w, r.machine);
          var rest := EvalArgs(ns[1..], lang, w, r.machine);
          GoesOn(m, true, r.machine, rest.args.Some?, rest.machine, true);
        }
      }
    }
  }

  lemma ArgumentPart(a: Node)
    requires ArgumentValue(a).Some?
    ensures ArgumentValue(a).value == a || ArgumentValue(a).value in a.children
  {}

  lemma CallCases(n: Node, lang: Language, w: World, m: Machine)
    ensures var f, a, all := n.Get(FunctionField), n.Get(ArgumentsField), EvalCall(n, lang, w, m);
            if f.None? || a.None?
              || (a.value.kind != ArgumentList && a.value.kind != Arguments) then all == Unruly(n, w, m)
            else if f.value.kind == Identifier then
              all == EvalNamedCall(n, w.canon(f.value.text), a.value, lang, w, m)
            else if f.value.kind != Attribute && f.value.kind != MemberExpression then all == Unruly(n, w, m)
            else
              var target, member := f.value.Get(ObjectField), f.value.GetEither(AttributeField, PropertyField);
              if target.None? || member.None? then all == Unruly(n, w, m)
              else if IsConsole(target.value, lang, w, m) then
                all == EvalConsoleCall(n, w.canon(member.value.text), a.value, lang, w, m)
              else all == EvalMethodCall(n, f.value, target.value, w.canon(member.value.text), a.value, lang, w, m)
  {
    hide EvalNamedCall;
    hide EvalConsoleCall;
    hide EvalMethodCall;
    hide Unruly;
    hide IsConsole;
  }

  lemma NamedCases(n: Node, name: string, a: Node, lang: Language, w: World, m: Machine)
    ensures var all := EvalNamedCall(n, name, a, lang, w, m);
            if name in m.env then all == Unruly(n, w, m) else
            var args := EvalArgs(a.children, lang, w, m);
            all == if args.args.None? then Run(Raised, args.machine)
                   else CallNamed(n, name, args.args.value, lang, w, args.machine)
    ensures var all, args := EvalConsoleCall(n, name, a, lang, w, m), EvalArgs(a.children, lang, w, m);
            all == if args.args.None? then Run(Raised, args.machine)
                   else if name in CONSOLE_METHODS
                     then Perform(Console(name, args.args.value), s => ScalarV(s), w, args.machine)
                   else Unruly(n, w, args.machine)
  {
    hide EvalArgs;
    hide CallNamed;
    hide Unruly;
    hide Perform;
  }

  lemma CalledSteady(n: Node, name: string, v: Value, args: seq<Arg>, lang: Language, w: World, m: Machine)
    requires Answers(w)
    ensures var r := CallNamed(n, name, args, lang, w, m); Steady(m, r.outcome.Returned?, r.machine, true)
    ensures var r := CallMethod(n, v, name, args, w, m); Steady(m, r.outcome.Returned?, r.machine, true)
  {
    UnrulyIsUnsafe(n, w, m);
    hide SafeTrace;
    hide Unruly;
  }

  lemma {:induction false} SteadyCall(n: Node, lang: Language, w: World, m: Machine)
    requires Answers(w) && Grammatical(n) && HoldsExpressions(n.kind)
    ensures var r := EvalCall(n, lang, w, m); Steady(m, r.outcome.Returned?, r.machine, true)
    decreases n, 2
  {
    hide *;
    CallCases(n, lang, w, m);
    UnrulyIsUnsafe(n, w, m);
    if n.Get(FunctionField).Some? && n.Get(ArgumentsField).Some? {
      var f, a := n.Get(FunctionField).value, n.Get(ArgumentsField).value;
      FieldGrammatical(n, FunctionField);
      FieldGrammatical(n, ArgumentsField);
      ListHolds(a);
      if a.kind == ArgumentList || a.kind == Arguments {
        HeldExpressions(a);
        if f.kind == Identifier {
          var name := w.canon(f.text);
          NamedCases(n, name, a, lang, w, m);
          SteadyArgs(a.children, lang, w, m);
          var args := EvalArgs(a.children, lang, w, m);
          if args.args.Some? {
            CalledSteady(n, name, UnknownV, args.args.value, lang, w, args.machine);
            var r := CallNamed(n, name, args.args.value, lang, w, args.machine);
            GoesOn(m, true, args.machine, r.outcome.Returned?, r.machine, true);
          }
        } else if f.kind == Attribute || f.kind == MemberExpression {
          ListHolds(f);
          if f.Get(ObjectField).Some? && f.GetEither(AttributeField, PropertyField).Some? {
            var target, member := f.Get(ObjectField).value,
                w.canon(f.GetEither(AttributeField, PropertyField).value.text);
            FieldExpression(f, ObjectField);
            IsGrammatical(target);
            if IsConsole(target, lang, w, m) {
              NamedCases(n, member, a, lang, w, m);
              SteadyArgs(a.children, lang, w, m);
              var args := EvalArgs(a.children, lang, w, m);
              if args.args.Some? {
                UnrulyIsUnsafe(n, w, args.machine);
                Performed(Console(member, args.args.value), s => ScalarV(s), w, args.machine);
                var r := EvalConsoleCall(n, member, a, lang, w, m);
                GoesOn(m, true, args.machine, r.outcome.Returned?, r.machine, true);
              }
            } else {
              MethodCases(n, f, target, member, a, lang, w, m);
              SteadyEval(target, lang, w, m);
              var r := Eval(target, lang, w, m);
              if r.outcome.Returned? {
                SteadyArgs(a.children, lang, w, r.machine);
                var args := EvalArgs(a.children, lang, w, r.machine);
                GoesOn(m, true, r.machine, args.args.Some?, args.machine, true);
                if args.args.Some? {
                  CalledSteady(n, member, r.outcome.value, args.args.value, lang, w, args.machine);
                  var all := CallMethod(n, r.outcome.value, member, args.args.value, w, args.machine);
                  GoesOn(m, true, args.machine, all.outcome.Returned?, all.machine, true);
                }
              }
            }
          }
        }
      }
    }
  }

  lemma ListHolds(n: Node)
    ensures n.kind == ArgumentList || n.kind == Arguments || n.kind == Attribute || n.kind == MemberExpression ==>
              HoldsExpressions(n.kind)
  {}

  /** The evaluation of a node, by its kind. */
  lemma EvalCases(n: Node, lang: Language, w: World, m: Machine)
    ensures var all := Eval(n, lang, w, m);
            match n.kind
            case Module | Program | LexicalDeclaration | VariableDeclaration =>
              var r := EvalAll(n.children, lang, w, m);
              all == Run(if r.values.Some? then Returned(ScalarV([])) else Raised, r.machine)
            case ExpressionStatement | Parenthesized =>
              var named := Significant(n.children);
              all == if |named| == 1 then Eval(named[0], lang, w, m) else Unruly(n, w, m)
            case Assignment | VariableDeclarator => all == EvalBinding(n, lang, w, m)
            case Identifier =>
              all == if w.canon(n.text) in m.env then Run(Returned(m.env[w.canon(n.text)]), m) else Unruly(n, w, m)
            case ScalarLiteral => all == Run(Returned(ScalarV(n.text)), m)
            case StringLiteral | TemplateString =>
              var r := EvalParts(n.children, -1, lang, w, m);
              all == Run(if r.values.Some? then Returned(TextV(w.spell(n, r.values.value))) else Raised, r.machine)
            case ConcatenatedString =>
              var r := EvalAll(n.children, lang, w, m);
              all == if r.values.None? then Run(Raised, r.machine)
                     else if forall k :: 0 <= k < |r.values.value| ==> r.values.value[k].TextV? then
                       Run(Returned(TextV(w.spell(n, r.values.value))), r.machine)
                     else Unruly(n, w, r.machine)
            case BinaryOperator | BinaryExpression => all == EvalBinary(n, lang, w, m)
            case Call | CallExpression => all == EvalCall(n, lang, w, m)
            case _ => all == Unruly(n, w, m)
  {
    hide EvalAll;
    hide EvalBinding;
    hide EvalParts;
    hide EvalBinary;
    hide EvalCall;
    hide Unruly;
    hide Significant;
  }

  lemma KindCases(n: Node)
    ensures n.kind in {Parenthesized, ConcatenatedString, BinaryOperator, BinaryExpression, Call, CallExpression} ==>
              HoldsExpressions(n.kind)
    ensures IsExpression(n) ==> !IsStatement(n.kind)
    ensures IsStatement(n.kind) <==>
              n.kind in {Module, Program, LexicalDeclaration, VariableDeclaration, ExpressionStatement, Assignment,
                  VariableDeclarator}
  {}

  lemma OnlyChild(n: Node)
    requires Grammatical(n) && |Significant(n.children)| == 1
    ensures Grammatical(Significant(n.children)[0]) && Significant(n.children)[0] in n.children
    ensures HoldsExpressions(n.kind) ==> IsExpression(Significant(n.children)[0])
  {
    assert Significant(n.children)[0] in Significant(n.children);
    PartsOf(n);
    PartsGrammatical(n.children);
    if HoldsExpressions(n.kind) { HeldExpressions(n); }
    hide Grammatical;
  }

  lemma {:induction false} SteadyEval(n: Node, lang: Language, w: World, m: Machine)
    requires Answers(w) && Grammatical(n)
    ensures var r := Eval(n, lang, w, m); Steady(m, r.outcome.Returned?, r.machine, IsExpression(n))
    decreases n, 3
  {
    hide *;
    EvalCases(n, lang, w, m);
    KindCases(n);
    UnrulyIsUnsafe(n, w, m);
    Stays(m);
    PartsOf(n);
    var r, keeps := Eval(n, lang, w, m), IsExpression(n);
    match n.kind
    case Module | Program | LexicalDeclaration | VariableDeclaration =>
      SteadyAll(n.children, lang, w, m);
      SteadyIf(m, r.outcome.Returned?, r.machine, keeps, Expressions(n.children));
    case ExpressionStatement | Parenthesized =>
      if |Significant(n.children)| == 1 {
        var c := Significant(n.children)[0];
        OnlyChild(n);
        SteadyEval(c, lang, w, m);
        SteadyIf(m, r.outcome.Returned?, r.machine, keeps, IsExpression(c));
      }
    case Assignment | VariableDeclarator =>
      SteadyBinding(n, lang, w, m);
    case StringLiteral | TemplateString =>
      SteadyParts(n.children, -1, lang, w, m);
      SteadyIf(m, r.outcome.Returned?, r.machine, keeps, true);
    case ConcatenatedString =>
      HeldExpressions(n);
      SteadyAll(n.children, lang, w, m);
      var all := EvalAll(n.children, lang, w, m);
      SteadyIf(m, all.values.Some?, all.machine, keeps, Expressions(n.children));
      if all.values.Some? {
        UnrulyIsUnsafe(n, w, all.machine);
        GoesOn(m, true, all.machine, false, Unruly(n, w, all.machine).machine, keeps);
      }
      ConcatSteady(n, r, all, w, m, keeps);
    case BinaryOperator | BinaryExpression =>
      SteadyBinary(n, lang, w, m);
      SteadyIf(m, r.outcome.Returned?, r.machine, keeps, true);
    case Call | CallExpression =>
      SteadyCall(n, lang, w, m);
      SteadyIf(m, r.outcome.Returned?, r.machine, keeps, true);
    case ScalarLiteral => SteadyIf(m, true, m, keeps, true);
    case Identifier => SteadyIf(m, true, m, keeps, true);
    case _ =>
  }

  lemma ConcatSteady(n: Node, r: Run, all: Runs, w: World, m: Machine, keeps: bool)
    requires r == if all.values.None? then Run(Raised, all.machine)
                  else if forall k :: 0 <= k < |all.values.value| ==> all.values.value[k].TextV? then
                    Run(Returned(TextV(w.spell(n, all.values.value))), all.machine)
                  else Unruly(n, w, all.machine)
    requires Steady(m, all.values.Some?, all.machine, keeps)
    requires all.values.Some? ==> Steady(m, false, Unruly(n, w, all.machine).machine, keeps)
    ensures Steady(m, r.outcome.Returned?, r.machine, keeps)
  {
    hide SafeTrace;
    hide Unruly;
  }
}

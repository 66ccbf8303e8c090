/** What the step budget of the documentation proof does: it cuts off, and nothing else. */
module InertBudget {
  import opened InertProof
  import opened LiteralBindings
  import opened Syntax
  import opened Trees
  import opened Wrappers

  /** The same answer, paid out of a budget of `b`. */
  predicate SameFrom(c: Checked, s: State, r: Option<Checked>, b: nat) {
    && c.state.steps <= s.steps
    && (b >= s.steps - c.state.steps ==>
          r == Some(c.(state := c.state.(steps := b - (s.steps - c.state.steps)))))
  }

  predicate SameStateFrom(t: State, s: State, r: Option<State>, b: nat) {
    && t.steps <= s.steps
    && (b >= s.steps - t.steps ==> r == Some(t.(steps := b - (s.steps - t.steps))))
  }

  lemma {:induction false} ExpressionBudget(n: Node, lang: Language, depth: nat, s: State, b: nat)
    requires depth <= MAX_DEPTH && CheckExpression(n, lang, depth, s).Some?
    ensures SameFrom(CheckExpression(n, lang, depth, s).value, s, CheckExpression(n, lang, depth, s.(steps := b)), b)
    decreases MAX_DEPTH - depth, 1, 1
  {
    hide CheckSequence;
    hide CheckString;
    hide CheckCall;
    hide CheckBinding;
    hide CheckBinary;
    hide Significant;
    var s1 := s.(steps := s.steps - 1);
    if b > 0 {
      var b1 := b - 1;
      var named := Significant(n.children);
      match n.kind
      case Module | Program | LexicalDeclaration | VariableDeclaration =>
        SequenceBudget(named, lang, depth + 1, s1, false, b1);
      case ConcatenatedString => SequenceBudget(named, lang, depth + 1, s1, true, b1);
      case ExpressionStatement | Parenthesized => ExpressionBudget(named[0], lang, depth + 1, s1, b1);
      case Assignment | VariableDeclarator => BindingBudget(n, lang, depth, s1, b1);
      case StringLiteral | TemplateString => StringBudget(n, lang, depth, s1, b1);
      case BinaryOperator | BinaryExpression => BinaryBudget(n, lang, depth, s1, b1);
      case Call | CallExpression => CallBudget(n, lang, depth + 1, s1, b1);
      case _ =>
    } else {
      ExpressionPays(n, lang, depth, s);
    }
  }

  /** Every accepted expression costs at least one step. */
  lemma {:induction false} ExpressionPays(n: Node, lang: Language, depth: nat, s: State)
    requires depth <= MAX_DEPTH && CheckExpression(n, lang, depth, s).Some?
    ensures CheckExpression(n, lang, depth, s).value.state.steps < s.steps
    decreases MAX_DEPTH - depth, 1, 0
  {
    hide CheckSequence;
    hide CheckString;
    hide CheckCall;
    hide CheckBinding;
    hide CheckBinary;
    hide Significant;
    var s1 := s.(steps := s.steps - 1);
    var named := Significant(n.children);
    match n.kind
    case Module | Program | LexicalDeclaration | VariableDeclaration =>
      SequenceBudget(named, lang, depth + 1, s1, false, 0);
    case ConcatenatedString => SequenceBudget(named, lang, depth + 1, s1, true, 0);
    case ExpressionStatement | Parenthesized => ExpressionPays(named[0], lang, depth + 1, s1);
    case Assignment | VariableDeclarator => BindingBudget(n, lang, depth, s1, 0);
    case StringLiteral | TemplateString => StringBudget(n, lang, depth, s1, 0);
    case BinaryOperator | BinaryExpression => BinaryBudget(n, lang, depth, s1, 0);
    case Call | CallExpression => CallBudget(n, lang, depth + 1, s1, 0);
    case _ =>
  }

  lemma {:induction false} SequenceBudget(ns: seq<Node>, lang: Language, depth: nat, s: State, texts: bool, b: nat)
    requires depth <= MAX_DEPTH && CheckSequence(ns, lang, depth, s, texts).Some?
    ensures SameStateFrom(CheckSequence(ns, lang, depth, s, texts).value, s,
              CheckSequence(ns, lang, depth, s.(steps := b), texts), b)
    decreases MAX_DEPTH - depth, 2, |ns|
  {
    hide CheckExpression;
    if ns != [] {
      ExpressionBudget(ns[0], lang, depth, s, b);
      var c := CheckExpression(ns[0], lang, depth, s).value;
      var used := s.steps - c.state.steps;
      SequenceBudget(ns[1..], lang, depth, c.state, texts, if b >= used then b - used else 0);
    }
  }

  lemma {:induction false} StringBudget(n: Node, lang: Language, depth: nat, s: State, b: nat)
    requires depth < MAX_DEPTH && CheckString(n, lang, depth, s).Some?
    ensures SameFrom(CheckString(n, lang, depth, s).value, s, CheckString(n, lang, depth, s.(steps := b)), b)
    decreases MAX_DEPTH - depth, 0, |Below(n)| + 1
  {
    hide CheckParts;
    hide ContainsMarker;
    hide Below;
    PartsBudget(Below(n), lang, depth, s, b);
  }

  lemma {:induction false} PartsBudget(ns: seq<Node>, lang: Language, depth: nat, s: State, b: nat)
    requires depth < MAX_DEPTH && CheckParts(ns, lang, depth, s).Some?
    ensures SameStateFrom(CheckParts(ns, lang, depth, s).value, s, CheckParts(ns, lang, depth, s.(steps := b)), b)
    decreases MAX_DEPTH - depth, 0, |ns|
  {
    hide CheckExpression;
    hide Operand;
    hide Node.IsInterpolation;
    if ns != [] {
      var s1, b1 := s.(steps := s.steps - 1), if b > 0 then b - 1 else 0;
      if ns[0].IsInterpolation() {
        var e := Operand(ns[0]).value;
        ExpressionBudget(e, lang, depth + 1, s1, b1);
        var c := CheckExpression(e, lang, depth + 1, s1).value;
        var used := s1.steps - c.state.steps;
        PartsBudget(ns[1..], lang, depth, c.state, if b1 >= used then b1 - used else 0);
      } else {
        PartsBudget(ns[1..], lang, depth, s1, b1);
      }
    }
  }

  lemma {:induction false} ArgumentsBudget(args: seq<Node>, lang: Language, depth: nat, s: State, b: nat)
    requires depth <= MAX_DEPTH && CheckArguments(args, lang, depth, s).Some?
    ensures SameStateFrom(CheckArguments(args, lang, depth, s).value, s,
              CheckArguments(args, lang, depth, s.(steps := b)), b)
    decreases MAX_DEPTH - depth, 2, |args|
  {
    hide CheckExpression;
    if args != [] {
      var e := ArgumentValue(args[0]).value;
      ExpressionBudget(e, lang, depth, s, b);
      var c := CheckExpression(e, lang, depth, s).value;
      var used := s.steps - c.state.steps;
      ArgumentsBudget(args[1..], lang, depth, c.state, if b >= used then b - used else 0);
    }
  }

  lemma {:induction false} BindingBudget(n: Node, lang: Language, depth: nat, s: State, b: nat)
    requires depth < MAX_DEPTH && CheckBinding(n, lang, depth, s).Some?
    ensures SameFrom(CheckBinding(n, lang, depth, s).value, s, CheckBinding(n, lang, depth, s.(steps := b)), b)
    decreases MAX_DEPTH - depth, 0, 0
  {
    hide CheckExpression;
    hide Significant;
    hide Reserved;
    ExpressionBudget(n.GetEither(RightField, ValueField).value, lang, depth + 1, s, b);
  }

  lemma {:induction false} BinaryBudget(n: Node, lang: Language, depth: nat, s: State, b: nat)
    requires depth < MAX_DEPTH && CheckBinary(n, lang, depth, s).Some?
    ensures SameFrom(CheckBinary(n, lang, depth, s).value, s, CheckBinary(n, lang, depth, s.(steps := b)), b)
    decreases MAX_DEPTH - depth, 0, 0
  {
    hide CheckExpression;
    hide Operation;
    var left, right := n.Get(LeftField).value, n.Get(RightField).value;
    ExpressionBudget(left, lang, depth + 1, s, b);
    var c := CheckExpression(left, lang, depth + 1, s).value;
    var used := s.steps - c.state.steps;
    ExpressionBudget(right, lang, depth + 1, c.state, if b >= used then b - used else 0);
  }

  lemma {:induction false} CallBudget(n: Node, lang: Language, depth: nat, s: State, b: nat)
    requires depth <= MAX_DEPTH && CheckCall(n, lang, depth, s).Some?
    ensures SameFrom(CheckCall(n, lang, depth, s).value, s, CheckCall(n, lang, depth, s.(steps := b)), b)
    decreases MAX_DEPTH - depth, 1, 0
  {
    hide CheckArguments;
    hide CheckCallee;
    hide Significant;
    var s1, b1 := s.(steps := s.steps - 1), if b > 0 then b - 1 else 0;
    var args := Significant(n.Get(ArgumentsField).value.children);
    ArgumentsBudget(args, lang, depth + 1, s1, b1);
    var s2 := CheckArguments(args, lang, depth + 1, s1).value;
    var used := s1.steps - s2.steps;
    CalleeBudget(n.Get(FunctionField).value, args, lang, depth, s2, if b1 >= used then b1 - used else 0);
  }

  lemma {:induction false} CalleeBudget(f: Node, args: seq<Node>, lang: Language, depth: nat, s: State, b: nat)
    requires depth < MAX_DEPTH && CheckCallee(f, args, lang, depth, s).Some?
    ensures SameFrom(CheckCallee(f, args, lang, depth, s).value, s, CheckCallee(f, args, lang, depth, s.(steps := b)),
              b)
    decreases MAX_DEPTH - depth, 0, 0
  {
    hide CheckExpression;
    hide NamedCall;
    hide MethodCall;
    hide IsConsoleMethod;
    if f.kind != Identifier {
      var target := f.Get(ObjectField).value;
      if CheckExpression(target, lang, depth + 1, s).Some? {
        ExpressionBudget(target, lang, depth + 1, s, b);
      }
    }
  }

  /** The budget is a pure cut-off. Once a tree passes with some budget, it has a price; any
      budget that covers the price gives the same kinds, names and literals and keeps the
      change, and any smaller one refuses. */
  lemma BudgetIsACutoff(n: Node, lang: Language, depth: nat, s: State, b: nat)
    requires depth <= MAX_DEPTH && CheckExpression(n, lang, depth, s).Some?
    ensures var c := CheckExpression(n, lang, depth, s).value;
            var price := s.steps - c.state.steps;
            var r := CheckExpression(n, lang, depth, s.(steps := b));
            && 0 < price <= s.steps
            && (r.Some? <==> b >= price)
            && (r.Some? ==> r.value == c.(state := c.state.(steps := b - price)))
  {
    ExpressionPays(n, lang, depth, s);
    ExpressionBudget(n, lang, depth, s, b);
    if CheckExpression(n, lang, depth, s.(steps := b)).Some? {
      ExpressionBudget(n, lang, depth, s.(steps := b), s.steps);
      assert s.(steps := b).(steps := s.steps) == s;
    }
  }

  // ------------------------------------------------------- nested templates

  predicate IsSequence(k: Kind) {
    k in {Module, Program, LexicalDeclaration, VariableDeclaration, ConcatenatedString}
  }

  predicate IsArgument(n: Node, c: Node) {
    && n.Get(ArgumentsField).Some?
    && exists a :: a in Significant(n.Get(ArgumentsField).value.children) && ArgumentValue(a) == Some(c)
  }

  /** `n` calls a method of `c`; a bare name may be `console`, which is not checked. */
  predicate IsReceiver(n: Node, c: Node) {
    && n.Get(FunctionField).Some? && c.kind != Identifier
    && var f := n.Get(FunctionField).value;
       (f.kind == Attribute || f.kind == MemberExpression) && f.Get(ObjectField) == Some(c)
  }

  /** The check of `n`, if it succeeds, checks `c`, and `n` is no string. */
  predicate Visits(n: Node, c: Node) {
    match n.kind
    case ExpressionStatement | Parenthesized => Significant(n.children) == [c]
    case Assignment | VariableDeclarator => n.GetEither(RightField, ValueField) == Some(c)
    case BinaryOperator | BinaryExpression => n.Get(LeftField) == Some(c) || n.Get(RightField) == Some(c)
    case Call | CallExpression => IsArgument(n, c) || IsReceiver(n, c)
    case _ => IsSequence(n.kind) && c in Significant(n.children)
  }

  /** What is checked comes to a string in which an interpolation comes to such a string, and so on
      through `k` interpolations, whatever stands beside them. */
  ghost predicate Tower(n: Node, k: nat)
    decreases k, |Below(n)|
  {
    if n.kind == StringLiteral || n.kind == TemplateString then
      k == 0 || exists part ::
          part in Below(n) && part.IsInterpolation() && Operand(part).Some? && Tower(Operand(part).value, k - 1)
    else exists c :: Visits(n, c) && c in Below(n) && |Below(c)| < |Below(n)| && Tower(c, k)
  }

  lemma Regroup(x: Node, a: seq<Node>, m: seq<Node>, b: seq<Node>, rest: seq<Node>)
    ensures [x] + (a + m + b) + rest == ([x] + a) + m + (b + rest)
  {}

  lemma RegroupTail(x: seq<Node>, a: seq<Node>, m: seq<Node>, b: seq<Node>)
    ensures x + (a + m + b) == (x + a) + m + b
  {}

  lemma NoPrefix(m: seq<Node>, rest: seq<Node>)
    ensures m + rest == [] + m + rest
  {}

  lemma InConcat(d: Node, x: Node, a: seq<Node>, b: seq<Node>)
    requires d in [x] + a + b
    ensures d == x || d in a || d in b
  {}

  /** A node and what is below it stand together. */
  lemma {:induction false} Segment(ns: seq<Node>, d: Node) returns (pre: seq<Node>, post: seq<Node>)
    requires d in BelowAll(ns)
    ensures BelowAll(ns) == pre + ([d] + Below(d)) + post
    decreases ns
  {
    hide *;
    BelowUnfolds(ns);
    var n, rest := ns[0], BelowAll(ns[1..]);
    InConcat(d, n, Below(n), rest);
    if n == d {
      pre, post := [], rest;
      NoPrefix([d] + Below(d), rest);
    } else if d in Below(n) {
      BelowIs(n);
      var a, b := Segment(n.children, d);
      pre, post := [n] + a, b + rest;
      Regroup(n, a, [d] + Below(d), b, rest);
    } else {
      var a, b := Segment(ns[1..], d);
      pre, post := [n] + Below(n) + a, b;
      RegroupTail([n] + Below(n), a, [d] + Below(d), b);
    }
  }

  lemma BelowIs(n: Node)
    ensures Below(n) == BelowAll(n.children)
  {}

  lemma BelowUnfolds(ns: seq<Node>)
    ensures BelowAll(ns) == if ns == [] then [] else [ns[0]] + Below(ns[0]) + BelowAll(ns[1..])
  {}

  lemma {:induction false} ChildBelow(ns: seq<Node>, c: Node)
    requires c in ns
    ensures c in BelowAll(ns)
  {
    hide Below;
    BelowUnfolds(ns);
    if ns[0] != c { ChildBelow(ns[1..], c); }
  }

  /** A child of a node below is below, and has less below it. */
  lemma BelowStep(n: Node, d: Node, c: Node)
    requires d == n || d in Below(n)
    requires c in d.children
    ensures c in Below(n) && |Below(c)| < |Below(n)|
  {
    hide *;
    BelowIs(n);
    BelowIs(d);
    ChildBelow(d.children, c);
    var a, b := Segment(d.children, c);
    if d != n {
      var pre, post := Segment(n.children, d);
      assert Below(d) <= Below(n)[|pre| + 1..];
      assert c in Below(n)[|pre| + 1..][..|Below(d)|];
    }
  }

  lemma ArgumentOf(n: Node, c: Node) returns (a: Node)
    requires IsArgument(n, c)
    ensures n.Get(ArgumentsField).Some? && a in Significant(n.Get(ArgumentsField).value.children)
            && ArgumentValue(a) == Some(c)
  {
    hide Significant;
    hide ArgumentValue;
    a :| a in Significant(n.Get(ArgumentsField).value.children) && ArgumentValue(a) == Some(c);
  }

  lemma ArgumentBelow(n: Node, c: Node)
    requires IsArgument(n, c)
    ensures c in Below(n) && |Below(c)| < |Below(n)|
  {
    var a := ArgumentOf(n, c);
    hide Below;
    hide IsArgument;
    var list := n.Get(ArgumentsField).value;
    BelowStep(n, n, list);
    BelowStep(n, list, a);
    if a.kind == KeywordArgument { BelowStep(n, a, c); }
  }

  lemma ReceiverBelow(n: Node, c: Node)
    requires IsReceiver(n, c)
    ensures c in Below(n) && |Below(c)| < |Below(n)|
  {
    hide Below;
    var f := n.Get(FunctionField).value;
    BelowStep(n, n, f);
    BelowStep(n, f, c);
  }

  lemma VisitsCases(n: Node, c: Node)
    requires Visits(n, c)
    ensures IsArgument(n, c) || IsReceiver(n, c) || c in n.children
  {
    hide IsArgument;
    hide IsReceiver;
    assert c in Significant(n.children) ==> c in n.children;
  }

  /** Whatever the check of a node visits is below the node. */
  lemma VisitsBelow(n: Node, c: Node)
    requires Visits(n, c)
    ensures c in Below(n) && |Below(c)| < |Below(n)|
  {
    hide *;
    VisitsCases(n, c);
    if IsArgument(n, c) {
      ArgumentBelow(n, c);
    } else if IsReceiver(n, c) {
      ReceiverBelow(n, c);
    } else {
      BelowStep(n, n, c);
    }
  }

  lemma PartsPay(ns: seq<Node>, lang: Language, depth: nat, s: State)
    requires depth < MAX_DEPTH && CheckParts(ns, lang, depth, s).Some?
    ensures CheckParts(ns, lang, depth, s).value.steps <= s.steps
  {
    PartsBudget(ns, lang, depth, s, 0);
    hide CheckParts;
  }

  /** The walk over two lists is one walk after the other. */
  lemma {:induction false} PartsConcat(a: seq<Node>, b: seq<Node>, lang: Language, depth: nat, s: State)
    requires depth < MAX_DEPTH
    ensures CheckParts(a + b, lang, depth, s) ==
            if CheckParts(a, lang, depth, s).Some? then CheckParts(b, lang, depth, CheckParts(a, lang, depth, s).value)
            else None
    decreases |a|
  {
    hide CheckExpression;
    hide CheckParts;
    hide Operand;
    if a == [] {
      assert a + b == b;
      NoParts(lang, depth);
    } else {
      assert (a + b)[0] == a[0] && (a + b)[1..] == a[1..] + b;
      CheckPartsNext(a, lang, depth, s);
      CheckPartsNext(a + b, lang, depth, s);
      if s.steps > 0 {
        var s1 := s.(steps := s.steps - 1);
        PartsConcat(a[1..], b, lang, depth, s1);
        if a[0].IsInterpolation() && Operand(a[0]).Some? {
          var r := CheckExpression(Operand(a[0]).value, lang, depth + 1, s1);
          if r.Some? { PartsConcat(a[1..], b, lang, depth, r.value.state); }
        }
      }
    }
  }

  /** A walk pays for every stretch of it. */
  lemma StretchPays(pre: seq<Node>, ns: seq<Node>, post: seq<Node>, lang: Language, depth: nat, s: State)
    returns (s': State)
    requires depth < MAX_DEPTH && CheckParts(pre + ns + post, lang, depth, s).Some?
    ensures s'.steps <= s.steps && CheckParts(ns, lang, depth, s').Some?
    ensures CheckParts(pre + ns + post, lang, depth, s).value.steps <= CheckParts(ns, lang, depth, s').value.steps
  {
    hide CheckParts;
    PartsConcat(pre + ns, post, lang, depth, s);
    PartsConcat(pre, ns, lang, depth, s);
    s' := CheckParts(pre, lang, depth, s).value;
    PartsPay(pre, lang, depth, s);
    PartsPay(post, lang, depth, CheckParts(ns, lang, depth, s').value);
  }

  /** Any node costs the walk a step, and an interpolation what its expression costs. */
  lemma NodePays(n: Node, ns: seq<Node>, lang: Language, depth: nat, s: State) returns (s': State)
    requires depth < MAX_DEPTH && CheckParts([n] + ns, lang, depth, s).Some?
    ensures s'.steps < s.steps && CheckParts([n] + ns, lang, depth, s) == CheckParts(ns, lang, depth, s')
    ensures n.IsInterpolation() ==>
              && Operand(n).Some?
              && var r := CheckExpression(Operand(n).value, lang, depth + 1, s.(steps := s.steps - 1));
                 r.Some? && s' == r.value.state
  {
    hide CheckExpression;
    hide CheckParts;
    hide Operand;
    assert ([n] + ns)[0] == n && ([n] + ns)[1..] == ns;
    CheckPartsNext([n] + ns, lang, depth, s);
    var s1 := s.(steps := s.steps - 1);
    if n.IsInterpolation() {
      ExpressionPays(Operand(n).value, lang, depth + 1, s1);
      s' := CheckExpression(Operand(n).value, lang, depth + 1, s1).value.state;
    } else {
      s' := s1;
    }
  }

  /** A stretch that a node and what is below it make, in the walk below another node. */
  lemma BelowPays(n: Node, d: Node, lang: Language, depth: nat, s: State) returns (s': State)
    requires depth < MAX_DEPTH && d in Below(n) && CheckParts(Below(n), lang, depth, s).Some?
    ensures s'.steps <= s.steps && CheckParts([d] + Below(d), lang, depth, s').Some?
    ensures CheckParts(Below(n), lang, depth, s).value.steps <= CheckParts([d] + Below(d), lang, depth, s').value.steps
  {
    hide CheckParts;
    hide Below;
    BelowIs(n);
    var pre, post := Segment(n.children, d);
    s' := StretchPays(pre, [d] + Below(d), post, lang, depth, s);
  }

  // ------------------------------------------------------- what visits cost

  /** The check of `c` at `depth`, out of `s`, is part of one out of `s0` that leaves `s1`. */
  predicate Within(c: Node, lang: Language, depth: nat, s: State, s0: State, s1: State) {
    && depth <= MAX_DEPTH && s.steps <= s0.steps
    && CheckExpression(c, lang, depth, s).Some? && s1.steps <= CheckExpression(c, lang, depth, s).value.state.steps
  }

  lemma {:induction false} SequenceVisit(ns: seq<Node>, c: Node, lang: Language, depth: nat, s: State, texts: bool)
    returns (s': State)
    requires depth <= MAX_DEPTH && c in ns && CheckSequence(ns, lang, depth, s, texts).Some?
    ensures Within(c, lang, depth, s', s, CheckSequence(ns, lang, depth, s, texts).value)
    decreases |ns|
  {
    hide CheckExpression;
    var r := CheckExpression(ns[0], lang, depth, s).value;
    if ns[0] == c {
      SequenceBudget(ns[1..], lang, depth, r.state, texts, 0);
      s' := s;
    } else {
      ExpressionPays(ns[0], lang, depth, s);
      s' := SequenceVisit(ns[1..], c, lang, depth, r.state, texts);
    }
  }

  lemma {:induction false} ArgumentVisit(args: seq<Node>, a: Node, c: Node, lang: Language, depth: nat, s: State)
    returns (s': State)
    requires depth <= MAX_DEPTH && a in args && ArgumentValue(a) == Some(c)
             && CheckArguments(args, lang, depth, s).Some?
    ensures Within(c, lang, depth, s', s, CheckArguments(args, lang, depth, s).value)
    decreases |args|
  {
    hide CheckExpression;
    var e := ArgumentValue(args[0]).value;
    var r := CheckExpression(e, lang, depth, s).value;
    if args[0] == a {
      ArgumentsBudget(args[1..], lang, depth, r.state, 0);
      s' := s;
    } else {
      ExpressionPays(e, lang, depth, s);
      s' := ArgumentVisit(args[1..], a, c, lang, depth, r.state);
    }
  }

  lemma CallForm(n: Node, lang: Language, depth: nat, s: State)
    requires depth <= MAX_DEPTH && CheckCall(n, lang, depth, s).Some?
    ensures depth < MAX_DEPTH && s.steps > 0 && n.Get(FunctionField).Some? && n.Get(ArgumentsField).Some?
    ensures var args := Significant(n.Get(ArgumentsField).value.children);
            var r := CheckArguments(args, lang, depth + 1, s.(steps := s.steps - 1));
            && r.Some?
            && CheckCall(n, lang, depth, s) == CheckCallee(n.Get(FunctionField).value, args, lang, depth, r.value)
  {
    hide CheckArguments;
    hide CheckCallee;
    hide Significant;
  }

  lemma WithinMore(c: Node, lang: Language, depth: nat, s: State, s0: State, s1: State, s0': State, s1': State)
    requires Within(c, lang, depth, s, s0, s1) && s0.steps <= s0'.steps && s1'.steps <= s1.steps
    ensures Within(c, lang, depth, s, s0', s1')
  {
    hide CheckExpression;
  }

  lemma CallVisit(n: Node, c: Node, lang: Language, depth: nat, s: State) returns (s': State)
    requires depth <= MAX_DEPTH && IsArgument(n, c) && CheckCall(n, lang, depth, s).Some?
    ensures depth < MAX_DEPTH && Within(c, lang, depth + 1, s', s, CheckCall(n, lang, depth, s).value.state)
  {
    hide *;
    CallForm(n, lang, depth, s);
    var a := ArgumentOf(n, c);
    var s1 := s.(steps := s.steps - 1);
    var args := Significant(n.Get(ArgumentsField).value.children);
    var s2 := CheckArguments(args, lang, depth + 1, s1).value;
    s' := ArgumentVisit(args, a, c, lang, depth + 1, s1);
    CalleePays(n.Get(FunctionField).value, args, lang, depth, s2);
    WithinMore(c, lang, depth + 1, s', s1, s2, s, CheckCall(n, lang, depth, s).value.state);
  }

  lemma ReceiverVisit(n: Node, c: Node, args: seq<Node>, lang: Language, depth: nat, s: State)
    requires depth < MAX_DEPTH && IsReceiver(n, c)
             && CheckCallee(n.Get(FunctionField).value, args, lang, depth, s).Some?
    ensures Within(c, lang, depth + 1, s, s, CheckCallee(n.Get(FunctionField).value, args, lang, depth, s).value.state)
  {
    hide CheckExpression;
    hide NamedCall;
    hide MethodCall;
    hide IsConsoleMethod;
  }

  /** What a call visits. */
  lemma CalledVisit(n: Node, c: Node, lang: Language, depth: nat, s: State) returns (s': State)
    requires depth <= MAX_DEPTH && (IsArgument(n, c) || IsReceiver(n, c)) && CheckCall(n, lang, depth, s).Some?
    ensures depth < MAX_DEPTH && Within(c, lang, depth + 1, s', s, CheckCall(n, lang, depth, s).value.state)
  {
    hide *;
    CallForm(n, lang, depth, s);
    if IsArgument(n, c) {
      s' := CallVisit(n, c, lang, depth, s);
    } else {
      var args := Significant(n.Get(ArgumentsField).value.children);
      var s1 := s.(steps := s.steps - 1);
      s' := CheckArguments(args, lang, depth + 1, s1).value;
      ArgumentsPay(args, lang, depth + 1, s1);
      ReceiverVisit(n, c, args, lang, depth, s');
      var r := CheckCall(n, lang, depth, s).value.state;
      WithinMore(c, lang, depth + 1, s', s', r, s, r);
    }
  }

  lemma ArgumentsPay(args: seq<Node>, lang: Language, depth: nat, s: State)
    requires depth <= MAX_DEPTH && CheckArguments(args, lang, depth, s).Some?
    ensures CheckArguments(args, lang, depth, s).value.steps <= s.steps
  {
    ArgumentsBudget(args, lang, depth, s, 0);
    hide CheckArguments;
  }

  lemma CalleePays(f: Node, args: seq<Node>, lang: Language, depth: nat, s: State)
    requires depth < MAX_DEPTH && CheckCallee(f, args, lang, depth, s).Some?
    ensures CheckCallee(f, args, lang, depth, s).value.state.steps <= s.steps
  {
    CalleeBudget(f, args, lang, depth, s, 0);
    hide CheckCallee;
  }

  lemma BinaryVisit(n: Node, c: Node, lang: Language, depth: nat, s: State) returns (s': State)
    requires depth < MAX_DEPTH && CheckBinary(n, lang, depth, s).Some?
    requires n.Get(LeftField) == Some(c) || n.Get(RightField) == Some(c)
    ensures Within(c, lang, depth + 1, s', s, CheckBinary(n, lang, depth, s).value.state)
  {
    hide CheckExpression;
    hide Operation;
    var left, right := n.Get(LeftField).value, n.Get(RightField).value;
    var middle := CheckExpression(left, lang, depth + 1, s).value.state;
    ExpressionPays(left, lang, depth + 1, s);
    ExpressionPays(right, lang, depth + 1, middle);
    s' := if left == c then s else middle;
  }

  /** What a check visits it pays for, and a step beside it. */
  lemma VisitPays(n: Node, c: Node, lang: Language, depth: nat, s: State) returns (depth': nat, s': State)
    requires depth <= MAX_DEPTH && Visits(n, c) && CheckExpression(n, lang, depth, s).Some?
    ensures s.steps > 0
            && Within(c, lang, depth', s', s.(steps := s.steps - 1), CheckExpression(n, lang, depth, s).value.state)
  {
    hide CheckSequence;
    hide CheckString;
    hide CheckCall;
    hide CheckBinding;
    hide CheckBinary;
    hide Significant;
    hide IsArgument;
    hide IsReceiver;
    var s1, named := s.(steps := s.steps - 1), Significant(n.children);
    depth', s' := depth + 1, s1;
    match n.kind
    case ConcatenatedString => s' := SequenceVisit(named, c, lang, depth + 1, s1, true);
    case ExpressionStatement | Parenthesized =>
    case Assignment | VariableDeclarator => BindingVisit(n, c, lang, depth, s1);
    case BinaryOperator | BinaryExpression => s' := BinaryVisit(n, c, lang, depth, s1);
    case Call | CallExpression =>
      s' := CalledVisit(n, c, lang, depth + 1, s1);
      depth' := depth + 2;
    case Module | Program | LexicalDeclaration | VariableDeclaration =>
      s' := SequenceVisit(named, c, lang, depth + 1, s1, false);
    case _ =>
  }

  lemma BindingVisit(n: Node, c: Node, lang: Language, depth: nat, s: State)
    requires depth < MAX_DEPTH && CheckBinding(n, lang, depth, s).Some?
             && n.GetEither(RightField, ValueField) == Some(c)
    ensures Within(c, lang, depth + 1, s, s, CheckBinding(n, lang, depth, s).value.state)
  {
    hide CheckExpression;
    hide Significant;
    hide Reserved;
  }

  // ------------------------------------------------------------- the price

  function Pow2(k: nat): (p: nat)
    ensures p >= 1
  {
    if k == 0 then 1 else 2 * Pow2(k - 1)
  }

  /** The least that `k` nested interpolations cost. */
  function Least(k: nat): nat { 3 * Pow2(k) - 2 }

  lemma LeastDoubles(k: nat)
    ensures Least(0) == 1 && Pow2(k) >= 1 && (k > 0 ==> Least(k) == 2 * Least(k - 1) + 2)
  {
    if k > 0 { LeastDoubles(k - 1); }
  }

  lemma TowerCases(n: Node, k: nat) returns (d: Node)
    requires Tower(n, k)
    ensures IsText(n.kind) && k > 0 ==>
              d in Below(n) && d.IsInterpolation() && Operand(d).Some? && Tower(Operand(d).value, k - 1)
    ensures !IsText(n.kind) ==> Visits(n, d) && d in Below(n) && |Below(d)| < |Below(n)| && Tower(d, k)
  {
    hide Below;
    hide Visits;
    hide Operand;
    d := n;
    if IsText(n.kind) && k > 0 {
      d :| d in Below(n) && d.IsInterpolation() && Operand(d).Some? && Tower(Operand(d).value, k - 1);
    } else if !IsText(n.kind) {
      d :| Visits(n, d) && d in Below(n) && |Below(d)| < |Below(n)| && Tower(d, k);
    }
  }

  lemma OperandBelow(part: Node)
    requires Operand(part).Some?
    ensures Operand(part).value in Below(part)
  {
    hide Below;
    BelowStep(part, part, Operand(part).value);
  }

  /** The walk below a string visits the nested interpolations again: once for the expression of the
      outer one and once more on its own way, so every level doubles the price. */
  lemma {:induction false} TowerPrice(n: Node, lang: Language, depth: nat, s: State, k: nat)
    requires depth < MAX_DEPTH && Tower(n, k) && CheckParts(Below(n), lang, depth, s).Some?
    ensures s.steps - CheckParts(Below(n), lang, depth, s).value.steps + 1 >= Least(k)
    decreases k, |Below(n)|, 0
  {
    hide *;
    PartsPay(Below(n), lang, depth, s);
    LeastDoubles(k);
    var d := TowerCases(n, k);
    if !IsText(n.kind) {
      var s1 := BelowPays(n, d, lang, depth, s);
      var s2 := NodePays(d, Below(d), lang, depth, s1);
      TowerPrice(d, lang, depth, s2, k);
    } else if k > 0 {
      var e := Operand(d).value;
      OperandBelow(d);
      var s1 := BelowPays(n, d, lang, depth, s);
      var s2 := NodePays(d, Below(d), lang, depth, s1);
      TowerExpressionPrice(e, lang, depth + 1, s1.(steps := s1.steps - 1), k - 1);
      var s3 := BelowPays(d, e, lang, depth, s2);
      var s4 := NodePays(e, Below(e), lang, depth, s3);
      TowerPrice(e, lang, depth, s4, k - 1);
    }
  }

  /** A string costs a step and what is below it. */
  lemma StringCases(n: Node, lang: Language, depth: nat, s: State)
    requires depth < MAX_DEPTH && IsText(n.kind)
    ensures var r := CheckExpression(n, lang, depth, s);
            if s.steps == 0 then r.None?
            else
              var below := CheckParts(Below(n), lang, depth, s.(steps := s.steps - 1));
              && (r.Some? <==> below.Some?)
              && (r.Some? ==> r.value.kind == Text && r.value.state.steps == below.value.steps)
  {
    hide CheckParts;
    hide Below;
    hide Significant;
    hide ContainsMarker;
  }

  lemma NotTooDeep(n: Node, lang: Language, depth: nat, s: State)
    requires depth <= MAX_DEPTH && CheckExpression(n, lang, depth, s).Some?
    ensures depth < MAX_DEPTH && s.steps > 0
  {}

  lemma WithinCases(c: Node, lang: Language, depth: nat, s: State, s0: State, s1: State)
    requires Within(c, lang, depth, s, s0, s1)
    ensures depth <= MAX_DEPTH && s.steps <= s0.steps
    ensures CheckExpression(c, lang, depth, s).Some? && s1.steps <= CheckExpression(c, lang, depth, s).value.state.steps
  {
    hide CheckExpression;
  }

  lemma {:induction false} TowerExpressionPrice(n: Node, lang: Language, depth: nat, s: State, k: nat)
    requires depth <= MAX_DEPTH && Tower(n, k) && CheckExpression(n, lang, depth, s).Some?
    ensures s.steps - CheckExpression(n, lang, depth, s).value.state.steps >= Least(k)
    decreases k, |Below(n)|, 1
  {
    hide *;
    if IsText(n.kind) {
      NotTooDeep(n, lang, depth, s);
      StringCases(n, lang, depth, s);
      TowerPrice(n, lang, depth, s.(steps := s.steps - 1), k);
    } else {
      var c := TowerCases(n, k);
      var depth', s' := VisitPays(n, c, lang, depth, s);
      WithinCases(c, lang, depth', s', s.(steps := s.steps - 1), CheckExpression(n, lang, depth, s).value.state);
      TowerExpressionPrice(c, lang, depth', s', k);
    }
  }

  /** Thirteen levels are more than the whole budget, wherever in a program they stand. */
  lemma DeepTowersRefused(n: Node, lang: Language, depth: nat, s: State, k: nat)
    requires depth <= MAX_DEPTH && s.steps <= MAX_STEPS && Tower(n, k) && k >= 13
    ensures CheckExpression(n, lang, depth, s).None?
  {
    hide CheckExpression;
    hide Tower;
    Pow2Grows(13, k);
    Pow2Of13();
    if CheckExpression(n, lang, depth, s).Some? {
      TowerExpressionPrice(n, lang, depth, s, k);
      assert false;
    }
  }

  lemma Pow2Of13()
    ensures Pow2(13) == 8192
  {
    assert Pow2(4) == 16;
    assert Pow2(8) == 16 * Pow2(4);
    assert Pow2(12) == 16 * Pow2(8);
  }

  lemma {:induction false} Pow2Grows(i: nat, j: nat)
    requires i <= j
    ensures Pow2(i) <= Pow2(j)
    decreases j
  {
    if i < j { Pow2Grows(i, j - 1); }
  }

  // --------------------------------------------- templates as they are parsed

  /** `text ${inner}` between backticks, for an expression that stands there. */
  function Template(inner: Node, at: nat): Node {
    var part := Node(TemplateSubstitution, "${" + inner.text + "}", at + 6, inner.end + 1, true,
                     [Token("${", at + 6), inner, Token("}", inner.end)], map[]);
    Node(TemplateString, "`text " + part.text + "`", at, part.end + 1, true,
         [Token("`", at), Leaf(OtherKind("string_fragment"), "text ", at + 1), part, Token("`", part.end)], map[])
  }

  /** A string in `k` templates. */
  function Nest(k: nat, at: nat): Node {
    if k == 0 then Str("`git branch -d x`", at) else Template(Nest(k - 1, at + 8), at)
  }

  function NestProgram(k: nat): Node {
    var n := Nest(k, 0);
    Top(JavaScript, [Node(ExpressionStatement, n.text, n.start, n.end, true, [n], map[])])
  }

  lemma TemplateShape(inner: Node, at: nat) returns (part: Node)
    ensures var n := Template(inner, at);
            n.kind == TemplateString && n.named && part in n.children && part.IsInterpolation() && part.fields == map[]
    ensures |part.children| == 3 && !part.children[0].named && part.children[1] == inner
  {
    hide Utf8Length;
    part := Template(inner, at).children[2];
  }

  lemma {:induction false} NestIsTower(k: nat, at: nat)
    ensures Tower(Nest(k, at), k) && IsText(Nest(k, at).kind) && Nest(k, at).named
  {
    hide Below;
    hide Utf8Length;
    hide Template;
    hide Operand;
    hide Str;
    if k == 0 {
      StrParts("`git branch -d x`", at);
    } else {
      NestIsTower(k - 1, at + 8);
      var inner := Nest(k - 1, at + 8);
      var part := TemplateShape(inner, at);
      BelowStep(Nest(k, at), Nest(k, at), part);
      OperandOf(part, inner);
    }
  }

  lemma OperandOf(part: Node, inner: Node)
    requires part.fields == map[] && |part.children| == 3 && !part.children[0].named && part.children[1] == inner
    requires inner.named && IsText(inner.kind)
    ensures Operand(part) == Some(inner)
  {
    assert part.children[1..][0] == inner;
    assert FirstOperand(part.children[1..]) == 0;
  }

  lemma VisitedTower(n: Node, c: Node, k: nat)
    requires !IsText(n.kind) && Visits(n, c) && Tower(c, k)
    ensures Tower(n, k)
  {
    hide Below;
    hide Visits;
    VisitsBelow(n, c);
  }

  lemma NestProgramVisits(k: nat) returns (statement: Node)
    ensures NestProgram(k).kind == Program && Visits(NestProgram(k), statement)
    ensures statement.kind == ExpressionStatement
            && (Nest(k, 0).named && IsText(Nest(k, 0).kind) ==> Visits(statement, Nest(k, 0)))
  {
    hide Nest;
    hide Significant;
    statement := NestProgram(k).children[0];
    Alone(statement);
    if Nest(k, 0).named && IsText(Nest(k, 0).kind) { Alone(Nest(k, 0)); }
  }

  lemma NestRefused(k: nat)
    requires k >= 13
    ensures CheckExpression(NestProgram(k), JavaScript, 0, State(map[], [], MAX_STEPS)).None?
  {
    hide CheckExpression;
    hide Tower;
    hide Nest;
    hide NestProgram;
    hide Visits;
    NestIsTower(k, 0);
    var statement := NestProgramVisits(k);
    VisitedTower(statement, Nest(k, 0), k);
    VisitedTower(NestProgram(k), statement, k);
    DeepTowersRefused(NestProgram(k), JavaScript, 0, State(map[], [], MAX_STEPS), k);
  }

  /** The walk over `ns` takes `cost` steps, and needs nothing else. */
  ghost predicate Walks(ns: seq<Node>, depth: nat, cost: nat)
    requires depth < MAX_DEPTH
  {
    forall s :: var r := CheckParts(ns, JavaScript, depth, s);
      (r.Some? <==> s.steps >= cost) && (r.Some? ==> r.value.steps == s.steps - cost)
  }

  ghost predicate IsTextFor(n: Node, depth: nat, cost: nat)
    requires depth <= MAX_DEPTH
  {
    forall s :: var r := CheckExpression(n, JavaScript, depth, s);
      (r.Some? <==> s.steps >= cost) && (r.Some? ==> r.value.kind == Text && r.value.state.steps == s.steps - cost)
  }

  lemma WalksOn(a: seq<Node>, b: seq<Node>, depth: nat, first: nat, second: nat)
    requires depth < MAX_DEPTH && Walks(a, depth, first) && Walks(b, depth, second)
    ensures Walks(a + b, depth, first + second)
  {
    hide CheckParts;
    forall s ensures var r := CheckParts(a + b, JavaScript, depth, s);
        (r.Some? <==> s.steps >= first + second) && (r.Some? ==> r.value.steps == s.steps - (first + second)) {
      PartsConcat(a, b, JavaScript, depth, s);
    }
  }

  lemma WalksOver(n: Node, depth: nat)
    requires depth < MAX_DEPTH && !n.IsInterpolation()
    ensures Walks([n], depth, 1)
  {
    hide CheckParts;
    forall s ensures var r := CheckParts([n], JavaScript, depth, s);
        (r.Some? <==> s.steps >= 1) && (r.Some? ==> r.value.steps == s.steps - 1) {
      assert [n][1..] == [];
      CheckPartsNext([n], JavaScript, depth, s);
      NoParts(JavaScript, depth);
    }
  }

  lemma WalksInto(part: Node, e: Node, depth: nat, cost: nat)
    requires depth < MAX_DEPTH && part.IsInterpolation() && Operand(part) == Some(e) && IsTextFor(e, depth + 1, cost)
    ensures Walks([part], depth, cost + 1)
  {
    hide CheckParts;
    hide CheckExpression;
    hide Operand;
    forall s ensures var r := CheckParts([part], JavaScript, depth, s);
        (r.Some? <==> s.steps >= cost + 1) && (r.Some? ==> r.value.steps == s.steps - (cost + 1)) {
      assert [part][1..] == [];
      CheckPartsNext([part], JavaScript, depth, s);
      NoParts(JavaScript, depth);
    }
  }

  lemma StringIsText(n: Node, depth: nat, cost: nat)
    requires depth < MAX_DEPTH && IsText(n.kind) && Walks(Below(n), depth, cost)
    ensures IsTextFor(n, depth, cost + 1)
  {
    hide CheckParts;
    hide CheckExpression;
    hide Below;
    forall s ensures var r := CheckExpression(n, JavaScript, depth, s);
        (r.Some? <==> s.steps >= cost + 1)
          && (r.Some? ==> r.value.kind == Text && r.value.state.steps == s.steps - (cost + 1)) {
      StringCases(n, JavaScript, depth, s);
    }
  }

  /** What `k` templates around a string cost. */
  function NestPrice(k: nat): (p: nat)
    ensures p >= 4
  {
    11 * Pow2(k) - 7
  }

  lemma NestPriceDoubles(k: nat)
    ensures NestPrice(0) == 4 && (k > 0 ==> NestPrice(k) == 2 * NestPrice(k - 1) + 7)
  {}

  lemma BelowTemplate(inner: Node, at: nat) returns (ts: seq<Node>, part: Node)
    ensures |ts| == 5 && forall t :: t in ts ==> !t.IsInterpolation()
    ensures part.IsInterpolation() && part.fields == map[] && |part.children| == 3 && !part.children[0].named
            && part.children[1] == inner
    ensures Template(inner, at).kind == TemplateString
    ensures Below(Template(inner, at))
            == [ts[0]] + ([ts[1]] + ([part] + ([ts[2]] + (([inner] + Below(inner)) + ([ts[3]] + [ts[4]])))))
  {
    hide Utf8Length;
    var n := Template(inner, at);
    part := n.children[2];
    ts := [n.children[0], n.children[1], part.children[0], part.children[2], n.children[3]];
    TemplateWalk(n, ts, part, inner);
  }

  lemma TemplateWalk(n: Node, ts: seq<Node>, part: Node, inner: Node)
    requires |ts| == 5 && (forall t :: t in ts ==> t.children == [])
    requires n.children == [ts[0], ts[1], part, ts[4]] && part.children == [ts[2], inner, ts[3]]
    ensures Below(n) == [ts[0]] + ([ts[1]] + ([part] + ([ts[2]] + (([inner] + Below(inner)) + ([ts[3]] + [ts[4]])))))
  {
    hide *;
    WalkTriple(ts[2], inner, ts[3]);
    BelowIs(part);
    BelowIs(n);
    WalkQuad(ts[0], ts[1], part, ts[4]);
    var middle := [ts[2]] + (([inner] + Below(inner)) + [ts[3]]);
    assert Below(part) == middle;
    assert middle + [ts[4]] == [ts[2]] + (([inner] + Below(inner)) + ([ts[3]] + [ts[4]]));
  }

  lemma BelowCons(n: Node, ns: seq<Node>)
    ensures BelowAll([n] + ns) == [n] + Below(n) + BelowAll(ns)
  {
    assert ([n] + ns)[1..] == ns;
  }

  lemma BelowAtom(n: Node)
    requires n.children == []
    ensures Below(n) == [] && BelowAll([n]) == [n] && BelowAll([]) == []
  {
    assert [n][1..] == [];
  }

  lemma WalkTriple(a: Node, n: Node, b: Node)
    requires a.children == [] && b.children == []
    ensures BelowAll([a, n, b]) == [a] + (([n] + Below(n)) + [b])
  {
    hide *;
    BelowAtom(a);
    BelowAtom(b);
    assert [a, n, b] == [a] + ([n] + [b]);
    BelowCons(a, [n] + [b]);
    BelowCons(n, [b]);
  }

  lemma WalkQuad(a: Node, b: Node, n: Node, c: Node)
    requires a.children == [] && b.children == [] && c.children == []
    ensures BelowAll([a, b, n, c]) == [a] + ([b] + ([n] + (Below(n) + [c])))
  {
    hide *;
    BelowAtom(a);
    BelowAtom(b);
    BelowAtom(c);
    assert [a, b, n, c] == [a] + ([b] + ([n] + [c]));
    BelowCons(a, [b] + ([n] + [c]));
    BelowCons(b, [n] + [c]);
    BelowCons(n, [c]);
  }

  /** A stretch of the walk below a template, with the walk over the nested string inside. */
  lemma TemplateWalks(ts: seq<Node>, part: Node, inner: Node, depth: nat, first: nat, second: nat)
    requires depth < MAX_DEPTH && |ts| == 5 && (forall t :: t in ts ==> !t.IsInterpolation())
             && !inner.IsInterpolation()
    requires Walks([part], depth, first) && Walks(Below(inner), depth, second)
    ensures Walks([ts[0]] + ([ts[1]] + ([part] + ([ts[2]] + (([inner] + Below(inner)) + ([ts[3]] + [ts[4]]))))), depth,
              first + second + 6)
  {
    hide *;
    WalksOver(ts[0], depth);
    WalksOver(ts[1], depth);
    WalksOver(ts[2], depth);
    WalksOver(ts[3], depth);
    WalksOver(ts[4], depth);
    WalksOver(inner, depth);
    var e := [ts[3]] + [ts[4]];
    WalksOn([ts[3]], [ts[4]], depth, 1, 1);
    WalksOn([inner], Below(inner), depth, 1, second);
    WalksOn([inner] + Below(inner), e, depth, 1 + second, 2);
    var d := ([inner] + Below(inner)) + e;
    WalksOn([ts[2]], d, depth, 1, 3 + second);
    WalksOn([part], [ts[2]] + d, depth, first, 4 + second);
    WalksOn([ts[1]], [part] + ([ts[2]] + d), depth, 1, first + second + 4);
    WalksOn([ts[0]], [ts[1]] + ([part] + ([ts[2]] + d)), depth, 1, first + second + 5);
  }

  lemma NoInterpolation(n: Node)
    requires IsText(n.kind)
    ensures !n.IsInterpolation()
  {}

  lemma BelowString(s: string, at: nat) returns (a: Node, b: Node, c: Node)
    ensures Below(Str(s, at)) == [a] + ([b] + [c]) && IsText(Str(s, at).kind)
    ensures !a.IsInterpolation() && !b.IsInterpolation() && !c.IsInterpolation()
  {
    hide Utf8Length;
    hide Below;
    var n := Str(s, at);
    a, b, c := n.children[0], n.children[1], n.children[2];
    BelowIs(n);
    BelowAtom(b);
    WalkTriple(a, b, c);
  }

  lemma NestForm(k: nat, at: nat)
    ensures Nest(k, at) == if k == 0 then Str("`git branch -d x`", at) else Template(Nest(k - 1, at + 8), at)
  {
    hide Template;
    hide Str;
  }

  lemma {:induction false} NestCosts(k: nat, at: nat, depth: nat)
    requires depth + k < MAX_DEPTH
    ensures Walks(Below(Nest(k, at)), depth, NestPrice(k) - 1) && IsTextFor(Nest(k, at), depth, NestPrice(k))
    decreases k
  {
    hide *;
    NestForm(k, at);
    NestPriceDoubles(k);
    NestIsTower(k, at);
    if k == 0 {
      var a, b, c := BelowString("`git branch -d x`", at);
      WalksOver(a, depth);
      WalksOver(b, depth);
      WalksOver(c, depth);
      WalksOn([b], [c], depth, 1, 1);
      WalksOn([a], [b] + [c], depth, 1, 2);
    } else {
      var inner := Nest(k - 1, at + 8);
      NestIsTower(k - 1, at + 8);
      NoInterpolation(inner);
      NestCosts(k - 1, at + 8, depth);
      NestCosts(k - 1, at + 8, depth + 1);
      var ts, part := BelowTemplate(inner, at);
      OperandOf(part, inner);
      WalksInto(part, inner, depth, NestPrice(k - 1));
      TemplateWalks(ts, part, inner, depth, NestPrice(k - 1) + 1, NestPrice(k - 1) - 1);
    }
    StringIsText(Nest(k, at), depth, NestPrice(k) - 1);
  }

  lemma ProgramCases(root: Node, statement: Node, s: State)
    requires root.kind == Program && Significant(root.children) == [statement]
    ensures CheckExpression(root, JavaScript, 0, s).Some? <==>
              s.steps > 0 && CheckExpression(statement, JavaScript, 1, s.(steps := s.steps - 1)).Some?
  {
    hide Significant;
    hide CheckExpression;
    if s.steps > 0 {
      assert [statement][1..] == [];
      SequenceCases(root, s);
    } else {
      if CheckExpression(root, JavaScript, 0, s).Some? { NotTooDeep(root, JavaScript, 0, s); }
    }
  }

  lemma SequenceCases(root: Node, s: State)
    requires root.kind == Program && s.steps > 0
    ensures CheckExpression(root, JavaScript, 0, s).Some? <==>
              CheckSequence(Significant(root.children), JavaScript, 1, s.(steps := s.steps - 1), false).Some?
  {
    hide Significant;
    hide CheckSequence;
  }

  lemma StatementCases(statement: Node, n: Node, s: State)
    requires statement.kind == ExpressionStatement && Significant(statement.children) == [n] && s.steps > 0
    ensures CheckExpression(statement, JavaScript, 1, s) == CheckExpression(n, JavaScript, 2, s.(steps := s.steps - 1))
  {
    hide Significant;
  }

  /** A program of one statement pays for the two nodes around its expression. */
  lemma OneStatementPays(root: Node, statement: Node, n: Node, s: State)
    requires root.kind == Program && Significant(root.children) == [statement] && s.steps >= 2
    requires statement.kind == ExpressionStatement && Significant(statement.children) == [n]
    ensures CheckExpression(root, JavaScript, 0, s).Some? <==>
              CheckExpression(n, JavaScript, 2, s.(steps := s.steps - 2)).Some?
  {
    hide *;
    var s1 := s.(steps := s.steps - 1);
    ProgramCases(root, statement, s);
    StatementCases(statement, n, s1);
    assert s1.(steps := s1.steps - 1) == s.(steps := s.steps - 2);
  }

  lemma Limits()
    ensures MAX_DEPTH == 64 && MAX_STEPS == 16384
  {}

  lemma NestProgramForm(k: nat) returns (statement: Node)
    requires Nest(k, 0).named && IsText(Nest(k, 0).kind)
    ensures NestProgram(k).kind == Program && Significant(NestProgram(k).children) == [statement]
    ensures statement.kind == ExpressionStatement && Significant(statement.children) == [Nest(k, 0)]
  {
    hide Nest;
    hide Significant;
    statement := NestProgram(k).children[0];
    Alone(statement);
    Alone(Nest(k, 0));
  }

  lemma NestPrices()
    ensures NestPrice(10) == 11257 && NestPrice(11) == 22521
  {
    Pow2Of13();
    assert Pow2(13) == 2 * Pow2(12) && Pow2(12) == 2 * Pow2(11) && Pow2(11) == 2 * Pow2(10);
  }

  /** Templates around a string are documentation up to ten deep, and never deeper. */
  lemma NestedTemplatesAccepted(k: nat)
    ensures CheckExpression(NestProgram(k), JavaScript, 0, State(map[], [], MAX_STEPS)).Some? <==> k <= 10
  {
    hide *;
    Limits();
    var s := State(map[], [], MAX_STEPS);
    if k >= 13 {
      NestRefused(k);
    } else {
      NestIsTower(k, 0);
      var statement := NestProgramForm(k);
      NestCosts(k, 0, 2);
      OneStatementPays(NestProgram(k), statement, Nest(k, 0), s);
      TextCases(Nest(k, 0), 2, NestPrice(k), s.(steps := s.steps - 2));
      NestPrices();
      if k <= 10 { NestPriceGrows(k, 10); } else { NestPriceGrows(11, k); }
    }
  }

  lemma TextCases(n: Node, depth: nat, cost: nat, s: State)
    requires depth <= MAX_DEPTH && IsTextFor(n, depth, cost)
    ensures CheckExpression(n, JavaScript, depth, s).Some? <==> s.steps >= cost
  {
    hide CheckExpression;
  }

  lemma NestPriceGrows(i: nat, j: nat)
    requires i <= j
    ensures NestPrice(i) <= NestPrice(j)
  {
    Pow2Grows(i, j);
  }
}

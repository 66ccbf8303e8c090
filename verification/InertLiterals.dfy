/** The ranges that the documentation proof vouches for (src/ast_matcher.rs): those of the strings it
    has looked at that could be taken for shell text. */
module InertLiterals {
  import B = InertBudget
  import opened InertProof
  import opened Syntax
  import opened Wrappers

  /** A check of `n` goes on to `c`: to an operand, an argument or the like, and from a string to the
      expressions that are interpolated anywhere below it. */
  ghost predicate GoesOn(n: Node, c: Node) {
    && |Below(c)| < |Below(n)|
    && if IsText(n.kind) then exists part :: part in Below(n) && part.IsInterpolation() && Operand(part) == Some(c)
       else B.Visits(n, c)
  }

  /** From `n` the check comes to `d`. */
  ghost predicate Reaches(n: Node, d: Node)
    decreases |Below(n)|
  {
    n == d || exists c :: GoesOn(n, c) && Reaches(c, d)
  }

  /** A string whose source text could be taken for a shell's substitution. */
  predicate LooksLikeShell(d: Node) {
    IsText(d.kind) && Substitutes(d.text)
  }

  /** `r` is the range of such a string that the check of `n` comes to. */
  ghost predicate Vouched(n: Node, r: (nat, nat)) {
    exists d :: Reaches(n, d) && LooksLikeShell(d) && r == (d.start, d.end)
  }

  ghost predicate VouchedAny(ns: seq<Node>, r: (nat, nat)) {
    exists c :: c in ns && Vouched(c, r)
  }

  ghost predicate VouchedParts(ns: seq<Node>, r: (nat, nat)) {
    exists p :: p in ns && p.IsInterpolation() && Operand(p).Some? && Vouched(Operand(p).value, r)
  }

  ghost predicate VouchedArguments(args: seq<Node>, r: (nat, nat)) {
    exists a :: a in args && ArgumentValue(a).Some? && Vouched(ArgumentValue(a).value, r)
  }

  /** The check of `n` adds these ranges to the ones before, and no others. */
  ghost predicate Adds(n: Node, before: State, after: State) {
    forall r :: r in after.literals <==> r in before.literals || Vouched(n, r)
  }

  /** What a node vouches for: its own range, and what it goes on to. */
  lemma VouchedCases(n: Node, r: (nat, nat))
    ensures Vouched(n, r) <==>
              (LooksLikeShell(n) && r == (n.start, n.end)) || exists c :: GoesOn(n, c) && Vouched(c, r)
  {
    hide GoesOn;
    hide LooksLikeShell;
    if d :| Reaches(n, d) && LooksLikeShell(d) && r == (d.start, d.end) {
      if d != n {
        var c :| GoesOn(n, c) && Reaches(c, d);
        assert Vouched(c, r);
      }
    }
    if c :| GoesOn(n, c) && Vouched(c, r) {
      var d :| Reaches(c, d) && LooksLikeShell(d) && r == (d.start, d.end);
      assert Reaches(n, d);
    }
    assert Reaches(n, n);
  }

  lemma VisitGoesOn(n: Node, c: Node)
    requires !IsText(n.kind)
    ensures GoesOn(n, c) <==> B.Visits(n, c)
  {
    if B.Visits(n, c) { B.VisitsBelow(n, c); }
  }

  lemma VisitsVouch(n: Node, r: (nat, nat))
    requires !IsText(n.kind)
    ensures Vouched(n, r) <==> exists c :: B.Visits(n, c) && Vouched(c, r)
  {
    hide *;
    VouchedCases(n, r);
    NoText(n);
    forall c ensures GoesOn(n, c) <==> B.Visits(n, c) { VisitGoesOn(n, c); }
  }

  lemma NoText(n: Node)
    ensures LooksLikeShell(n) ==> IsText(n.kind)
  {}

  lemma LeafVouches(n: Node, r: (nat, nat))
    requires n.kind == Identifier || n.kind == ScalarLiteral
    ensures !Vouched(n, r)
  {
    VisitsVouch(n, r);
    hide Vouched;
  }

  lemma PartGoesOn(n: Node, part: Node)
    requires IsText(n.kind) && part in Below(n) && part.IsInterpolation() && Operand(part).Some?
    ensures GoesOn(n, Operand(part).value)
  {
    hide Below;
    B.BelowStep(n, part, Operand(part).value);
  }

  lemma TextVouches(n: Node, r: (nat, nat))
    requires IsText(n.kind)
    ensures Vouched(n, r) <==> (ContainsMarker(n.text) && r == (n.start, n.end)) || VouchedParts(Below(n), r)
  {
    VouchedCases(n, r);
    MarkerExact(n.text);
    assert LooksLikeShell(n) <==> ContainsMarker(n.text);
    hide Substitutes;
    hide Vouched;
    hide LooksLikeShell;
    hide ContainsMarker;
    hide Below;
    hide Operand;
    if c :| GoesOn(n, c) && Vouched(c, r) {
      var part :| part in Below(n) && part.IsInterpolation() && Operand(part) == Some(c);
      assert VouchedParts(Below(n), r);
    }
    if VouchedParts(Below(n), r) {
      var p :| p in Below(n) && p.IsInterpolation() && Operand(p).Some? && Vouched(Operand(p).value, r);
      PartGoesOn(n, p);
    }
  }

  lemma CheckedString(n: Node, lang: Language, depth: nat, s: State)
    requires depth < MAX_DEPTH && CheckString(n, lang, depth, s).Some?
    ensures var r := CheckParts(Below(n), lang, depth, s);
            && r.Some?
            && CheckString(n, lang, depth, s).value.state.literals
               == r.value.literals + if ContainsMarker(n.text) then [(n.start, n.end)] else []
  {
    hide CheckParts;
    hide ContainsMarker;
    hide Below;
  }

  lemma {:induction false} StringAdds(n: Node, lang: Language, depth: nat, s: State)
    requires depth < MAX_DEPTH && IsText(n.kind) && CheckString(n, lang, depth, s).Some?
    ensures Adds(n, s, CheckString(n, lang, depth, s).value.state)
    decreases MAX_DEPTH - depth, 0, |Below(n)| + 1
  {
    hide CheckString;
    hide CheckParts;
    hide ContainsMarker;
    hide Vouched;
    hide VouchedParts;
    hide Below;
    CheckedString(n, lang, depth, s);
    PartsAdd(Below(n), lang, depth, s);
    forall r ensures Vouched(n, r) <==> (ContainsMarker(n.text) && r == (n.start, n.end)) || VouchedParts(Below(n), r) {
      TextVouches(n, r);
    }
  }

  lemma PartsCons(ns: seq<Node>, r: (nat, nat))
    requires ns != []
    ensures VouchedParts(ns, r) <==>
              || (ns[0].IsInterpolation() && Operand(ns[0]).Some? && Vouched(Operand(ns[0]).value, r))
              || VouchedParts(ns[1..], r)
  {
    hide Vouched;
    hide Operand;
    if p :| p in ns && p.IsInterpolation() && Operand(p).Some? && Vouched(Operand(p).value, r) {
      assert p == ns[0] || p in ns[1..];
    }
  }

  lemma {:induction false} PartsAdd(ns: seq<Node>, lang: Language, depth: nat, s: State)
    requires depth < MAX_DEPTH && CheckParts(ns, lang, depth, s).Some?
    ensures forall r :: r in CheckParts(ns, lang, depth, s).value.literals <==> r in s.literals || VouchedParts(ns, r)
    decreases MAX_DEPTH - depth, 0, |ns|
  {
    hide CheckExpression;
    hide CheckParts;
    hide Operand;
    hide Vouched;
    if ns == [] {
      NoParts(lang, depth);
    } else {
      CheckPartsNext(ns, lang, depth, s);
      forall r ensures VouchedParts(ns, r) <==>
          || (ns[0].IsInterpolation() && Operand(ns[0]).Some? && Vouched(Operand(ns[0]).value, r))
          || VouchedParts(ns[1..], r)
      {
        PartsCons(ns, r);
      }
      hide VouchedParts;
      var s1 := s.(steps := s.steps - 1);
      if ns[0].IsInterpolation() {
        var e := Operand(ns[0]).value;
        ExpressionAdds(e, lang, depth + 1, s1);
        PartsAdd(ns[1..], lang, depth, CheckExpression(e, lang, depth + 1, s1).value.state);
      } else {
        PartsAdd(ns[1..], lang, depth, s1);
      }
    }
  }

  lemma {:induction false} SequenceAdds(ns: seq<Node>, lang: Language, depth: nat, s: State, texts: bool)
    requires depth <= MAX_DEPTH && CheckSequence(ns, lang, depth, s, texts).Some?
    ensures forall r :: r in CheckSequence(ns, lang, depth, s, texts).value.literals <==>
              r in s.literals || VouchedAny(ns, r)
    decreases MAX_DEPTH - depth, 2, |ns|
  {
    hide CheckExpression;
    hide Vouched;
    if ns != [] {
      ExpressionAdds(ns[0], lang, depth, s);
      SequenceAdds(ns[1..], lang, depth, CheckExpression(ns[0], lang, depth, s).value.state, texts);
      assert forall c :: c in ns <==> c == ns[0] || c in ns[1..];
    }
  }

  lemma {:induction false} ArgumentsAdd(args: seq<Node>, lang: Language, depth: nat, s: State)
    requires depth <= MAX_DEPTH && CheckArguments(args, lang, depth, s).Some?
    ensures forall r :: r in CheckArguments(args, lang, depth, s).value.literals <==>
              r in s.literals || VouchedArguments(args, r)
    decreases MAX_DEPTH - depth, 2, |args|
  {
    hide CheckExpression;
    hide ArgumentValue;
    hide Vouched;
    if args != [] {
      var e := ArgumentValue(args[0]).value;
      ExpressionAdds(e, lang, depth, s);
      ArgumentsAdd(args[1..], lang, depth, CheckExpression(e, lang, depth, s).value.state);
      assert forall a :: a in args <==> a == args[0] || a in args[1..];
    }
  }

  lemma {:induction false} BindingAdds(n: Node, lang: Language, depth: nat, s: State)
    requires depth < MAX_DEPTH && (n.kind == Assignment || n.kind == VariableDeclarator)
    requires CheckBinding(n, lang, depth, s).Some?
    ensures Adds(n, s, CheckBinding(n, lang, depth, s).value.state)
    decreases MAX_DEPTH - depth, 0, 0
  {
    hide CheckExpression;
    hide Vouched;
    var right := n.GetEither(RightField, ValueField).value;
    ExpressionAdds(right, lang, depth + 1, s);
    forall r ensures Vouched(n, r) <==> Vouched(right, r) { VisitsVouch(n, r); }
  }

  lemma {:induction false} BinaryAdds(n: Node, lang: Language, depth: nat, s: State)
    requires depth < MAX_DEPTH && (n.kind == BinaryOperator || n.kind == BinaryExpression)
    requires CheckBinary(n, lang, depth, s).Some?
    ensures Adds(n, s, CheckBinary(n, lang, depth, s).value.state)
    decreases MAX_DEPTH - depth, 0, 0
  {
    hide CheckExpression;
    hide Vouched;
    hide Operation;
    var left, right := n.Get(LeftField).value, n.Get(RightField).value;
    ExpressionAdds(left, lang, depth + 1, s);
    ExpressionAdds(right, lang, depth + 1, CheckExpression(left, lang, depth + 1, s).value.state);
    forall r ensures Vouched(n, r) <==> Vouched(left, r) || Vouched(right, r) { BinaryVouches(n, left, right, r); }
  }

  lemma BinaryVouches(n: Node, left: Node, right: Node, r: (nat, nat))
    requires n.kind == BinaryOperator || n.kind == BinaryExpression
    requires n.Get(LeftField) == Some(left) && n.Get(RightField) == Some(right)
    ensures Vouched(n, r) <==> Vouched(left, r) || Vouched(right, r)
  {
    hide *;
    BinaryVisits(n, left, right);
    VisitsVouch(n, r);
  }

  lemma BinaryVisits(n: Node, left: Node, right: Node)
    requires n.kind == BinaryOperator || n.kind == BinaryExpression
    requires n.Get(LeftField) == Some(left) && n.Get(RightField) == Some(right)
    ensures !IsText(n.kind) && forall c :: B.Visits(n, c) <==> c == left || c == right
  {
    hide Node.Get;
  }

  /** The receiver, when it is looked at. */
  ghost predicate VouchedReceiver(n: Node, r: (nat, nat)) {
    exists c :: B.IsReceiver(n, c) && Vouched(c, r)
  }

  lemma NotText(n: Node)
    requires n.IsCall()
    ensures !IsText(n.kind)
  {}

  lemma CallVisits(n: Node, c: Node)
    requires n.IsCall()
    ensures B.Visits(n, c) <==> B.IsArgument(n, c) || B.IsReceiver(n, c)
  {
    hide B.IsArgument;
    hide B.IsReceiver;
  }

  lemma ReceiverVouches(n: Node, r: (nat, nat))
    ensures VouchedReceiver(n, r) <==> exists c :: B.IsReceiver(n, c) && Vouched(c, r)
  {
    hide Vouched;
    hide B.IsReceiver;
  }

  lemma ArgumentVouches(n: Node, r: (nat, nat))
    requires n.Get(ArgumentsField).Some?
    ensures VouchedArguments(Significant(n.Get(ArgumentsField).value.children), r) <==>
              exists c :: B.IsArgument(n, c) && Vouched(c, r)
  {
    hide Vouched;
    hide Significant;
    hide ArgumentValue;
    var args := Significant(n.Get(ArgumentsField).value.children);
    if VouchedArguments(args, r) {
      var a :| a in args && ArgumentValue(a).Some? && Vouched(ArgumentValue(a).value, r);
      assert B.IsArgument(n, ArgumentValue(a).value);
    }
  }

  lemma CallVouches(n: Node, r: (nat, nat))
    requires n.IsCall() && n.Get(ArgumentsField).Some?
    ensures Vouched(n, r) <==>
              VouchedArguments(Significant(n.Get(ArgumentsField).value.children), r) || VouchedReceiver(n, r)
  {
    NotText(n);
    hide *;
    VisitsVouch(n, r);
    ArgumentVouches(n, r);
    ReceiverVouches(n, r);
    forall c ensures B.Visits(n, c) <==> B.IsArgument(n, c) || B.IsReceiver(n, c) { CallVisits(n, c); }
  }

  lemma {:induction false} CalleeAdds(n: Node, f: Node, args: seq<Node>, lang: Language, depth: nat, s: State)
    requires depth < MAX_DEPTH && n.Get(FunctionField) == Some(f) && CheckCallee(f, args, lang, depth, s).Some?
    ensures forall r :: r in CheckCallee(f, args, lang, depth, s).value.state.literals <==>
              r in s.literals || VouchedReceiver(n, r)
    decreases MAX_DEPTH - depth, 0, 0
  {
    hide CheckExpression;
    hide NamedCall;
    hide MethodCall;
    hide IsConsoleMethod;
    hide Vouched;
    if f.kind != Identifier {
      var o := f.Get(ObjectField).value;
      forall r ensures VouchedReceiver(n, r) <==> Vouched(o, r) {
        if o.kind == Identifier { LeafVouches(o, r); } else { assert B.IsReceiver(n, o); }
      }
      if CheckExpression(o, lang, depth + 1, s).Some? {
        ExpressionAdds(o, lang, depth + 1, s);
      } else {
        forall r ensures !Vouched(o, r) { LeafVouches(o, r); }
      }
    }
  }

  lemma {:induction false} CallAdds(n: Node, lang: Language, depth: nat, s: State)
    requires depth <= MAX_DEPTH && n.IsCall() && CheckCall(n, lang, depth, s).Some?
    ensures Adds(n, s, CheckCall(n, lang, depth, s).value.state)
    decreases MAX_DEPTH - depth, 1, 0
  {
    hide CheckArguments;
    hide CheckCallee;
    hide Significant;
    hide Vouched;
    hide VouchedArguments;
    hide VouchedReceiver;
    var f, args := n.Get(FunctionField).value, Significant(n.Get(ArgumentsField).value.children);
    var s1 := s.(steps := s.steps - 1);
    ArgumentsAdd(args, lang, depth + 1, s1);
    CalleeAdds(n, f, args, lang, depth, CheckArguments(args, lang, depth + 1, s1).value);
    forall r ensures Vouched(n, r) <==> VouchedArguments(args, r) || VouchedReceiver(n, r) { CallVouches(n, r); }
  }

  lemma SequenceVouches(n: Node, r: (nat, nat))
    requires B.IsSequence(n.kind)
    ensures Vouched(n, r) <==> VouchedAny(Significant(n.children), r)
  {
    VisitsVouch(n, r);
    hide Vouched;
    hide Significant;
  }

  lemma OnlyVouches(n: Node, c: Node, r: (nat, nat))
    requires n.kind == ExpressionStatement || n.kind == Parenthesized
    requires Significant(n.children) == [c]
    ensures Vouched(n, r) <==> Vouched(c, r)
  {
    hide *;
    OnlyVisits(n, c);
    VisitsVouch(n, r);
  }

  lemma OnlyVisits(n: Node, c: Node)
    requires n.kind == ExpressionStatement || n.kind == Parenthesized
    requires Significant(n.children) == [c]
    ensures !IsText(n.kind) && forall d :: B.Visits(n, d) <==> d == c
  {
    hide Significant;
    forall d | B.Visits(n, d) ensures d == c { assert [d][0] == [c][0]; }
  }

  /** An accepted check adds the ranges of exactly the shell-looking strings that it comes to. */
  lemma {:induction false} ExpressionAdds(n: Node, lang: Language, depth: nat, s: State)
    requires depth <= MAX_DEPTH && CheckExpression(n, lang, depth, s).Some?
    ensures Adds(n, s, CheckExpression(n, lang, depth, s).value.state)
    decreases MAX_DEPTH - depth, 1, 0
  {
    hide CheckSequence;
    hide CheckBinding;
    hide CheckBinary;
    hide CheckString;
    hide CheckCall;
    hide Significant;
    hide Vouched;
    var s1, named := s.(steps := s.steps - 1), Significant(n.children);
    match n.kind
    case Module | Program | LexicalDeclaration | VariableDeclaration | ConcatenatedString =>
      SequenceAdds(named, lang, depth + 1, s1, n.kind == ConcatenatedString);
      forall r ensures Vouched(n, r) <==> VouchedAny(named, r) { SequenceVouches(n, r); }
    case ExpressionStatement | Parenthesized =>
      ExpressionAdds(named[0], lang, depth + 1, s1);
      forall r ensures Vouched(n, r) <==> Vouched(named[0], r) { OnlyVouches(n, named[0], r); }
    case Assignment | VariableDeclarator => BindingAdds(n, lang, depth, s1);
    case StringLiteral | TemplateString => StringAdds(n, lang, depth, s1);
    case BinaryOperator | BinaryExpression => BinaryAdds(n, lang, depth, s1);
    case Call | CallExpression => CallAdds(n, lang, depth + 1, s1);
    case Identifier | ScalarLiteral => forall r ensures !Vouched(n, r) { LeafVouches(n, r); }
    case _ =>
  }

  /** `documentation_literal_ranges`: an accepted program's ranges are those of the shell-looking strings
      that it evaluates, and each of them is in the tree. */
  lemma KeptRanges(root: Node, lang: Language, r: (nat, nat))
    requires CheckExpression(root, lang, 0, State(map[], [], MAX_STEPS)).Some?
    ensures r in CheckExpression(root, lang, 0, State(map[], [], MAX_STEPS)).value.state.literals <==> Vouched(root, r)
    ensures Vouched(root, r) ==>
              exists d :: (d == root || d in Below(root)) && LooksLikeShell(d) && r == (d.start, d.end)
  {
    ExpressionAdds(root, lang, 0, State(map[], [], MAX_STEPS));
    hide CheckExpression;
    hide LooksLikeShell;
    if d :| Reaches(root, d) && LooksLikeShell(d) && r == (d.start, d.end) {
      ReachesBelow(root, d);
    }
  }

  lemma GoesOnBelow(n: Node, c: Node)
    requires GoesOn(n, c)
    ensures c in Below(n)
  {
    hide Below;
    if IsText(n.kind) {
      var part :| part in Below(n) && part.IsInterpolation() && Operand(part) == Some(c);
      B.BelowStep(n, part, c);
    } else {
      B.VisitsBelow(n, c);
    }
  }

  lemma {:induction false} ReachesBelow(n: Node, d: Node)
    requires Reaches(n, d)
    ensures d == n || d in Below(n)
    decreases |Below(n)|
  {
    if d != n {
      var c :| GoesOn(n, c) && Reaches(c, d);
      ReachesBelow(c, d);
      GoesOnBelow(n, c);
      hide *;
      B.BelowIs(n);
      var pre, post := B.Segment(n.children, c);
      assert c == d || d in [c] + Below(c);
    }
  }
}

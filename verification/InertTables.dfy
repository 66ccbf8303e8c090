/** The tables of the documentation proof are those of the runtime: what it lets through is exactly
    what is safe there, with exactly that kind of result. */
module InertTables {
  import opened InertProof
  import opened InertRun
  import opened InertSoundness
  import opened Spelling
  import opened Syntax
  import opened Wrappers

  import N = InertNames

  /** The world answers everything, so that nothing raises by itself. */
  ghost predicate Answers(w: World) {
    forall t, e :: w.answer(t, e).Some?
  }

  /** From `m`, `r` did one thing, a safe one, and returned a value of kind `k`. */
  predicate Performs(r: Run, m: Machine, k: Abstract) {
    && r.outcome.Returned? && r.machine.env == m.env
    && |r.machine.trace| == |m.trace| + 1 && m.trace <= r.machine.trace
    && var e := r.machine.trace[|m.trace|];
       && Safe(e) && (e.FileMethod? ==> Opened(e.handle, m.trace))
       && HasKind(r.outcome.value, k, r.machine.trace)
  }

  lemma PerformPerforms(e: Effect, result: string -> Value, w: World, m: Machine, k: Abstract)
    requires Answers(w) && Safe(e) && (e.FileMethod? ==> Opened(e.handle, m.trace))
    requires forall a :: HasKind(result(a), k, m.trace + [e])
    ensures Performs(Perform(e, result, w, m), m, k)
  {
    hide Safe;
    hide HasKind;
  }

  lemma UnrulyPerformsNothing(n: Node, w: World, m: Machine, k: Abstract)
    ensures !Performs(Unruly(n, w, m), m, k)
  {}

  const NOTHING: Node := Node(Comment, [], 0, 0, false, [], map[])

  lemma EasyWorld() returns (w: World)
    ensures Answers(w) && Proper(w)
  {
    w := N.Willing(x => x, {});
    N.WillingIsProper(x => x, {});
  }

  /** A value of each kind. */
  lemma Sample(k: Abstract) returns (v: Value, m: Machine)
    ensures HasKind(v, k, m.trace) && m == Machine(map[], [Open([])])
  {
    m := Machine(map[], [Open([])]);
    v := match k case Text => TextV([]) case Scalar => ScalarV([]) case File => FileV(0) case NodeFs => ModuleV("fs");
  }

  // ---------------------------------------------------------------- operands

  /** What an interpolation evaluates: the child that the grammar marks as its expression; without such
      a mark the first named child that is no comment, conversion or format. */
  ghost predicate Evaluates(part: Node, i: int) {
    && 0 <= i < |part.children|
    && if ExpressionField in part.fields && part.fields[ExpressionField] < |part.children| then
         i == part.fields[ExpressionField]
       else
         && IsOperand(part.children[i])
         && forall j :: 0 <= j < i ==> !IsOperand(part.children[j])
  }

  predicate IsOperand(n: Node) {
    n.named && n.kind !in {Comment, TypeConversion, FormatSpecifier}
  }

  lemma {:induction false} FirstOperandIs(ns: seq<Node>)
    ensures var i := FirstOperand(ns);
            (i < |ns| ==> IsOperand(ns[i])) && forall j :: 0 <= j < i ==> !IsOperand(ns[j])
  {
    if ns != [] && !IsOperand(ns[0]) { FirstOperandIs(ns[1..]); }
  }

  /** The expression that the proof looks at is the one that runs. */
  lemma OperandsExact(part: Node, e: Node)
    ensures Operand(part) == Some(e) <==> exists i :: Evaluates(part, i) && part.children[i] == e
  {
    FirstOperandIs(part.children);
    hide FirstOperand;
    hide IsOperand;
    var i := OperandIndex(part);
    if i < |part.children| { assert Evaluates(part, i); }
    forall j | Evaluates(part, j) ensures i == j {}
  }

  /** An argument passes itself, a keyword argument what stands behind its name. */
  predicate Passes(arg: Node, v: Node) {
    if arg.kind == KeywordArgument then arg.Get(ValueField) == Some(v) else v == arg
  }

  lemma ArgumentsExact(arg: Node, v: Node)
    ensures ArgumentValue(arg) == Some(v) <==> Passes(arg, v)
  {}

  // ----------------------------------------------------------------- methods

  lemma MethodSets(member: string)
    ensures IsTextMethod(member) <==> member in TEXT_METHODS
    ensures IsFileWrite(member) <==> member in FILE_WRITES
    ensures IsFsWrite(member) <==> member in FILE_SYSTEM_WRITES
    ensures IsConsoleMethod(member) <==> member in CONSOLE_METHODS
    ensures "read" !in FILE_WRITES && "readFileSync" !in FILE_SYSTEM_WRITES
  {}

  /** A call of a method on a value of some kind, with plain arguments: it goes as the table says. */
  lemma MethodGoes(k: Abstract, member: string, n: Node, v: Value, args: seq<Arg>, w: World, m: Machine)
    requires Answers(w) && HasKind(v, k, m.trace) && PlainArgs(args)
    ensures var r := CallMethod(n, v, member, args, w, m);
            if MethodCall(k, member).Some? then Performs(r, m, MethodCall(k, member).value) else r == Unruly(n, w, m)
  {
    MethodSets(member);
    hide IsTextMethod;
    hide IsFileWrite;
    hide IsFsWrite;
    hide Performs;
    hide Perform;
    match v
    case TextV(t) =>
      if member in TEXT_METHODS { PerformPerforms(TextMethod(member, t, args), a => TextV(a), w, m, Text); }
    case FileV(h) =>
      if member == "read" {
        PerformPerforms(FileMethod(member, h, args), a => TextV(a), w, m, Text);
      } else if member in FILE_WRITES {
        PerformPerforms(FileMethod(member, h, args), a => ScalarV(a), w, m, Scalar);
      }
    case ModuleV(name) =>
      if member == "readFileSync" {
        PerformPerforms(ModuleMethod(member, name, args), a => TextV(a), w, m, Text);
      } else if member in FILE_SYSTEM_WRITES {
        PerformPerforms(ModuleMethod(member, name, args), a => ScalarV(a), w, m, Scalar);
      }
    case ScalarV(_) =>
  }

  /** A method is let through, with a kind, if and only if on every value of the receiver's kind and
      with all plain arguments it does one safe thing and returns a value of that kind. */
  lemma MethodsExact(k: Abstract, member: string, result: Abstract)
    ensures MethodCall(k, member) == Some(result) <==>
              forall n, v, args, w, m: Machine :: Answers(w) && HasKind(v, k, m.trace) && PlainArgs(args) ==>
                Performs(CallMethod(n, v, member, args, w, m), m, result)
  {
    hide MethodCall;
    hide CallMethod;
    hide Performs;
    forall n, v, args, w, m: Machine | Answers(w) && HasKind(v, k, m.trace) && PlainArgs(args)
      ensures MethodCall(k, member) == Some(result) ==> Performs(CallMethod(n, v, member, args, w, m), m, result)
    {
      MethodGoes(k, member, n, v, args, w, m);
    }
    var w := EasyWorld();
    var v, m := Sample(k);
    var r := CallMethod(NOTHING, v, member, [], w, m);
    MethodGoes(k, member, NOTHING, v, [], w, m);
    if Performs(r, m, result) {
      UnrulyPerformsNothing(NOTHING, w, m, result);
      PerformsOnce(r, m, result, if MethodCall(k, member).Some? then MethodCall(k, member).value else result);
    }
  }

  lemma PerformsOnce(r: Run, m: Machine, k: Abstract, k': Abstract)
    requires Performs(r, m, k) && Performs(r, m, k')
    ensures k == k'
  {
    hide Safe;
  }

  // -------------------------------------------------------------- operations

  lemma OperationGoes(a: Abstract, op: string, b: Abstract, n: Node, u: Value, v: Value, w: World, m: Machine)
    requires Answers(w) && HasKind(u, a, m.trace) && HasKind(v, b, m.trace)
    ensures var r := Operate(op, u, v, n, w, m);
            if Operation(a, op, b).Some? then Performs(r, m, Operation(a, op, b).value) else r == Unruly(n, w, m)
  {
    hide Performs;
    hide Perform;
    assert IsArithmetic(op) <==> op in ARITHMETIC;
    if u.TextV? && v.TextV? && op == "+" {
      PerformPerforms(Arithmetic(op, u, v), s => TextV(s), w, m, Text);
    } else if u.ScalarV? && v.ScalarV? && op in ARITHMETIC {
      PerformPerforms(Arithmetic(op, u, v), s => ScalarV(s), w, m, Scalar);
    }
  }

  /** The same for binary operators. */
  lemma OperationsExact(a: Abstract, op: string, b: Abstract, result: Abstract)
    ensures Operation(a, op, b) == Some(result) <==>
              forall n, u, v, w, m: Machine :: Answers(w) && HasKind(u, a, m.trace) && HasKind(v, b, m.trace) ==>
                Performs(Operate(op, u, v, n, w, m), m, result)
  {
    hide Operation;
    hide Operate;
    hide Performs;
    forall n, u, v, w, m: Machine | Answers(w) && HasKind(u, a, m.trace) && HasKind(v, b, m.trace)
      ensures Operation(a, op, b) == Some(result) ==> Performs(Operate(op, u, v, n, w, m), m, result)
    {
      OperationGoes(a, op, b, n, u, v, w, m);
    }
    var w := EasyWorld();
    var u, m := Sample(a);
    var v, m' := Sample(b);
    SameSample(v, b, m', m);
    var r := Operate(op, u, v, NOTHING, w, m);
    OperationGoes(a, op, b, NOTHING, u, v, w, m);
    if Performs(r, m, result) {
      UnrulyPerformsNothing(NOTHING, w, m, result);
      PerformsOnce(r, m, result, if Operation(a, op, b).Some? then Operation(a, op, b).value else result);
    }
  }

  lemma SameSample(v: Value, k: Abstract, m: Machine, m': Machine)
    requires HasKind(v, k, m.trace) && m'.trace == m.trace
    ensures HasKind(v, k, m'.trace)
  {}

  // ------------------------------------------------------------- named calls

  /** A literal without escapes, in either quotes. */
  predicate PlainlyQuoted(t: string) {
    && |t| >= 2 && (t[0] == '\'' || t[0] == '"') && t[|t| - 1] == t[0]
    && forall k :: 1 <= k < |t| - 1 ==> t[k] != '\\' && t[k] != '\r'
  }

  lemma ProperReads(t: string, s: string, w: World)
    requires Proper(w) && Spells(t, s, JavaScript)
    ensures w.text(t) == s
  {
    hide Spells;
  }

  lemma QuotedParts(t: string)
    requires PlainlyQuoted(t)
    ensures var s := t[1..|t| - 1];
            && t == [t[0]] + (s + [t[0]]) && (t[0] == '\'' || t[0] == '"')
            && forall k :: 0 <= k < |s| ==> s[k] != '\\' && s[k] != '\r'
  {}

  lemma PlainlyQuotedMeans(t: string, w: World)
    requires PlainlyQuoted(t) && Proper(w)
    ensures |t| >= 2 && w.text(t) == t[1..|t| - 1]
  {
    assert |t| >= 2;
    QuotedParts(t);
    hide *;
    PlainSpelling(t[0], t[1..|t| - 1]);
    ProperReads(t, t[1..|t| - 1], w);
  }

  /** The quoted forms of the module's names. */
  lemma QuotedNames(q: char, name: string)
    requires (q == '\'' || q == '"') && (name == "fs" || name == "node:fs")
    ensures IsFsSpelling([q] + (name + [q]))
  {
    assert ['\''] + ("fs" + ['\'']) == "'fs'" && ['"'] + ("fs" + ['"']) == "\"fs\"";
    assert ['\''] + ("node:fs" + ['\'']) == "'node:fs'" && ['"'] + ("node:fs" + ['"']) == "\"node:fs\"";
  }

  lemma FourSpellings()
    ensures PlainlyQuoted("'fs'") && PlainlyQuoted("\"fs\"") && PlainlyQuoted("'node:fs'")
            && PlainlyQuoted("\"node:fs\"")
  {}

  lemma SpellingIsPlain(t: string)
    requires IsFsSpelling(t)
    ensures PlainlyQuoted(t)
  {
    FourSpellings();
    hide PlainlyQuoted;
  }

  /** Of the literals without escapes, the four spellings are those that name the module. */
  lemma SpellingsExact(t: string, w: World)
    requires Proper(w)
    ensures IsFsSpelling(t) ==> w.text(t) in FILE_SYSTEM && PlainlyQuoted(t)
    ensures PlainlyQuoted(t) && w.text(t) in FILE_SYSTEM ==> IsFsSpelling(t)
  {
    hide IsFsSpelling;
    hide PlainlyQuoted;
    hide Proper;
    if IsFsSpelling(t) {
      FileSystemTable(t, w);
      SpellingIsPlain(t);
    }
    if PlainlyQuoted(t) && w.text(t) in FILE_SYSTEM {
      QuotedParts(t);
      PlainlyQuotedMeans(t, w);
      QuotedNames(t[0], t[1..|t| - 1]);
    }
  }

  /** The options of `open` that are let through are the safe ones. */
  lemma OpensExact(args: seq<Node>)
    ensures PlainOpen(args) <==> args != [] && OpensPlainly(args)
  {
    PositionsCount(args);
    hide Positional;
    hide Positions;
    hide NamesCodec;
    if PlainOpen(args) { OpenTable(args); }
    if args != [] && OpensPlainly(args) {
      forall k | 0 <= k < |args| ensures PlainOption(args[k]) { CodecsExact(args[k]); }
    }
  }

  /** Of a quoted name nothing but the name is left. */
  lemma {:induction false} NameIsLeft(text: string, i: nat, j: nat)
    requires i <= j <= |text| && AreQuotes(text[..i]) && AreQuotes(text[j..])
    requires text[i..j] != [] && !IsQuoteMark(text[i..j][0]) && !IsQuoteMark(text[j - 1])
    ensures TrimQuotes(text) == text[i..j]
    decreases i
  {
    if i > 0 {
      var rest := text[1..];
      assert text[..i][0] == text[0];
      assert rest[..i - 1] == text[..i][1..] && rest[j - 1..] == text[j..] && rest[i - 1..j - 1] == text[i..j];
      NameIsLeft(rest, i - 1, j - 1);
    } else {
      assert text[i..j][0] == text[0] && text[i..j] == text[..j];
      EndIsLeft(text, j);
    }
  }

  lemma {:induction false} EndIsLeft(text: string, j: nat)
    requires 0 < j <= |text| && AreQuotes(text[j..]) && !IsQuoteMark(text[j - 1])
    ensures TrimQuotesEnd(text) == text[..j]
    decreases |text| - j
  {
    if j < |text| {
      var front := text[..|text| - 1];
      assert text[j..][|text| - 1 - j] == text[|text| - 1];
      assert front[j..] == text[j..][..|text| - 1 - j] && front[..j] == text[..j] && front[j - 1] == text[j - 1];
      EndIsLeft(front, j);
      assert TrimQuotesEnd(text) == TrimQuotesEnd(front);
    } else {
      assert text[..j] == text;
    }
  }

  lemma CodecNames(name: string)
    requires name in CODECS
    ensures name != [] && !IsQuoteMark(name[0]) && !IsQuoteMark(name[|name| - 1]) && IsBuiltinEncoding(name)
  {}

  lemma NamedIsCodec(text: string)
    requires NamesCodec(text)
    ensures IsBuiltinEncoding(TrimQuotes(text))
  {
    hide TrimQuotes;
    hide AreQuotes;
    hide IsBuiltinEncoding;
    var i, j :| 0 <= i <= j <= |text| && text[i..j] in CODECS && AreQuotes(text[..i]) && AreQuotes(text[j..]);
    CodecNames(text[i..j]);
    assert text[i..j][j - i - 1] == text[j - 1];
    NameIsLeft(text, i, j);
  }

  lemma CodecsExact(a: Node)
    requires a.kind == KeywordArgument ==>
               && a.Get(NameField).Some?
               && (|| a.Get(NameField).value.text in OPEN_OPTIONS
                   || (&& a.Get(NameField).value.text == "encoding" && a.Get(ValueField).Some?
                       && a.Get(ValueField).value.kind == StringLiteral
                       && NamesCodec(a.Get(ValueField).value.text)))
    ensures PlainOption(a)
  {
    hide TrimQuotes;
    hide NamesCodec;
    if a.kind == KeywordArgument && a.Get(NameField).value.text == "encoding" {
      NamedIsCodec(a.Get(ValueField).value.text);
    }
  }

  lemma {:induction false} WrittenArgs(args: seq<Arg>)
    ensures |Written(args)| == |args| && forall k :: 0 <= k < |args| ==> Written(args)[k] == args[k].node
  {
    if args != [] { WrittenArgs(args[1..]); }
  }

  /** `r` does one safe thing if and only if there is a kind `k`, and then it returns one of it. */
  ghost predicate Goes(r: Run, m: Machine, k: Option<Abstract>) {
    if k.Some? then Performs(r, m, k.value) else !SafeTrace(r.machine.trace) && forall k' :: !Performs(r, m, k')
  }

  lemma UnsafeGoes(e: Effect, result: string -> Value, w: World, m: Machine)
    requires !Safe(e)
    ensures Goes(Perform(e, result, w, m), m, None)
  {
    hide Safe;
    hide HasKind;
    UnsafeTrace(m.trace, e);
  }

  lemma UnsafeTrace(trace: seq<Effect>, e: Effect)
    requires !Safe(e)
    ensures !SafeTrace(trace + [e])
  {
    hide Safe;
    assert (trace + [e])[|trace|] == e;
  }

  lemma UnrulyGoes(n: Node, w: World, m: Machine)
    ensures Goes(Unruly(n, w, m), m, None)
  {
    UnsafeTrace(m.trace, Opaque(n));
  }

  lemma PerformGoes(e: Effect, result: string -> Value, w: World, m: Machine, k: Abstract)
    requires Answers(w) && Safe(e) && !e.FileMethod? && forall a :: HasKind(result(a), k, m.trace + [e])
    ensures Goes(Perform(e, result, w, m), m, Some(k))
  {
    hide Performs;
    PerformPerforms(e, result, w, m, k);
  }

  lemma OpenGoes(args: seq<Arg>, w: World, m: Machine)
    requires Answers(w) && PlainArgs(args) && args != []
    ensures Goes(Perform(Open(args), _ => FileV(|m.trace|), w, m), m,
                 if PlainOpen(Written(args)) then Some(File) else None)
  {
    hide Perform;
    hide Goes;
    hide PlainOpen;
    hide OpensPlainly;
    WrittenArgs(args);
    OpensExact(Written(args));
    if PlainOpen(Written(args)) {
      PerformGoes(Open(args), _ => FileV(|m.trace|), w, m, File);
    } else {
      UnsafeGoes(Open(args), _ => FileV(|m.trace|), w, m);
    }
  }

  lemma RequireGoes(args: seq<Arg>, w: World, m: Machine)
    requires Answers(w) && Proper(w) && PlainArgs(args) && |args| == 1 && PlainlyQuoted(args[0].node.text)
    ensures var library := w.text(args[0].node.text);
            Goes(Perform(Require(library, args), _ => ModuleV(library), w, m), m,
                 if IsFsSpelling(args[0].node.text) then Some(NodeFs) else None)
  {
    hide Perform;
    hide Goes;
    hide IsFsSpelling;
    hide PlainlyQuoted;
    var library := w.text(args[0].node.text);
    SpellingsExact(args[0].node.text, w);
    if library in FILE_SYSTEM {
      PerformGoes(Require(library, args), _ => ModuleV(library), w, m, NodeFs);
    } else {
      UnsafeGoes(Require(library, args), _ => ModuleV(library), w, m);
    }
  }

  lemma NamedTable(lang: Language, name: string, args: seq<Node>)
    ensures NamedCall(lang, name, args) ==
            if lang == Python && name == "print" then Some(Scalar)
            else if lang == Python && name == "open" && args != [] then if PlainOpen(args) then Some(File) else None
            else if lang == JavaScript && name == "require" && |args| == 1 then
              if IsFsSpelling(args[0].text) then Some(NodeFs) else None
            else None
  {
    hide PlainOption;
    hide Positional;
    hide IsFsSpelling;
  }

  /** A call of a bare name, with plain arguments: it goes as the table says. */
  lemma NamedGoes(lang: Language, name: string, n: Node, args: seq<Arg>, w: World, m: Machine)
    requires Answers(w) && Proper(w) && PlainArgs(args)
    requires name == "require" && |args| == 1 ==> PlainlyQuoted(args[0].node.text)
    ensures Goes(CallNamed(n, name, args, lang, w, m), m, NamedCall(lang, name, Written(args)))
  {
    hide Perform;
    hide Unruly;
    hide Goes;
    hide NamedCall;
    hide IsFsSpelling;
    hide PlainlyQuoted;
    hide PlainOpen;
    hide PlainArgs;
    hide Written;
    WrittenArgs(args);
    NamedTable(lang, name, Written(args));
    if lang == Python && name == "print" {
      PrintGoes(args, w, m);
    } else if lang == Python && name == "open" && args != [] {
      OpenGoes(args, w, m);
    } else if lang == JavaScript && name == "require" && |args| == 1 {
      RequireGoes(args, w, m);
    } else {
      UnrulyGoes(n, w, m);
    }
  }

  lemma PrintGoes(args: seq<Arg>, w: World, m: Machine)
    requires Answers(w) && PlainArgs(args)
    ensures Goes(Perform(Print(args), s => ScalarV(s), w, m), m, Some(Scalar))
  {
    PerformGoes(Print(args), s => ScalarV(s), w, m, Scalar);
    hide Perform;
    hide Goes;
  }

  /** The same for calls of bare names, as long as a module is named without escapes. */
  lemma NamedCallsExact(lang: Language, name: string, args: seq<Node>, result: Abstract)
    requires name == "require" && |args| == 1 ==> PlainlyQuoted(args[0].text)
    ensures NamedCall(lang, name, args) == Some(result) <==>
              forall n, passed, w, m :: Answers(w) && Proper(w) && PlainArgs(passed) && Written(passed) == args ==>
                Performs(CallNamed(n, name, passed, lang, w, m), m, result)
  {
    hide NamedCall;
    hide CallNamed;
    hide Performs;
    hide PlainlyQuoted;
    forall n, passed, w, m | Answers(w) && Proper(w) && PlainArgs(passed) && Written(passed) == args
      ensures NamedCall(lang, name, args) == Some(result) ==>
                Performs(CallNamed(n, name, passed, lang, w, m), m, result)
    {
      WrittenArgs(passed);
      NamedGoes(lang, name, n, passed, w, m);
    }
    var w := EasyWorld();
    var m := Machine(map[], []);
    var passed := Passed(args);
    WrittenArgs(passed);
    var r := CallNamed(NOTHING, name, passed, lang, w, m);
    NamedGoes(lang, name, NOTHING, passed, w, m);
    if Performs(r, m, result) && NamedCall(lang, name, args).Some? {
      PerformsOnce(r, m, result, NamedCall(lang, name, args).value);
    }
  }

  /** The arguments with empty texts for values. */
  function Passed(args: seq<Node>): (r: seq<Arg>)
    ensures PlainArgs(r) && Written(r) == args
  {
    if args == [] then [] else
    var rest := Passed(args[1..]);
    var r := [Arg(args[0], TextV([]))] + rest;
    assert r[1..] == rest;
    r
  }
}

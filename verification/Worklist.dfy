/** Collecting the shell-looking literals of a program (src/ast_matcher.rs): a bounded worklist
    over the tree, against a recursive walk in source order. */
module Worklist {
  import opened Decoding
  import opened InertProof
  import opened LiteralBindings
  import opened Seqs
  import opened Syntax
  import opened Wrappers

  const MAX_SOURCE_BYTES: nat := 262144

  // ------------------------------------------------------------ sink starts

  predicate Ascending(s: seq<nat>) {
    forall i, j :: 0 <= i < j < |s| ==> s[i] < s[j]
  }

  function InsertStart(s: seq<nat>, x: nat): (r: seq<nat>)
    requires Ascending(s)
    ensures Ascending(r)
    ensures forall y :: y in r <==> y in s || y == x
  {
    if s == [] then [x]
    else if x < s[0] then [x] + s
    else if x == s[0] then s
    else
      var t := InsertStart(s[1..], x);
      assert forall y :: y in s <==> y == s[0] || y in s[1..];
      assert forall k :: 0 <= k < |t| ==> t[k] in t;
      assert forall k :: 0 <= k < |t| ==> s[0] < t[k];
      [s[0]] + t
  }

  /** Sorted, without duplicates. */
  function SortStarts(s: seq<nat>): (r: seq<nat>)
    ensures Ascending(r)
    ensures forall y :: y in r <==> y in s
  {
    if s == [] then [] else InsertStart(SortStarts(s[1..]), s[0])
  }

  /** The first start at or after `x`. */
  function FirstAtLeast(s: seq<nat>, x: nat): (i: nat)
    ensures i <= |s|
    ensures i < |s| ==> s[i] >= x
    ensures forall k :: 0 <= k < i ==> s[k] < x
  {
    if s == [] || s[0] >= x then 0 else 1 + FirstAtLeast(s[1..], x)
  }

  predicate StartsWithin(starts: seq<nat>, lo: nat, hi: nat) {
    var at := FirstAtLeast(starts, lo);
    at < |starts| && starts[at] < hi
  }

  /** The look-up finds a start in the range whenever there is one. */
  lemma StartsWithinExact(starts: seq<nat>, lo: nat, hi: nat)
    requires Ascending(starts)
    ensures StartsWithin(starts, lo, hi) <==> exists x :: x in starts && lo <= x < hi
  {
    var at := FirstAtLeast(starts, lo);
    if exists x :: x in starts && lo <= x < hi {
      var x :| x in starts && lo <= x < hi;
      var k :| 0 <= k < |starts| && starts[k] == x;
      assert k >= at;
    }
    if StartsWithin(starts, lo, hi) { assert starts[at] in starts; }
  }

  predicate PassesValuesUp(k: Kind) {
    || k == Parenthesized || k == ArgumentList || k == Arguments || k == ArrayLiteral || k == ListLiteral
    || k == TupleLiteral || k == ObjectLiteral || k == DictionaryLiteral || k == Pair || k == KeywordArgument
    || k == ConcatenatedString || k == BinaryOperator || k == BinaryExpression
  }

  /** The name a call is made through. */
  function CalleeName(f: Node): Option<Node> {
    match f.kind
    case Identifier => Some(f)
    case Attribute => f.Get(AttributeField)
    case MemberExpression => f.Get(PropertyField)
    case _ => None
  }

  /** Whether this call owns a literal among its arguments. */
  predicate CallOwns(call: Node, literal: Node, starts: seq<nat>) {
    var arguments, f := call.Get(ArgumentsField), call.Get(FunctionField);
    && arguments.Some? && arguments.value.start <= literal.start && literal.end <= arguments.value.end
    && f.Some? && CalleeName(f.value).Some?
    && var name := CalleeName(f.value).value;
       && (name.kind == Identifier || name.kind == PropertyIdentifier)
       && StartsWithin(starts, name.start, name.end)
  }

  /** The nearest call around the literal decides, if only value-building nodes lie between. */
  predicate Owned(literal: Node, ancestors: seq<Node>, starts: seq<nat>, tries: nat)
    decreases tries
  {
    if tries == 0 || ancestors == [] then false else
    var node := ancestors[|ancestors| - 1];
    if node.IsCall() then CallOwns(node, literal, starts)
    else PassesValuesUp(node.kind) && Owned(literal, ancestors[..|ancestors| - 1], starts, tries - 1)
  }

  /** The kinds that only build a value out of what is inside them. */
  const VALUE_BUILDERS: set<Kind> := {
    Parenthesized, ArgumentList, Arguments, ArrayLiteral, ListLiteral, TupleLiteral, ObjectLiteral,
    DictionaryLiteral, Pair, KeywordArgument, ConcatenatedString, BinaryOperator, BinaryExpression }

  /** `name` is the name that a call of `f` ends in: `g`, or the `g` of `o.g`, whatever `o` is. */
  predicate EndsIn(f: Node, name: Node) {
    && (name.kind == Identifier || name.kind == PropertyIdentifier)
    && (|| (f.kind == Identifier && name == f)
        || (f.kind == Attribute && f.Get(AttributeField) == Some(name))
        || (f.kind == MemberExpression && f.Get(PropertyField) == Some(name)))
  }

  /** `j` levels above the literal stands a call, only value builders lie between, the literal is among
      its arguments, and a registered start lies in the name it ends in. */
  ghost predicate CallAbove(literal: Node, ancestors: seq<Node>, starts: seq<nat>, j: nat)
    requires j < |ancestors|
  {
    var call := ancestors[|ancestors| - 1 - j];
    && (call.kind == Call || call.kind == CallExpression)
    && (forall i :: |ancestors| - j <= i < |ancestors| ==> ancestors[i].kind in VALUE_BUILDERS)
    && call.Get(ArgumentsField).Some? && call.Get(FunctionField).Some?
    && call.Get(ArgumentsField).value.start <= literal.start && literal.end <= call.Get(ArgumentsField).value.end
    && exists name, x :: EndsIn(call.Get(FunctionField).value, name) && x in starts && name.start <= x < name.end
  }

  /** One of the nearest 64 ancestors is such a call. */
  ghost predicate UnderSink(literal: Node, ancestors: seq<Node>, starts: seq<nat>, tries: nat) {
    exists j :: 0 <= j < tries && j < |ancestors| && CallAbove(literal, ancestors, starts, j)
  }

  lemma BuildersAre(k: Kind)
    ensures PassesValuesUp(k) <==> k in VALUE_BUILDERS
    ensures k == Call || k == CallExpression ==> k !in VALUE_BUILDERS
  {}

  lemma CalleeEnds(f: Node, name: Node)
    ensures EndsIn(f, name) <==>
              CalleeName(f) == Some(name) && (name.kind == Identifier || name.kind == PropertyIdentifier)
  {}

  lemma CallOwnsMeans(call: Node, literal: Node, starts: seq<nat>)
    requires Ascending(starts)
    ensures CallOwns(call, literal, starts) <==>
              && call.Get(ArgumentsField).Some? && call.Get(FunctionField).Some?
              && call.Get(ArgumentsField).value.start <= literal.start
              && literal.end <= call.Get(ArgumentsField).value.end
              && exists name, x ::
                   EndsIn(call.Get(FunctionField).value, name) && x in starts && name.start <= x < name.end
  {
    hide StartsWithin;
    hide EndsIn;
    hide CalleeName;
    if call.Get(FunctionField).Some? {
      var f := call.Get(FunctionField).value;
      forall name ensures EndsIn(f, name) <==>
          CalleeName(f) == Some(name) && (name.kind == Identifier || name.kind == PropertyIdentifier) {
        CalleeEnds(f, name);
      }
      if CalleeName(f).Some? { StartsWithinExact(starts, CalleeName(f).value.start, CalleeName(f).value.end); }
    }
  }

  lemma CallHere(literal: Node, ancestors: seq<Node>, starts: seq<nat>)
    requires Ascending(starts) && ancestors != []
    ensures var call := ancestors[|ancestors| - 1];
            CallAbove(literal, ancestors, starts, 0) <==> call.IsCall() && CallOwns(call, literal, starts)
  {
    hide CallOwns;
    hide EndsIn;
    CallOwnsMeans(ancestors[|ancestors| - 1], literal, starts);
  }

  lemma CallFurther(literal: Node, ancestors: seq<Node>, starts: seq<nat>, j: nat)
    requires 0 < j < |ancestors|
    ensures CallAbove(literal, ancestors, starts, j) <==>
              && ancestors[|ancestors| - 1].kind in VALUE_BUILDERS
              && CallAbove(literal, ancestors[..|ancestors| - 1], starts, j - 1)
  {
    hide EndsIn;
    var rest := ancestors[..|ancestors| - 1];
    assert rest[|rest| - 1 - (j - 1)] == ancestors[|ancestors| - 1 - j];
    assert forall i :: |rest| - (j - 1) <= i < |rest| ==> rest[i] == ancestors[i];
  }

  /** The climb comes to the declared property. */
  lemma {:induction false} OwnedMeans(literal: Node, ancestors: seq<Node>, starts: seq<nat>, tries: nat)
    requires Ascending(starts)
    ensures Owned(literal, ancestors, starts, tries) <==> UnderSink(literal, ancestors, starts, tries)
    decreases tries
  {
    hide CallAbove;
    hide CallOwns;
    hide PassesValuesUp;
    hide Owned;
    OwnedCases(literal, ancestors, starts, tries);
    if tries > 0 && ancestors != [] {
      var node, rest := ancestors[|ancestors| - 1], ancestors[..|ancestors| - 1];
      BuildersAre(node.kind);
      CallHere(literal, ancestors, starts);
      OwnedMeans(literal, rest, starts, tries - 1);
      forall j | 0 < j < |ancestors|
        ensures CallAbove(literal, ancestors, starts, j) <==>
                  node.kind in VALUE_BUILDERS && CallAbove(literal, rest, starts, j - 1)
      {
        CallFurther(literal, ancestors, starts, j);
      }
      if UnderSink(literal, rest, starts, tries - 1) && node.kind in VALUE_BUILDERS {
        var j :| 0 <= j < tries - 1 && j < |rest| && CallAbove(literal, rest, starts, j);
        assert CallAbove(literal, ancestors, starts, j + 1);
      }
      if UnderSink(literal, ancestors, starts, tries) {
        var j :| 0 <= j < tries && j < |ancestors| && CallAbove(literal, ancestors, starts, j);
        if j > 0 { assert CallAbove(literal, rest, starts, j - 1); }
      }
    }
  }

  /** One ancestor up. */
  lemma OwnedCases(literal: Node, ancestors: seq<Node>, starts: seq<nat>, tries: nat)
    ensures Owned(literal, ancestors, starts, tries) ==
            if tries == 0 || ancestors == [] then false
            else
              var node := ancestors[|ancestors| - 1];
              if node.IsCall() then CallOwns(node, literal, starts)
              else PassesValuesUp(node.kind) && Owned(literal, ancestors[..|ancestors| - 1], starts, tries - 1)
  {
    hide CallOwns;
    hide PassesValuesUp;
  }

  /** What a call answers, test by test. */
  lemma CallCases(call: Node, literal: Node, starts: seq<nat>)
    ensures var arguments, f := call.Get(ArgumentsField), call.Get(FunctionField);
            CallOwns(call, literal, starts) ==
            if arguments.None? || arguments.value.start > literal.start || arguments.value.end < literal.end then false
            else if f.None? then false
            else
              var name := CalleeName(f.value);
              if name.None? || (name.value.kind != Identifier && name.value.kind != PropertyIdentifier) then false
              else
                var at := FirstAtLeast(starts, name.value.start);
                at < |starts| && starts[at] < name.value.end
  {
    hide FirstAtLeast;
    hide CalleeName;
    hide Node.Get;
  }

  /** `interpreter_literal_has_owned_sink`. */
  method HasOwnedSink(literal: Node, ancestors: seq<Node>, starts: seq<nat>) returns (r: bool)
    ensures r <==> Owned(literal, ancestors, starts, 64)
    ensures Ascending(starts) ==> (r <==> UnderSink(literal, ancestors, starts, 64))
  {
    hide *;
    if Ascending(starts) { OwnedMeans(literal, ancestors, starts, 64); }
    var rest := ancestors;
    for i := 0 to 64
      invariant Owned(literal, ancestors, starts, 64) == Owned(literal, rest, starts, 64 - i)
    {
      OwnedCases(literal, rest, starts, 64 - i);
      if rest == [] {
        break;
      }
      var node := rest[|rest| - 1];
      if node.IsCall() {
        CallCases(node, literal, starts);
        var arguments := node.Get(ArgumentsField);
        if arguments.None? || arguments.value.start > literal.start || arguments.value.end < literal.end {
          return false;
        }
        var f := node.Get(FunctionField);
        if f.None? {
          return false;
        }
        var name := CalleeName(f.value);
        if name.Some? && (name.value.kind == Identifier || name.value.kind == PropertyIdentifier) {
          var at := FirstAtLeast(starts, name.value.start);
          return at < |starts| && starts[at] < name.value.end;
        }
        return false;
      }
      if !PassesValuesUp(node.kind) {
        return false;
      }
      rest := rest[..|rest| - 1];
    }
    OwnedCases(literal, rest, starts, 0);
    return false;
  }

  // --------------------------------------------------------------- the walk

  datatype Context = Context(lang: Language, starts: seq<nat>, seeds: seq<Command>)

  /** A literal the walk looks at, and its value when it has a static one. */
  datatype Found = Found(node: Node, value: Option<string>) {
    predicate Marked() { value.Some? && ContainsMarker(value.value) }
  }

  predicate SameRange(n: Node, c: Command) {
    c.start == n.start && c.end == n.end
  }

  predicate Seeded(n: Node, cs: seq<Command>) {
    exists k :: 0 <= k < |cs| && SameRange(n, cs[k])
  }

  function ParentOf(ancestors: seq<Node>): Option<Node> {
    if ancestors == [] then None else Some(ancestors[|ancestors| - 1])
  }

  /** The literals of a tree in source order: outermost ones, except that an undecodable one
      is looked into; comments, owned literals and the seeds' own literals are passed over. */
  function Walk(n: Node, ancestors: seq<Node>, x: Context): seq<Found>
    decreases n, 1
  {
    if n.kind == Comment then []
    else if !n.IsString() then WalkAll(n.children, ancestors + [n], x)
    else if Seeded(n, x.seeds) || Owned(n, ancestors, x.starts, 64) then []
    else
      var value := StaticLiteral(n, ParentOf(ancestors), x.lang, 0);
      [Found(n, value)] + if value.Some? then [] else WalkAll(n.children, ancestors + [n], x)
  }

  function WalkAll(ns: seq<Node>, ancestors: seq<Node>, x: Context): seq<Found>
    decreases ns, 0
  {
    if ns == [] then []
    else (if ns[0].named then Walk(ns[0], ancestors, x) else []) + WalkAll(ns[1..], ancestors, x)
  }

  function CommandsOf(fs: seq<Found>): seq<Command> {
    if fs == [] then []
    else
      var f := fs[0];
      (if f.Marked() then [Command(f.value.value, f.node.start, f.node.end)] else []) + CommandsOf(fs[1..])
  }

  function Payload(cs: seq<Command>): nat {
    if cs == [] then 0 else Utf8Length(cs[0].command) + Payload(cs[1..])
  }

  predicate Small(f: Found) {
    f.node.end - f.node.start <= MAX_PAYLOAD_BYTES
  }

  predicate AllSmall(fs: seq<Found>) {
    forall k :: 0 <= k < |fs| ==> Small(fs[k])
  }

  /** Within every limit. */
  predicate Affordable(seeds: seq<Command>, fs: seq<Found>) {
    && |seeds| + |fs| <= MAX_CANDIDATES
    && AllSmall(fs)
    && Payload(seeds) + Payload(CommandsOf(fs)) <= MAX_PAYLOAD_BYTES
  }

  // ------------------------------------------------------------------ order

  /** By start; commands with the same start may come in any order. */
  predicate InOrder(cs: seq<Command>) {
    |cs| <= 1 || (cs[0].start <= cs[1].start && InOrder(cs[1..]))
  }

  /** Insert after everything that starts no later. */
  function Insert(cs: seq<Command>, c: Command): (r: seq<Command>)
    requires InOrder(cs)
    ensures InOrder(r) && r != []
    ensures r[0] == if cs == [] || c.start < cs[0].start then c else cs[0]
  {
    if cs == [] then [c]
    else if c.start < cs[0].start then [c] + cs
    else
      var t := Insert(cs[1..], c);
      assert ([cs[0]] + t)[1..] == t;
      [cs[0]] + t
  }

  lemma InsertStep(cs: seq<Command>, c: Command)
    requires InOrder(cs)
    ensures cs == [] || c.start < cs[0].start ==> Insert(cs, c) == [c] + cs
    ensures cs != [] && c.start >= cs[0].start ==> InOrder(cs[1..]) && Insert(cs, c) == [cs[0]] + Insert(cs[1..], c)
  {}

  lemma {:induction false} InsertKeeps(cs: seq<Command>, c: Command)
    requires InOrder(cs)
    ensures multiset(Insert(cs, c)) == multiset(cs) + multiset{c}
    decreases |cs|
  {
    InsertStep(cs, c);
    hide Insert;
    if cs == [] || c.start < cs[0].start {
      MultisetCons(c, cs);
      MultisetAssociative(multiset{}, multiset{c}, multiset(cs));
    } else {
      hide InOrder;
      InsertKeeps(cs[1..], c);
      MultisetCons(cs[0], cs[1..]);
      MultisetCons(cs[0], Insert(cs[1..], c));
      MultisetAssociative(multiset{cs[0]}, multiset(cs[1..]), multiset{c});
      assert [cs[0]] + cs[1..] == cs;
    }
  }

  /** The stable sort by start. */
  function SortByStart(cs: seq<Command>): (r: seq<Command>)
    ensures InOrder(r)
  {
    if cs == [] then [] else Insert(SortByStart(cs[..|cs| - 1]), cs[|cs| - 1])
  }

  lemma {:induction false} SortKeeps(cs: seq<Command>)
    ensures multiset(SortByStart(cs)) == multiset(cs)
    decreases |cs|
  {
    if cs != [] {
      SortKeeps(cs[..|cs| - 1]);
      InsertKeeps(SortByStart(cs[..|cs| - 1]), cs[|cs| - 1]);
      MultisetLast(cs);
      hide Insert;
    }
  }

  /** Each range ends before the next one starts. */
  predicate Disjoint(cs: seq<Command>) {
    && (forall k :: 0 <= k < |cs| ==> cs[k].start < cs[k].end)
    && (forall i, j :: 0 <= i < j < |cs| ==> cs[i].end <= cs[j].start)
  }

  lemma {:induction false} InOrderHead(cs: seq<Command>, k: nat)
    requires InOrder(cs) && k < |cs|
    ensures cs[0].start <= cs[k].start
    decreases |cs|
  {
    if k > 0 { InOrderHead(cs[1..], k - 1); }
  }

  lemma SameFirst(a: seq<Command>, b: seq<Command>)
    requires InOrder(a) && Disjoint(b) && a != [] && b != [] && multiset(a) == multiset(b)
    ensures a[0] == b[0]
  {
    assert a[0] in multiset(b) && b[0] in multiset(a);
    var i :| 0 <= i < |b| && b[i] == a[0];
    var j :| 0 <= j < |a| && a[j] == b[0];
    InOrderHead(a, j);
  }

  lemma TailMultiset(a: seq<Command>)
    requires a != []
    ensures multiset(a[1..]) == multiset(a) - multiset{a[0]}
  {
    assert a == [a[0]] + a[1..];
  }

  lemma OrderOfTails(a: seq<Command>, b: seq<Command>)
    requires InOrder(a) && Disjoint(b) && a != [] && b != []
    ensures InOrder(a[1..]) && Disjoint(b[1..])
  {}

  /** Only one sequence in order holds the commands of a disjoint one. */
  lemma {:induction false} OnlyOneOrder(a: seq<Command>, b: seq<Command>)
    requires InOrder(a) && Disjoint(b) && multiset(a) == multiset(b)
    ensures a == b
    decreases |a|
  {
    hide InOrder;
    hide Disjoint;
    MultisetSize(a, b);
    if a != [] {
      SameFirst(a, b);
      TailMultiset(a);
      TailMultiset(b);
      OrderOfTails(a, b);
      OnlyOneOrder(a[1..], b[1..]);
      assert a == [a[0]] + a[1..] && b == [b[0]] + b[1..];
    }
  }

  lemma {:induction false} DisjointInOrder(cs: seq<Command>)
    requires Disjoint(cs)
    ensures InOrder(cs)
    decreases |cs|
  {
    if |cs| > 1 { DisjointInOrder(cs[1..]); }
  }

  predicate Apart(c: Command, d: Command) {
    c.end <= d.start || d.end <= c.start
  }

  lemma InsertMembers(cs: seq<Command>, c: Command)
    requires InOrder(cs)
    ensures forall k :: 0 <= k < |Insert(cs, c)| ==> Insert(cs, c)[k] == c || Insert(cs, c)[k] in cs
  {
    InsertKeeps(cs, c);
    forall k | 0 <= k < |Insert(cs, c)| ensures Insert(cs, c)[k] == c || Insert(cs, c)[k] in cs {
      assert Insert(cs, c)[k] in multiset(Insert(cs, c));
    }
  }

  lemma DisjointCons(h: Command, t: seq<Command>)
    requires Disjoint(t) && h.start < h.end && forall k :: 0 <= k < |t| ==> h.end <= t[k].start
    ensures Disjoint([h] + t)
  {}

  lemma {:induction false} InsertDisjoint(cs: seq<Command>, c: Command)
    requires Disjoint(cs) && InOrder(cs) && c.start < c.end && forall k :: 0 <= k < |cs| ==> Apart(c, cs[k])
    ensures Disjoint(Insert(cs, c))
    decreases |cs|
  {
    if cs == [] {
    } else if c.start < cs[0].start {
      forall k | 0 <= k < |cs| ensures c.end <= cs[k].start { InOrderHead(cs, k); }
      DisjointCons(c, cs);
    } else {
      var t := Insert(cs[1..], c);
      InsertDisjoint(cs[1..], c);
      InsertMembers(cs[1..], c);
      assert Apart(c, cs[0]);
      DisjointCons(cs[0], t);
    }
  }

  /** The seed in its place among the others. */
  function Placed(seeds: seq<Command>, cs: seq<Command>): seq<Command>
    requires InOrder(cs)
  {
    if seeds == [] then cs else Insert(cs, seeds[0])
  }

  /** Sorting what was collected, in whatever order, gives the commands in source order. */
  lemma SortedIsPlaced(seeds: seq<Command>, got: seq<Command>, cs: seq<Command>)
    requires |seeds| <= 1 && Disjoint(cs) && InOrder(cs) && multiset(got) == multiset(cs)
    requires forall s :: s in seeds ==> s.start < s.end && forall k :: 0 <= k < |cs| ==> Apart(s, cs[k])
    ensures SortByStart(seeds + got) == Placed(seeds, cs)
    ensures Disjoint(Placed(seeds, cs))
  {
    hide SortByStart;
    hide Insert;
    hide InOrder;
    SortKeeps(seeds + got);
    if seeds == [] {
      assert seeds + got == got;
      OnlyOneOrder(SortByStart(got), cs);
    } else {
      assert seeds == [seeds[0]];
      InsertDisjoint(cs, seeds[0]);
      InsertKeeps(cs, seeds[0]);
      OnlyOneOrder(SortByStart(seeds + got), Insert(cs, seeds[0]));
    }
  }

  // ------------------------------------------------------------- tree shape

  /** Byte ranges nest, siblings follow one another, and string nodes are named and not empty. */
  predicate WellFormed(n: Node)
    decreases n, 1
  {
    && n.start <= n.end
    && (n.IsString() ==> n.named && n.start < n.end)
    && WellFormedAll(n.children, n.start, n.end)
  }

  predicate WellFormedAll(ns: seq<Node>, lo: nat, hi: nat)
    decreases ns, 0
  {
    if ns == [] then lo <= hi
    else lo <= ns[0].start && ns[0].end <= hi && WellFormed(ns[0]) && WellFormedAll(ns[1..], ns[0].end, hi)
  }

  predicate Within(cs: seq<Command>, lo: nat, hi: nat) {
    Disjoint(cs) && forall k :: 0 <= k < |cs| ==> lo <= cs[k].start && cs[k].end <= hi
  }

  lemma {:induction false} CommandsConcat(a: seq<Found>, b: seq<Found>)
    ensures CommandsOf(a + b) == CommandsOf(a) + CommandsOf(b)
    decreases |a|
  {
    if a == [] {
      Nothing(b);
      Nothing(CommandsOf(b));
    } else {
      var head := if a[0].Marked() then [Command(a[0].value.value, a[0].node.start, a[0].node.end)] else [];
      DropConcat(a, b, 1);
      CommandsConcat(a[1..], b);
      Associative(head, CommandsOf(a[1..]), CommandsOf(b));
    }
  }

  lemma WithinConcat(a: seq<Command>, b: seq<Command>, lo: nat, mid: nat, hi: nat)
    requires Within(a, lo, mid) && Within(b, mid, hi) && lo <= mid <= hi
    ensures Within(a + b, lo, hi)
  {}

  /** The commands of a walk lie in the tree's range, in order and apart. */
  lemma {:induction false} WalkWithin(n: Node, ancestors: seq<Node>, x: Context)
    requires WellFormed(n)
    ensures Within(CommandsOf(Walk(n, ancestors, x)), n.start, n.end)
    decreases n, 1
  {
    hide Owned;
    hide StaticLiteral;
    hide WalkAll;
    hide Seeded;
    hide ContainsMarker;
    WalkAllWithin(n.children, ancestors + [n], x, n.start, n.end);
    if n.kind != Comment && n.IsString() && !Seeded(n, x.seeds) && !Owned(n, ancestors, x.starts, 64) {
      var f := Found(n, StaticLiteral(n, ParentOf(ancestors), x.lang, 0));
      var rest := if f.value.Some? then [] else WalkAll(n.children, ancestors + [n], x);
      assert ([f] + rest)[1..] == rest;
    }
  }

  lemma {:induction false} WalkAllWithin(ns: seq<Node>, ancestors: seq<Node>, x: Context, lo: nat, hi: nat)
    requires WellFormedAll(ns, lo, hi)
    ensures Within(CommandsOf(WalkAll(ns, ancestors, x)), lo, hi) && lo <= hi
    decreases ns, 0
  {
    if ns != [] {
      hide Walk;
      WalkWithin(ns[0], ancestors, x);
      WalkAllWithin(ns[1..], ancestors, x, ns[0].end, hi);
      var head := if ns[0].named then Walk(ns[0], ancestors, x) else [];
      var rest := WalkAll(ns[1..], ancestors, x);
      CommandsConcat(head, rest);
      assert Within(CommandsOf(head), lo, ns[0].end);
      WithinConcat(CommandsOf(head), CommandsOf(rest), lo, ns[0].end, hi);
    }
  }

  // --------------------------------------------------------------- the loop

  datatype Item = Item(node: Node, ancestors: seq<Node>)

  function ItemsOf(ns: seq<Node>, ancestors: seq<Node>): seq<Item> {
    if ns == [] then [] else (if ns[0].named then [Item(ns[0], ancestors)] else []) + ItemsOf(ns[1..], ancestors)
  }

  function WalkItems(items: seq<Item>, x: Context): seq<Found> {
    if items == [] then [] else Walk(items[0].node, items[0].ancestors, x) + WalkItems(items[1..], x)
  }

  lemma {:induction false} WalkItemsConcat(a: seq<Item>, b: seq<Item>, x: Context)
    ensures WalkItems(a + b, x) == WalkItems(a, x) + WalkItems(b, x)
    decreases |a|
  {
    hide Walk;
    if a == [] {
      Nothing(b);
      Nothing(WalkItems(b, x));
    } else {
      DropConcat(a, b, 1);
      WalkItemsConcat(a[1..], b, x);
      Associative(Walk(a[0].node, a[0].ancestors, x), WalkItems(a[1..], x), WalkItems(b, x));
    }
  }

  lemma {:induction false} ItemsWalkAll(ns: seq<Node>, ancestors: seq<Node>, x: Context)
    ensures WalkItems(ItemsOf(ns, ancestors), x) == WalkAll(ns, ancestors, x)
    decreases |ns|
  {
    hide Walk;
    if ns != [] {
      var head := if ns[0].named then [Item(ns[0], ancestors)] else [];
      var rest := ItemsOf(ns[1..], ancestors);
      ItemsWalkAll(ns[1..], ancestors, x);
      WalkItemsConcat(head, rest, x);
      if ns[0].named {
        assert head[1..] == [];
        Nothing(Walk(ns[0], ancestors, x));
      }
    }
  }

  /** The pending nodes are well formed, in source order, and end by `hi`. */
  predicate Queued(items: seq<Item>, hi: nat) {
    if items == [] then true
    else
      var last := items[|items| - 1].node;
      WellFormed(last) && last.end <= hi && Queued(items[..|items| - 1], last.start)
  }

  lemma QueuedUp(items: seq<Item>, hi: nat, hi': nat)
    requires Queued(items, hi) && hi <= hi'
    ensures Queued(items, hi')
  {}

  lemma QueuedPush(items: seq<Item>, i: Item, lo: nat, hi: nat)
    requires Queued(items, lo) && WellFormed(i.node) && lo <= i.node.start && i.node.end <= hi
    ensures Queued(items + [i], hi)
  {
    QueuedUp(items, lo, i.node.start);
    assert (items + [i])[..|items|] == items;
  }

  lemma {:induction false} QueuedChildren(items: seq<Item>, ns: seq<Node>, ancestors: seq<Node>, lo: nat, hi: nat)
    requires Queued(items, lo) && WellFormedAll(ns, lo, hi)
    ensures Queued(items + ItemsOf(ns, ancestors), hi)
    decreases |ns|
  {
    if ns == [] {
      Nothing(items);
      QueuedUp(items, lo, hi);
    } else {
      var head := if ns[0].named then [Item(ns[0], ancestors)] else [];
      if ns[0].named {
        QueuedPush(items, Item(ns[0], ancestors), lo, ns[0].end);
      } else {
        Nothing(items);
        QueuedUp(items, lo, ns[0].end);
      }
      QueuedChildren(items + head, ns[1..], ancestors, ns[0].end, hi);
      Associative(items, head, ItemsOf(ns[1..], ancestors));
    }
  }

  /** The number of nodes still to visit. */
  function Load(items: seq<Item>): nat {
    if items == [] then 0 else 1 + |Below(items[0].node)| + Load(items[1..])
  }

  lemma {:induction false} LoadConcat(a: seq<Item>, b: seq<Item>)
    ensures Load(a + b) == Load(a) + Load(b)
    decreases |a|
  {
    if a == [] { Nothing(b); } else { DropConcat(a, b, 1); LoadConcat(a[1..], b); }
  }

  lemma {:induction false} LoadChildren(ns: seq<Node>, ancestors: seq<Node>)
    ensures Load(ItemsOf(ns, ancestors)) <= |BelowAll(ns)|
    decreases |ns|
  {
    if ns != [] {
      var head := if ns[0].named then [Item(ns[0], ancestors)] else [];
      LoadChildren(ns[1..], ancestors);
      LoadConcat(head, ItemsOf(ns[1..], ancestors));
      assert ns[0].named ==> head[1..] == [];
    }
  }

  lemma {:induction false} PayloadConcat(a: seq<Command>, b: seq<Command>)
    ensures Payload(a + b) == Payload(a) + Payload(b)
    decreases |a|
  {
    if a == [] { Nothing(b); } else { DropConcat(a, b, 1); PayloadConcat(a[1..], b); }
  }

  ghost predicate BalancedCommands(visited: seq<Command>, coming: seq<Command>, whole: seq<Command>) {
    && Payload(visited) + Payload(coming) == Payload(whole)
    && multiset(visited) + multiset(coming) == multiset(whole)
  }

  /** What has been visited and what is still to come make up the whole walk. */
  ghost predicate Balanced(visited: seq<Found>, coming: seq<Found>, whole: seq<Found>) {
    && |visited| + |coming| == |whole|
    && AllSmall(visited) && (AllSmall(coming) <==> AllSmall(whole))
    && BalancedCommands(CommandsOf(visited), CommandsOf(coming), CommandsOf(whole))
  }

  lemma MoveCommands(v: seq<Command>, b: seq<Command>, c: seq<Command>, a: seq<Command>, whole: seq<Command>)
    requires BalancedCommands(v, b + (c + a), whole)
    ensures BalancedCommands(v + c, b + a, whole)
  {
    PayloadConcat(v, c);
    PayloadConcat(b, a);
    PayloadConcat(b, c + a);
    PayloadConcat(c, a);
  }

  lemma AllSmallConcat(a: seq<Found>, b: seq<Found>)
    ensures AllSmall(a + b) <==> AllSmall(a) && AllSmall(b)
  {
    if AllSmall(a + b) {
      forall k | 0 <= k < |a| ensures Small(a[k]) { assert (a + b)[k] == a[k]; }
      forall k | 0 <= k < |b| ensures Small(b[k]) { assert (a + b)[|a| + k] == b[k]; }
    }
  }

  /** A small literal moves from what is coming to what was visited. */
  lemma Visit(visited: seq<Found>, before: seq<Found>, f: Found, after: seq<Found>, whole: seq<Found>)
    requires Balanced(visited, before + ([f] + after), whole) && Small(f)
    ensures Balanced(visited + [f], before + after, whole)
  {
    assert AllSmall([f]);
    AllSmallConcat(before, [f] + after);
    AllSmallConcat([f], after);
    AllSmallConcat(before, after);
    AllSmallConcat(visited, [f]);
    hide AllSmall;
    hide Small;
    hide CommandsOf;
    hide BalancedCommands;
    CommandsConcat(visited, [f]);
    CommandsConcat(before, [f] + after);
    CommandsConcat([f], after);
    CommandsConcat(before, after);
    MoveCommands(CommandsOf(visited), CommandsOf(before), CommandsOf([f]), CommandsOf(after), CommandsOf(whole));
  }

  /** The loop's own bookkeeping about the commands it has found, which all start at `hi` or later. */
  ghost predicate Accounted(x: Context, hi: nat, visited: nat, found: seq<Command>, commands: seq<Command>,
                            candidates: nat, payload: nat) {
    && commands == x.seeds + found
    && (forall k :: 0 <= k < |found| ==> hi <= found[k].start)
    && candidates == |x.seeds| + visited && candidates <= MAX_CANDIDATES
    && payload == Payload(x.seeds) + Payload(found) && payload <= MAX_PAYLOAD_BYTES
  }

  /** All that the loop keeps. */
  ghost predicate Progress(root: Node, x: Context, pending: seq<Item>, hi: nat, visited: seq<Found>,
                           commands: seq<Command>, candidates: nat, payload: nat)
  {
    && Queued(pending, hi)
    && Balanced(visited, WalkItems(pending, x), Walk(root, [], x))
    && Accounted(x, hi, |visited|, CommandsOf(visited), commands, candidates, payload)
  }

  lemma AccountMore(x: Context, hi: nat, visited: nat, found: seq<Command>, commands: seq<Command>, candidates: nat,
                    payload: nat,
                    more: seq<Command>, hi': nat)
    requires Accounted(x, hi, visited, found, commands, candidates, payload)
    requires hi' <= hi && forall k :: 0 <= k < |more| ==> hi' <= more[k].start
    requires candidates < MAX_CANDIDATES && payload + Payload(more) <= MAX_PAYLOAD_BYTES
    ensures Accounted(x, hi', visited + 1, found + more, commands + more, candidates + 1, payload + Payload(more))
  {
    Associative(x.seeds, found, more);
    PayloadConcat(found, more);
  }

  /** The last pending item comes off the stack, and its walk off the end of what is coming. */
  lemma PopItem(pending: seq<Item>, x: Context)
    requires pending != []
    ensures var i := pending[|pending| - 1];
            WalkItems(pending, x) == WalkItems(pending[..|pending| - 1], x) + Walk(i.node, i.ancestors, x)
  {
    var rest, i := pending[..|pending| - 1], pending[|pending| - 1];
    assert pending == rest + [i] && [i][1..] == [];
    WalkItemsConcat(rest, [i], x);
    Nothing(Walk(i.node, i.ancestors, x));
  }

  /** A node that contributes nothing, children included. */
  lemma SkipItem(root: Node, x: Context, pending: seq<Item>, hi: nat, visited: seq<Found>, commands: seq<Command>,
                 candidates: nat, payload: nat)
    requires pending != [] && Progress(root, x, pending, hi, visited, commands, candidates, payload)
    requires var i := pending[|pending| - 1]; Walk(i.node, i.ancestors, x) == []
    ensures Progress(root, x, pending[..|pending| - 1], hi, visited, commands, candidates, payload)
  {
    hide Walk;
    PopItem(pending, x);
    Nothing(WalkItems(pending[..|pending| - 1], x));
    var last := pending[|pending| - 1].node;
    QueuedUp(pending[..|pending| - 1], last.start, hi);
  }

  /** A node that is only looked into. */
  lemma OpenItem(root: Node, x: Context, pending: seq<Item>, hi: nat, visited: seq<Found>, commands: seq<Command>,
                 candidates: nat, payload: nat)
    requires pending != [] && Progress(root, x, pending, hi, visited, commands, candidates, payload)
    requires var i := pending[|pending| - 1];
             Walk(i.node, i.ancestors, x) == WalkAll(i.node.children, i.ancestors + [i.node], x)
    ensures var i := pending[|pending| - 1];
            Progress(root, x, pending[..|pending| - 1] + ItemsOf(i.node.children, i.ancestors + [i.node]), hi, visited,
                commands, candidates, payload)
  {
    hide Walk;
    var rest, i := pending[..|pending| - 1], pending[|pending| - 1];
    var items := ItemsOf(i.node.children, i.ancestors + [i.node]);
    PopItem(pending, x);
    ItemsWalkAll(i.node.children, i.ancestors + [i.node], x);
    WalkItemsConcat(rest, items, x);
    QueuedChildren(rest, i.node.children, i.ancestors + [i.node], i.node.start, i.node.end);
    QueuedUp(rest + items, i.node.end, hi);
  }

  /** A literal counts and its command, if it has one, is collected. */
  lemma TakeVisit(root: Node, x: Context, pending: seq<Item>, hi: nat, visited: seq<Found>, commands: seq<Command>,
                  candidates: nat, payload: nat,
                  f: Found, inner: seq<Found>, hi': nat)
    requires pending != [] && Progress(root, x, pending, hi, visited, commands, candidates, payload)
    requires var i := pending[|pending| - 1]; Walk(i.node, i.ancestors, x) == [f] + inner
    requires hi' <= hi && forall k :: 0 <= k < |CommandsOf([f])| ==> hi' <= CommandsOf([f])[k].start
    requires Small(f) && candidates < MAX_CANDIDATES && payload + Payload(CommandsOf([f])) <= MAX_PAYLOAD_BYTES
    ensures Balanced(visited + [f], WalkItems(pending[..|pending| - 1], x) + inner, Walk(root, [], x))
    ensures Accounted(x, hi', |visited + [f]|, CommandsOf(visited + [f]), commands + CommandsOf([f]), candidates + 1,
              payload + Payload(CommandsOf([f])))
  {
    hide Walk;
    hide Small;
    hide CommandsOf;
    hide Payload;
    hide Balanced;
    hide Accounted;
    hide WalkItems;
    hide Queued;
    PopItem(pending, x);
    Visit(visited, WalkItems(pending[..|pending| - 1], x), f, inner, Walk(root, [], x));
    CommandsConcat(visited, [f]);
    AccountMore(x, hi, |visited|, CommandsOf(visited), commands, candidates, payload, CommandsOf([f]), hi');
  }

  /** A literal with a value: nothing inside it is looked at. */
  lemma TakeValued(root: Node, x: Context, pending: seq<Item>, hi: nat, visited: seq<Found>, commands: seq<Command>,
                   candidates: nat, payload: nat, f: Found)
    requires pending != [] && Progress(root, x, pending, hi, visited, commands, candidates, payload)
    requires var i := pending[|pending| - 1]; f.node == i.node && f.value.Some? && Walk(i.node, i.ancestors, x) == [f]
    requires Small(f) && candidates < MAX_CANDIDATES && payload + Payload(CommandsOf([f])) <= MAX_PAYLOAD_BYTES
    ensures Progress(root, x, pending[..|pending| - 1], f.node.start, visited + [f], commands + CommandsOf([f]),
                     candidates + 1, payload + Payload(CommandsOf([f])))
  {
    hide Walk;
    hide Small;
    hide CommandsOf;
    hide Payload;
    hide Balanced;
    hide Accounted;
    hide WalkItems;
    Nothing([f]);
    TakeStarts(f);
    TakeVisit(root, x, pending, hi, visited, commands, candidates, payload, f, [], f.node.start);
    Nothing(WalkItems(pending[..|pending| - 1], x));
  }

  /** A literal without a value: it counts, and its parts are looked at. */
  lemma TakeOpened(root: Node, x: Context, pending: seq<Item>, hi: nat, visited: seq<Found>, commands: seq<Command>,
                   candidates: nat, payload: nat, f: Found)
    requires pending != [] && Progress(root, x, pending, hi, visited, commands, candidates, payload)
    requires var i := pending[|pending| - 1];
             f == Found(i.node, None)
               && Walk(i.node, i.ancestors, x) == [f] + WalkAll(i.node.children, i.ancestors + [i.node], x)
    requires Small(f) && candidates < MAX_CANDIDATES
    ensures var i := pending[|pending| - 1];
            Progress(root, x, pending[..|pending| - 1] + ItemsOf(i.node.children, i.ancestors + [i.node]), hi,
                visited + [f], commands, candidates + 1, payload)
  {
    hide Walk;
    hide Small;
    hide Balanced;
    hide WalkItems;
    var rest, i := pending[..|pending| - 1], pending[|pending| - 1];
    var items := ItemsOf(i.node.children, i.ancestors + [i.node]);
    assert CommandsOf([f]) == [];
    hide CommandsOf;
    TakeVisit(root, x, pending, hi, visited, commands, candidates, payload, f,
        WalkAll(i.node.children, i.ancestors + [i.node], x), hi);
    Nothing(commands);
    hide Accounted;
    ItemsWalkAll(i.node.children, i.ancestors + [i.node], x);
    WalkItemsConcat(rest, items, x);
    TakeQueued(rest, i, hi);
  }

  lemma TakeStarts(f: Found)
    ensures forall k :: 0 <= k < |CommandsOf([f])| ==> CommandsOf([f])[k].start == f.node.start && f.value.Some?
  {
    assert [f][1..] == [];
  }

  lemma TakeQueued(rest: seq<Item>, i: Item, hi: nat)
    requires Queued(rest, i.node.start) && WellFormed(i.node) && i.node.end <= hi
    ensures Queued(rest + ItemsOf(i.node.children, i.ancestors + [i.node]), hi)
  {
    QueuedChildren(rest, i.node.children, i.ancestors + [i.node], i.node.start, i.node.end);
    QueuedUp(rest + ItemsOf(i.node.children, i.ancestors + [i.node]), i.node.end, hi);
  }

  /** Only the seeds can have the range of a pending literal. */
  lemma OnlySeedsMatch(seeds: seq<Command>, found: seq<Command>, n: Node, hi: nat)
    requires n.start < n.end <= hi && forall k :: 0 <= k < |found| ==> hi <= found[k].start
    ensures Seeded(n, seeds + found) <==> Seeded(n, seeds)
  {
    var all := seeds + found;
    if Seeded(n, all) {
      forall j | |seeds| <= j < |all| ensures !SameRange(n, all[j]) { assert all[j] == found[j - |seeds|]; }
      var k :| 0 <= k < |all| && SameRange(n, all[k]);
      assert all[k] == seeds[k];
    }
    if Seeded(n, seeds) {
      var k :| 0 <= k < |seeds| && SameRange(n, seeds[k]);
      assert SameRange(n, all[k]);
    }
  }

  /** The seeds fit the limits and touch none of the commands of the walk. */
  predicate SeedsApart(root: Node, x: Context) {
    && |x.seeds| <= 1 && Payload(x.seeds) <= MAX_PAYLOAD_BYTES
    && forall s :: s in x.seeds ==>
         s.start < s.end && forall k :: 0 <= k < |CommandsOf(Walk(root, [], x))| ==>
             Apart(s, CommandsOf(Walk(root, [], x))[k])
  }

  /** The whole walk breaks this limit. */
  ghost predicate Exceeds(l: Limit, seeds: seq<Command>, fs: seq<Found>) {
    match l
    case LiteralCount => |seeds| + |fs| > 128
    case LiteralBytes => exists f :: f in fs && f.node.end - f.node.start > 65536
    case AggregateBytes => Payload(seeds) + Payload(CommandsOf(fs)) > 65536
    case _ => false
  }

  /** The expected answer. */
  ghost predicate Collects(root: Node, x: Context, r: Result<seq<Command>, Limit>)
    requires WellFormed(root)
  {
    var whole := Walk(root, [], x);
    && (r.Ok? <==> Affordable(x.seeds, whole))
    && (r.Err? ==> Exceeds(r.error, x.seeds, whole))
    && (r.Ok? ==> InOrder(CommandsOf(whole)) && r.value == Placed(x.seeds, CommandsOf(whole)) && Disjoint(r.value))
  }

  // -------------------------------------------------- exceeding a limit

  /** At a literal, one more candidate, its size, or its payload breaks a limit of the whole walk. */
  lemma LimitExceeded(root: Node, x: Context, pending: seq<Item>, hi: nat, visited: seq<Found>, commands: seq<Command>,
                      candidates: nat, payload: nat,
                      f: Found, inner: seq<Found>)
    requires pending != [] && Progress(root, x, pending, hi, visited, commands, candidates, payload)
    requires var i := pending[|pending| - 1]; Walk(i.node, i.ancestors, x) == [f] + inner
    ensures candidates == MAX_CANDIDATES ==> Exceeds(LiteralCount, x.seeds, Walk(root, [], x))
    ensures !Small(f) ==> !AllSmall(Walk(root, [], x))
    ensures payload + Payload(CommandsOf([f])) > MAX_PAYLOAD_BYTES && Small(f) ==>
              Exceeds(AggregateBytes, x.seeds, Walk(root, [], x))
  {
    hide Walk;
    hide WalkItems;
    hide Queued;
    hide CommandsOf;
    hide Payload;
    hide BalancedCommands;
    var before, whole := WalkItems(pending[..|pending| - 1], x), Walk(root, [], x);
    PopItem(pending, x);
    AllSmallConcat(before, [f] + inner);
    AllSmallConcat([f], inner);
    assert AllSmall([f]) ==> Small([f][0]);
    if Small(f) {
      Visit(visited, before, f, inner, whole);
      CommandsConcat(visited, [f]);
      PayloadConcat(CommandsOf(visited), CommandsOf([f]));
      BalancedPayload(CommandsOf(visited + [f]), CommandsOf(before + inner), CommandsOf(whole));
    }
  }

  lemma BalancedPayload(visited: seq<Command>, coming: seq<Command>, whole: seq<Command>)
    requires BalancedCommands(visited, coming, whole)
    ensures Payload(visited) <= Payload(whole)
  {}

  lemma LoadOfOne(i: Item)
    ensures Load([i]) == 1 + |BelowAll(i.node.children)|
  {
    assert [i][1..] == [];
  }

  lemma LoadPop(pending: seq<Item>)
    requires pending != []
    ensures var i := pending[|pending| - 1];
            && Load(pending[..|pending| - 1]) < Load(pending)
            && Load(pending[..|pending| - 1] + ItemsOf(i.node.children, i.ancestors + [i.node])) < Load(pending)
  {
    hide Load;
    hide ItemsOf;
    var rest, i := pending[..|pending| - 1], pending[|pending| - 1];
    assert pending == rest + [i];
    LoadOfOne(i);
    LoadConcat(rest, [i]);
    LoadConcat(rest, ItemsOf(i.node.children, i.ancestors + [i.node]));
    LoadChildren(i.node.children, i.ancestors + [i.node]);
  }

  lemma BalancedStart(whole: seq<Found>)
    ensures Balanced([], whole, whole)
  {
    hide Small;
    assert CommandsOf([]) == [] && Payload([]) == 0;
    hide CommandsOf;
    hide Payload;
  }

  lemma Start(root: Node, x: Context)
    requires WellFormed(root) && SeedsApart(root, x)
    ensures Progress(root, x, [Item(root, [])], root.end, [], x.seeds, |x.seeds|, Payload(x.seeds))
  {
    assert |x.seeds| <= 1 && Payload(x.seeds) <= MAX_PAYLOAD_BYTES;
    hide SeedsApart;
    var items := [Item(root, [])];
    assert items[1..] == [] && items[..0] == [];
    assert Queued(items, root.end);
    hide Queued;
    assert WalkItems(items, x) == Walk(root, [], x) + [];
    Nothing(Walk(root, [], x));
    Nothing(x.seeds);
    BalancedStart(Walk(root, [], x));
    assert CommandsOf([]) == [] && Payload([]) == 0;
    hide Walk;
    hide WalkItems;
    hide Balanced;
    hide CommandsOf;
    hide Payload;
    hide WellFormed;
  }

  /** When nothing is pending the commands are the walk's, and sorting puts them in source order. */
  lemma Finish(root: Node, x: Context, hi: nat, visited: seq<Found>, commands: seq<Command>, candidates: nat,
               payload: nat)
    requires WellFormed(root) && SeedsApart(root, x)
    requires Progress(root, x, [], hi, visited, commands, candidates, payload)
    ensures Collects(root, x, Ok(SortByStart(commands)))
  {
    hide Walk;
    WalkWithin(root, [], x);
    DisjointInOrder(CommandsOf(Walk(root, [], x)));
    SortedIsPlaced(x.seeds, CommandsOf(visited), CommandsOf(Walk(root, [], x)));
  }

  /** The pending node's walk, by what kind of node it is. */
  lemma WalkCases(i: Item, x: Context)
    ensures var n := i.node;
            var inner := WalkAll(n.children, i.ancestors + [n], x);
            var value := StaticLiteral(n, ParentOf(i.ancestors), x.lang, 0);
            Walk(n, i.ancestors, x) ==
            if n.kind == Comment then []
            else if !n.IsString() then inner
            else if Seeded(n, x.seeds) || Owned(n, i.ancestors, x.starts, 64) then []
            else if value.Some? then [Found(n, value)] else [Found(n, None)] + inner
  {
    Nothing([Found(i.node, StaticLiteral(i.node, ParentOf(i.ancestors), x.lang, 0))]);
    hide Owned;
    hide StaticLiteral;
  }

  /** A decoded literal that looks like shell text is a command; any other one only counts. */
  lemma TakeDecoded(root: Node, x: Context, pending: seq<Item>, hi: nat, visited: seq<Found>,
                    commands: seq<Command>, candidates: nat, payload: nat, f: Found)
    requires pending != [] && Progress(root, x, pending, hi, visited, commands, candidates, payload)
    requires var i := pending[|pending| - 1]; f.node == i.node && f.value.Some? && Walk(i.node, i.ancestors, x) == [f]
    requires Small(f) && candidates < MAX_CANDIDATES
    requires f.Marked() ==> payload + Utf8Length(f.value.value) <= MAX_PAYLOAD_BYTES
    ensures var rest := pending[..|pending| - 1];
            if f.Marked() then
              Progress(root, x, rest, f.node.start, visited + [f],
                  commands + [Command(f.value.value, f.node.start, f.node.end)],
                       candidates + 1, payload + Utf8Length(f.value.value))
            else Progress(root, x, rest, f.node.start, visited + [f], commands, candidates + 1, payload)
  {
    hide *;
    FoundCommands(f);
    AtMostPayload(root, x, pending, hi, visited, commands, candidates, payload);
    TakeValued(root, x, pending, hi, visited, commands, candidates, payload, f);
    Nothing(commands);
  }

  /** A literal that the loop stops at breaks the limit in question for the whole walk. */
  lemma StopsAt(root: Node, x: Context, pending: seq<Item>, hi: nat, visited: seq<Found>,
                commands: seq<Command>, candidates: nat, payload: nat, f: Found, inner: seq<Found>)
    requires pending != [] && Progress(root, x, pending, hi, visited, commands, candidates, payload)
    requires var i := pending[|pending| - 1]; Walk(i.node, i.ancestors, x) == [f] + inner
    ensures candidates >= MAX_CANDIDATES ==> Exceeds(LiteralCount, x.seeds, Walk(root, [], x))
    ensures !Small(f) ==> Exceeds(LiteralBytes, x.seeds, Walk(root, [], x))
    ensures Small(f) && f.Marked() && payload + Utf8Length(f.value.value) > MAX_PAYLOAD_BYTES ==>
              Exceeds(AggregateBytes, x.seeds, Walk(root, [], x))
  {
    hide *;
    FoundCommands(f);
    AtMostCandidates(root, x, pending, hi, visited, commands, candidates, payload);
    LimitExceeded(root, x, pending, hi, visited, commands, candidates, payload, f, inner);
    if !Small(f) { TooWide(x.seeds, Walk(root, [], x)); }
  }

  lemma TooWide(seeds: seq<Command>, fs: seq<Found>)
    requires !AllSmall(fs)
    ensures Exceeds(LiteralBytes, seeds, fs)
  {}

  lemma ExceededIsRefused(l: Limit, seeds: seq<Command>, fs: seq<Found>)
    requires Exceeds(l, seeds, fs)
    ensures !Affordable(seeds, fs)
  {
    hide Payload;
    hide CommandsOf;
    if l == LiteralBytes {
      var f :| f in fs && f.node.end - f.node.start > 65536;
      assert !Small(f);
    }
  }

  /** The stack loop. It succeeds exactly when the whole walk is within every limit, and then
      returns the walk's commands and the seed in source order. */
  method Collect(root: Node, x: Context) returns (r: Result<seq<Command>, Limit>)
    requires WellFormed(root) && SeedsApart(root, x)
    ensures Collects(root, x, r)
  {
    hide Walk;
    hide WalkAll;
    hide Progress;
    hide Owned;
    hide StaticLiteral;
    hide ContainsMarker;
    hide Utf8Length;
    hide WellFormed;
    hide SeedsApart;
    hide Collects;
    hide Affordable;
    hide Exceeds;
    hide Load;
    hide ItemsOf;
    hide CommandsOf;
    hide Payload;
    hide Seeded;
    hide SortByStart;
    var commands := x.seeds;
    var pending := [Item(root, [])];
    var candidates: nat := |commands|;
    var payload: nat := Payload(commands);
    ghost var visited: seq<Found>, hi := [], root.end;
    Start(root, x);
    while pending != []
      invariant Progress(root, x, pending, hi, visited, commands, candidates, payload)
      decreases Load(pending)
    {
      var item := pending[|pending| - 1];
      var node := item.node;
      LoadPop(pending);
      WalkCases(item, x);
      ghost var inner := WalkAll(node.children, item.ancestors + [node], x);
      if node.kind == Comment {
        SkipItem(root, x, pending, hi, visited, commands, candidates, payload);
        pending := pending[..|pending| - 1];
        continue;
      }
      if node.IsString() {
        SeedsOnly(root, x, pending, hi, visited, commands, candidates, payload);
        var known := Seeded(node, commands);
        var owned := HasOwnedSink(node, item.ancestors, x.starts);
        if known || owned {
          SkipItem(root, x, pending, hi, visited, commands, candidates, payload);
          pending := pending[..|pending| - 1];
          continue;
        }
        var value := StaticLiteral(node, ParentOf(item.ancestors), x.lang, 0);
        ghost var f := Found(node, value);
        ghost var rest := if value.Some? then [] else inner;
        assert Walk(node, item.ancestors, x) == [f] + rest by { Nothing([f]); }
        if candidates + 1 > MAX_CANDIDATES {
          StopsAt(root, x, pending, hi, visited, commands, candidates, payload, f, rest);
          return Refuse(root, x, LiteralCount);
        }
        if node.end - node.start > MAX_PAYLOAD_BYTES {
          StopsAt(root, x, pending, hi, visited, commands, candidates, payload, f, rest);
          return Refuse(root, x, LiteralBytes);
        }
        if value.Some? {
          if ContainsMarker(value.value) {
            if payload + Utf8Length(value.value) > MAX_PAYLOAD_BYTES {
              StopsAt(root, x, pending, hi, visited, commands, candidates, payload, f, rest);
              return Refuse(root, x, AggregateBytes);
            }
            TakeDecoded(root, x, pending, hi, visited, commands, candidates, payload, f);
            payload := payload + Utf8Length(value.value);
            commands := commands + [Command(value.value, node.start, node.end)];
          } else {
            TakeDecoded(root, x, pending, hi, visited, commands, candidates, payload, f);
          }
          candidates := candidates + 1;
          visited, hi := visited + [f], node.start;
          pending := pending[..|pending| - 1];
          continue;
        }
        TakeOpened(root, x, pending, hi, visited, commands, candidates, payload, f);
        candidates := candidates + 1;
        visited := visited + [f];
      } else {
        OpenItem(root, x, pending, hi, visited, commands, candidates, payload);
      }
      pending := pending[..|pending| - 1] + ItemsOf(node.children, item.ancestors + [node]);
    }
    Finish(root, x, hi, visited, commands, candidates, payload);
    return Ok(SortByStart(commands));
  }

  function Refuse(root: Node, x: Context, l: Limit): (r: Result<seq<Command>, Limit>)
    requires WellFormed(root) && Exceeds(l, x.seeds, Walk(root, [], x))
    ensures Collects(root, x, r)
  {
    ExceededIsRefused(l, x.seeds, Walk(root, [], x));
    Err(l)
  }

  lemma FoundCommands(f: Found)
    ensures CommandsOf([f]) == if f.Marked() then [Command(f.value.value, f.node.start, f.node.end)] else []
    ensures Payload(CommandsOf([f])) == if f.Marked() then Utf8Length(f.value.value) else 0
  {
    assert [f][1..] == [];
    if f.Marked() { assert CommandsOf([f])[1..] == []; }
  }

  lemma SeedsOnly(root: Node, x: Context, pending: seq<Item>, hi: nat, visited: seq<Found>, commands: seq<Command>,
                  candidates: nat, payload: nat)
    requires pending != [] && Progress(root, x, pending, hi, visited, commands, candidates, payload)
    ensures var n := pending[|pending| - 1].node; n.IsString() ==> (Seeded(n, commands) <==> Seeded(n, x.seeds))
  {
    var n := pending[|pending| - 1].node;
    if n.IsString() { OnlySeedsMatch(x.seeds, CommandsOf(visited), n, hi); }
  }

  lemma AtMostCandidates(root: Node, x: Context, pending: seq<Item>, hi: nat, visited: seq<Found>,
                         commands: seq<Command>, candidates: nat, payload: nat)
    requires Progress(root, x, pending, hi, visited, commands, candidates, payload)
    ensures candidates <= MAX_CANDIDATES
  {}

  lemma AtMostPayload(root: Node, x: Context, pending: seq<Item>, hi: nat, visited: seq<Found>, commands: seq<Command>,
                      candidates: nat, payload: nat)
    requires Progress(root, x, pending, hi, visited, commands, candidates, payload)
    ensures payload <= MAX_PAYLOAD_BYTES
  {}
}

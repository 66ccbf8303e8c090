/** Which literals the walk of Worklist finds: those at the end of a route from the root that nothing
    on the way stops. */
module Routes {
  import opened Decoding
  import opened LiteralBindings
  import opened Syntax
  import opened Wrappers
  import opened Worklist

  function Last(path: seq<Node>): Node
    requires path != []
  {
    path[|path| - 1]
  }

  function Front(path: seq<Node>): seq<Node>
    requires path != []
  {
    path[..|path| - 1]
  }

  /** A literal that is neither the seed's own nor handed to a sink that the scan of sinks covers. */
  ghost predicate Eligible(l: Node, ancestors: seq<Node>, x: Context) {
    l.IsString() && !Seeded(l, x.seeds) && !UnderSink(l, ancestors, x.starts, 64)
  }

  function ValueAt(l: Node, ancestors: seq<Node>, x: Context): Option<string> {
    StaticLiteral(l, ParentOf(ancestors), x.lang, 0)
  }

  /** Comments and decodable literals are the end; other literals are looked into if they are eligible. */
  ghost predicate Passes(n: Node, ancestors: seq<Node>, x: Context) {
    n.kind != Comment && (n.IsString() ==> Eligible(n, ancestors, x) && ValueAt(n, ancestors, x).None?)
  }

  /** From its first node a path goes down, through nodes that let it pass, to an eligible literal. */
  ghost predicate IsRoute(path: seq<Node>, ancestors: seq<Node>, x: Context)
    decreases |path|
  {
    if path == [] then false
    else if |path| == 1 then Eligible(path[0], ancestors, x)
    else
      && Passes(path[0], ancestors, x) && path[1] in path[0].children && path[1].named
      && IsRoute(path[1..], ancestors + [path[0]], x)
  }

  function FoundAt(path: seq<Node>, ancestors: seq<Node>, x: Context): Found
    requires path != []
  {
    Found(Last(path), ValueAt(Last(path), ancestors + Front(path), x))
  }

  lemma RouteStep(n: Node, path: seq<Node>, ancestors: seq<Node>, x: Context)
    requires path != [] && Passes(n, ancestors, x) && path[0] in n.children && path[0].named
    requires IsRoute(path, ancestors + [n], x)
    ensures IsRoute([n] + path, ancestors, x) && FoundAt([n] + path, ancestors, x) == FoundAt(path, ancestors + [n], x)
  {
    hide Passes;
    assert ([n] + path)[1..] == path;
    assert ancestors + Front([n] + path) == (ancestors + [n]) + Front(path);
  }

  lemma RouteTail(path: seq<Node>, ancestors: seq<Node>, x: Context)
    requires |path| > 1
    ensures FoundAt(path, ancestors, x) == FoundAt(path[1..], ancestors + [path[0]], x)
  {
    assert ancestors + Front(path) == (ancestors + [path[0]]) + Front(path[1..]);
  }

  /** The walk of a node, by what the node is. */
  lemma WalkByNode(n: Node, ancestors: seq<Node>, x: Context)
    requires Ascending(x.starts)
    ensures var inner := WalkAll(n.children, ancestors + [n], x);
            Walk(n, ancestors, x) ==
            (if Eligible(n, ancestors, x) && n.kind != Comment then [FoundAt([n], ancestors, x)] else [])
              + if Passes(n, ancestors, x) then inner else []
  {
    OwnedMeans(n, ancestors, x.starts, 64);
    hide WalkAll;
    hide Owned;
    hide UnderSink;
    hide Seeded;
    hide StaticLiteral;
    assert ancestors + Front([n]) == ancestors;
  }

  /** Everything the walk finds lies at the end of a route. */
  lemma {:induction false} FoundHasRoute(n: Node, ancestors: seq<Node>, x: Context, f: Found) returns (path: seq<Node>)
    requires Ascending(x.starts) && f in Walk(n, ancestors, x)
    ensures path != [] && path[0] == n && IsRoute(path, ancestors, x) && f == FoundAt(path, ancestors, x)
    decreases n, 1
  {
    WalkByNode(n, ancestors, x);
    hide Walk;
    hide Eligible;
    hide Passes;
    hide FoundAt;
    path := [n];
    if f != FoundAt([n], ancestors, x) || !Eligible(n, ancestors, x) {
      var rest := FoundBelow(n.children, ancestors + [n], x, f);
      RouteStep(n, rest, ancestors, x);
      path := [n] + rest;
    }
  }

  lemma {:induction false} FoundBelow(ns: seq<Node>, ancestors: seq<Node>, x: Context, f: Found)
    returns (path: seq<Node>)
    requires Ascending(x.starts) && f in WalkAll(ns, ancestors, x)
    ensures path != [] && path[0] in ns && path[0].named && IsRoute(path, ancestors, x)
            && f == FoundAt(path, ancestors, x)
    decreases ns, 0
  {
    hide Walk;
    hide IsRoute;
    hide FoundAt;
    if f in WalkAll(ns[1..], ancestors, x) {
      path := FoundBelow(ns[1..], ancestors, x, f);
    } else {
      path := FoundHasRoute(ns[0], ancestors, x, f);
    }
  }

  /** What lies at the end of a route is found. */
  lemma {:induction false} RouteIsFound(path: seq<Node>, ancestors: seq<Node>, x: Context)
    requires Ascending(x.starts) && IsRoute(path, ancestors, x)
    ensures FoundAt(path, ancestors, x) in Walk(path[0], ancestors, x)
    decreases |path|
  {
    WalkByNode(path[0], ancestors, x);
    hide Walk;
    hide FoundAt;
    hide Passes;
    if |path| == 1 {
      assert path == [path[0]];
      EligibleIsNoComment(path[0], ancestors, x);
    } else {
      RouteIsFound(path[1..], ancestors + [path[0]], x);
      WalkAllMember(path[0].children, path[1], ancestors + [path[0]], x, FoundAt(path[1..], ancestors + [path[0]], x));
      RouteTail(path, ancestors, x);
    }
  }

  lemma EligibleIsNoComment(l: Node, ancestors: seq<Node>, x: Context)
    requires Eligible(l, ancestors, x)
    ensures l.kind != Comment
  {}

  lemma {:induction false} WalkAllMember(ns: seq<Node>, c: Node, ancestors: seq<Node>, x: Context, f: Found)
    requires c in ns && c.named && f in Walk(c, ancestors, x)
    ensures f in WalkAll(ns, ancestors, x)
    decreases |ns|
  {
    hide Walk;
    if ns[0] != c { WalkAllMember(ns[1..], c, ancestors, x, f); }
  }

  /** The commands are the marked values. */
  lemma {:induction false} CommandsAreMarked(fs: seq<Found>, c: Command)
    ensures c in CommandsOf(fs) <==>
              exists f :: f in fs && f.Marked() && c == Command(f.value.value, f.node.start, f.node.end)
    decreases |fs|
  {
    if fs != [] {
      CommandsAreMarked(fs[1..], c);
      assert fs == [fs[0]] + fs[1..];
    }
  }

  /** A route along which the command `c` is found. */
  ghost predicate Carries(path: seq<Node>, root: Node, x: Context, c: Command) {
    && path != [] && path[0] == root && IsRoute(path, [], x)
    && var f := FoundAt(path, [], x);
       f.value.Some? && Substitutes(f.value.value) && c == Command(f.value.value, f.node.start, f.node.end)
  }

  /** The walk's commands are exactly those that some route carries. */
  lemma WalkIsExact(root: Node, x: Context, c: Command)
    requires Ascending(x.starts)
    ensures c in CommandsOf(Walk(root, [], x)) <==> exists path :: Carries(path, root, x, c)
  {
    hide Walk;
    hide IsRoute;
    hide FoundAt;
    hide CommandsOf;
    var fs := Walk(root, [], x);
    CommandsAreMarked(fs, c);
    forall f: Found | f.value.Some? ensures f.Marked() <==> Substitutes(f.value.value) { MarkerExact(f.value.value); }
    hide Substitutes;
    hide ContainsMarker;
    if f :| f in fs && f.Marked() && c == Command(f.value.value, f.node.start, f.node.end) {
      var path := FoundHasRoute(root, [], x, f);
      assert Carries(path, root, x, c);
    }
    if path :| Carries(path, root, x, c) {
      RouteIsFound(path, [], x);
    }
  }
}

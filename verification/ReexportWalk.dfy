/**
 The re-export walk of the shared-state checker: does a name in a module lead,
 through `pub use` edges, to a registered static?
 */
module ReexportWalk {
  import opened Basics

  type Module = seq<string>
  type Node = (Module, string)

  /** Exact re-exports rename; glob re-exports keep the name. */
  datatype Exports = Exports(exact: map<Node, seq<Node>>, globs: map<Module, seq<Module>>)

  function Successors(x: Exports, n: Node): seq<Node> {
    var globbed := if n.0 in x.globs then x.globs[n.0] else [];
    (if n in x.exact then x.exact[n] else []) +
    seq(|globbed|, i requires 0 <= i < |globbed| => (globbed[i], n.1))
  }

  /** One `pub use` leads from `a` to `b`. */
  ghost predicate Edge(x: Exports, a: Node, b: Node) {
    || (a in x.exact && b in x.exact[a])
    || (a.0 in x.globs && b.0 in x.globs[a.0] && b.1 == a.1)
  }

  ghost predicate IsPath(x: Exports, path: seq<Node>) {
    path != [] && forall i :: 0 <= i < |path| - 1 ==> Edge(x, path[i], path[i + 1])
  }

  predicate IsStatic(n: Node, home: Module, identifiers: set<string>) {
    n.0 == home && n.1 in identifiers
  }

  ghost predicate Leads(x: Exports, start: Node, end: Node) {
    exists path :: IsPath(x, path) && path[0] == start && path[|path| - 1] == end
  }

  ghost predicate Reaches(x: Exports, start: Node, home: Option<Module>, identifiers: set<string>) {
    home.Some? && exists name :: name in identifiers && Leads(x, start, (home.value, name))
  }

  lemma SuccessorsAreEdges(x: Exports, a: Node, b: Node)
    ensures b in Successors(x, a) <==> Edge(x, a, b)
  {
    var globbed := if a.0 in x.globs then x.globs[a.0] else [];
    var named := seq(|globbed|, i requires 0 <= i < |globbed| => (globbed[i], a.1));
    if a.0 in x.globs && b.0 in globbed && b.1 == a.1 {
      var i :| 0 <= i < |globbed| && globbed[i] == b.0;
      assert named[i] == b;
    }
  }

  lemma LeadsOnward(x: Exports, start: Node, a: Node, b: Node)
    requires Leads(x, start, a) && Edge(x, a, b)
    ensures Leads(x, start, b)
  {
    var path :| IsPath(x, path) && path[0] == start && path[|path| - 1] == a;
    var longer := path + [b];
    assert IsPath(x, longer) && longer[0] == start && longer[|longer| - 1] == b;
  }

  /** Nothing leads out of a set that is closed under edges. */
  lemma {:induction false} ClosedTraps(x: Exports, closed: set<Node>, path: seq<Node>)
    requires IsPath(x, path) && path[0] in closed
    requires forall a, b :: a in closed && Edge(x, a, b) ==> b in closed
    ensures path[|path| - 1] in closed
    decreases |path|
  {
    if |path| > 1 {
      assert Edge(x, path[0], path[1]);
      assert forall i :: 0 <= i < |path| - 2 ==> path[1..][i] == path[i + 1] && Edge(x, path[i + 1], path[i + 2]);
      ClosedTraps(x, closed, path[1..]);
    }
  }

  // ----- a finite universe for termination ------------------------------------

  /** All the nodes a walk from `start` can ever meet, and maybe more. */
  lemma Universe(x: Exports, start: Node) returns (u: set<Node>)
    ensures start in u
    ensures forall a, b :: a in u && Edge(x, a, b) ==> b in u
  {
    var targets := set a, b | a in x.exact && b in x.exact[a] :: b;
    var modules := {start.0} + (set t | t in targets :: t.0) + (set m, d | m in x.globs && d in x.globs[m] :: d);
    var names := {start.1} + (set t | t in targets :: t.1);
    u := set m, n | m in modules && n in names :: (m, n);
    forall a, b | a in u && Edge(x, a, b) ensures b in u {
      assert b == (b.0, b.1);
      if a in x.exact && b in x.exact[a] {
        assert b in targets;
      }
    }
  }

  // ----- the walk -------------------------------------------------------------

  /** What the walk has established about the nodes it has met. */
  ghost predicate Walked(x: Exports, start: Node, seen: set<Node>, pending: seq<Node>) {
    && (forall n :: n in pending ==> Leads(x, start, n))
    && (forall a, b :: a in seen && Edge(x, a, b) ==> b in seen || b in pending)
    && (start in seen || start in pending)
  }

  lemma ExpandNode(x: Exports, start: Node, seen: set<Node>, pending: seq<Node>, n: Node)
    requires Walked(x, start, seen, pending + [n])
    ensures Walked(x, start, seen + {n}, pending + Successors(x, n))
  {
    var grown := pending + Successors(x, n);
    forall b ensures b in Successors(x, n) <==> Edge(x, n, b) {
      SuccessorsAreEdges(x, n, b);
    }
    assert n in pending + [n];
    forall m | m in grown ensures Leads(x, start, m) {
      if m in pending {
        assert m in pending + [n];
      } else {
        LeadsOnward(x, start, n, m);
      }
    }
  }

  lemma SkipSeen(x: Exports, start: Node, seen: set<Node>, pending: seq<Node>, n: Node)
    requires Walked(x, start, seen, pending + [n]) && n in seen
    ensures Walked(x, start, seen, pending)
  {
  }

  lemma ExhaustedWalk(x: Exports, start: Node, seen: set<Node>, end: Node)
    requires Walked(x, start, seen, []) && Leads(x, start, end)
    ensures end in seen
  {
    var path :| IsPath(x, path) && path[0] == start && path[|path| - 1] == end;
    ClosedTraps(x, seen, path);
  }

  lemma SuccessorsStay(x: Exports, u: set<Node>, n: Node)
    requires n in u && forall a, b :: a in u && Edge(x, a, b) ==> b in u
    ensures forall b :: b in Successors(x, n) ==> b in u
  {
  }

  /** The worklist: newest pending node first, each node expanded once. */
  method ReexportReaches(x: Exports, start: Node, home: Option<Module>, identifiers: set<string>)
      returns (found: bool)
    ensures found <==> Reaches(x, start, home, identifiers)
  {
    if home.None? {
      return false;
    }
    var seen: set<Node>, pending := {}, [start];
    ghost var universe := Universe(x, start);
    assert Leads(x, start, start) by { assert IsPath(x, [start]); }
    while pending != []
      invariant forall n :: n in pending ==> n in universe
      invariant forall n :: n in seen ==> !IsStatic(n, home.value, identifiers)
      invariant Walked(x, start, seen, pending)
      decreases |universe - seen|, |pending|
    {
      var current, rest := pending[|pending| - 1], pending[..|pending| - 1];
      assert pending == rest + [current];
      assert current in pending;
      if IsStatic(current, home.value, identifiers) {
        return true;
      }
      pending := rest;
      if current in seen {
        SkipSeen(x, start, seen, rest, current);
        continue;
      }
      ExpandNode(x, start, seen, rest, current);
      SuccessorsStay(x, universe, current);
      assert universe - seen == (universe - (seen + {current})) + {current};
      seen := seen + {current};
      pending := pending + Successors(x, current);
    }
    forall end | Leads(x, start, end) ensures end in seen {
      ExhaustedWalk(x, start, seen, end);
    }
    return false;
  }
}

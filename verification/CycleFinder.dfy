/**
 The cycle finder of the manifest scan: a depth-first search over the workspace's
 dependency graph with a stack of packages being visited and a set of finished ones.

 A graph maps each package to its dependencies, listed in the order the search
 reads them. A package that is only named as a dependency has none of its own.
 */
module CycleFinder {
  import opened Util

  type Graph = map<string, seq<string>>

  function Successors(g: Graph, node: string): seq<string>
  {
    if node in g then g[node] else []
  }

  ghost predicate Edge(g: Graph, a: string, b: string)
  {
    a in g && b in g[a]
  }

  ghost predicate IsPath(g: Graph, p: seq<string>)
  {
    forall i :: 0 <= i < |p| - 1 ==> Edge(g, p[i], p[i + 1])
  }

  /** A walk along at least one edge that comes back to where it started. */
  ghost predicate ClosedWalk(g: Graph, c: seq<string>)
  {
    |c| >= 2 && c[0] == c[|c| - 1] && IsPath(g, c)
  }

  /** A closed walk that visits nothing twice but its end; a self-loop is one. */
  ghost predicate SimpleCycle(g: Graph, c: seq<string>)
  {
    ClosedWalk(g, c) && Distinct(c[..|c| - 1])
  }

  ghost predicate Acyclic(g: Graph)
  {
    forall c: seq<string> :: !ClosedWalk(g, c)
  }

  /** Every node the search can meet. */
  ghost function Universe(g: Graph): set<string>
  {
    g.Keys + set k, n | k in g.Keys && n in g[k] :: n
  }

  /** Each node of `order` depends only on nodes before it. */
  ghost predicate Ranked(g: Graph, order: seq<string>)
  {
    forall i, n :: 0 <= i < |order| && Edge(g, order[i], n) ==> n in order[..i]
  }

  /** Along a path inside a ranked order, each step goes to an earlier place. */
  lemma {:induction false} WalkDescends(g: Graph, order: seq<string>, c: seq<string>, at: nat)
    requires Ranked(g, order) && IsPath(g, c) && |c| > 0
    requires at < |order| && order[at] == c[0]
    ensures |c| > 1 ==> c[|c| - 1] in order[..at]
    decreases |c|
  {
    if |c| > 1 {
      assert Edge(g, c[0], c[1]);
      var next :| 0 <= next < at && order[next] == c[1];
      WalkDescends(g, order, c[1..], next);
      assert c[1..][|c| - 2] == c[|c| - 1];
    }
  }

  /** A graph whose packages can all be ranked has no cycle. */
  lemma RankedIsAcyclic(g: Graph, order: seq<string>)
    requires Ranked(g, order) && Distinct(order)
    requires forall k :: k in g ==> k in order
    ensures Acyclic(g)
  {
    forall c: seq<string> | ClosedWalk(g, c) ensures false {
      assert Edge(g, c[0], c[1]);
      var at :| 0 <= at < |order| && order[at] == c[0];
      WalkDescends(g, order, c, at);
    }
  }

  /** A node whose dependencies are all ranked can be ranked next. */
  lemma RankedAppend(g: Graph, order: seq<string>, node: string)
    requires Ranked(g, order)
    requires forall n :: Edge(g, node, n) ==> n in order
    ensures Ranked(g, order + [node])
  {
    var more := order + [node];
    forall i, n | 0 <= i < |more| && Edge(g, more[i], n) ensures n in more[..i] {
      if i < |order| {
        assert more[..i] == order[..i];
      } else {
        assert more[..i] == order;
      }
    }
  }

  /** What holds of the nodes being visited. */
  ghost predicate Visiting(g: Graph, stack: seq<string>)
  {
    && IsPath(g, stack) && Distinct(stack)
    && (forall n :: n in stack ==> n in Universe(g))
  }

  /** What holds of the finished nodes, and of the order they finished in. */
  ghost predicate Finished(g: Graph, done: set<string>, order: seq<string>)
  {
    && (forall n :: n in done <==> n in order)
    && Distinct(order) && Ranked(g, order)
  }

  lemma VisitingPush(g: Graph, stack: seq<string>, node: string)
    requires Visiting(g, stack) && node in Universe(g) && node !in stack
    requires stack != [] ==> Edge(g, stack[|stack| - 1], node)
    ensures Visiting(g, stack + [node])
    ensures (set n | n in stack) < (set n | n in stack + [node]) <= Universe(g)
  {
    var before, after := set n | n in stack, set n | n in stack + [node];
    assert after == before + {node};
    assert node !in before;
  }

  lemma FinishedPush(g: Graph, done: set<string>, order: seq<string>, node: string)
    requires Finished(g, done, order) && node !in done
    requires forall n :: Edge(g, node, n) ==> n in done
    ensures Finished(g, done + {node}, order + [node])
  {
    RankedAppend(g, order, node);
  }

  lemma CloseCycle(g: Graph, stack: seq<string>, start: nat, node: string)
    requires Visiting(g, stack) && start < |stack| && stack[start] == node
    requires Edge(g, stack[|stack| - 1], node)
    ensures SimpleCycle(g, stack[start..] + [node])
  {
    var c := stack[start..] + [node];
    assert c[..|c| - 1] == stack[start..];
  }

  class Search {
    /** The nodes being visited, each a dependency of the one before it. */
    var stack: seq<string>
    var done: set<string>
    /** The order nodes entered `done` in. */
    ghost var order: seq<string>

    constructor ()
      ensures stack == [] && done == {} && order == []
    {
      stack, done, order := [], {}, [];
    }

    ghost predicate Valid(g: Graph)
      reads this
    {
      && Visiting(g, stack)
      && Finished(g, done, order)
      && (forall n :: n in stack ==> n !in done)
    }

    method Visit(g: Graph, node: string) returns (r: Option<seq<string>>)
      requires Valid(g) && node in Universe(g)
      requires stack != [] ==> Edge(g, stack[|stack| - 1], node)
      modifies this
      ensures r.Some? ==> SimpleCycle(g, r.value)
      ensures r.None? ==> Valid(g) && stack == old(stack) && node in done && old(done) <= done
      decreases Universe(g) - set n | n in stack
    {
      var start := 0;
      while start < |stack| && stack[start] != node
        invariant start <= |stack|
        invariant node !in stack[..start]
      {
        start := start + 1;
      }
      if start < |stack| {
        CloseCycle(g, stack, start, node);
        return Some(stack[start..] + [node]);
      }
      if node in done {
        return None;
      }
      VisitingPush(g, stack, node);
      stack := stack + [node];
      var next := Successors(g, node);
      var i := 0;
      while i < |next|
        invariant i <= |next|
        invariant Valid(g) && stack == old(stack) + [node] && old(done) <= done
        invariant forall k :: 0 <= k < i ==> next[k] in done
      {
        assert next[i] in Successors(g, node);
        assert node in g && next[i] in Universe(g);
        var found := Visit(g, next[i]);
        if found.Some? {
          return found;
        }
        i := i + 1;
      }
      assert node in stack;
      FinishedPush(g, done, order, node);
      stack := stack[..|stack| - 1];
      done := done + {node};
      order := order + [node];
      assert stack == old(stack);
      return None;
    }
  }

  /**
   A walk along the dependencies of `g` that closes at its end and not before, or `None` when none
   closes, and then only.
   */
  method FindCycle(g: Graph, keys: seq<string>) returns (r: Option<seq<string>>)
    requires forall k :: k in keys <==> k in g
    ensures r.Some? ==> SimpleCycle(g, r.value)
    ensures r.None? <==> Acyclic(g)
  {
    var search := new Search();
    var i := 0;
    while i < |keys|
      invariant i <= |keys|
      invariant fresh(search) && search.Valid(g)
      invariant forall k :: 0 <= k < i ==> keys[k] in search.done
    {
      assert keys[i] in g;
      search.stack := [];
      var found := search.Visit(g, keys[i]);
      if found.Some? {
        return found;
      }
      i := i + 1;
    }
    RankedIsAcyclic(g, search.order);
    return None;
  }
}

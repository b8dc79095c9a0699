/** Reachability over a finite directed graph given as an adjacency map.
    Both hierarchies of the RBAC core are walked this way: roles upward
    along parent links, permissions downward along child links. */
module Closure {

  /** The successors of `x`; a node that is not a key has none
      (Python's `edges.get(x, set())`). */
  function Next<T(!new)>(edges: map<T, set<T>>, x: T): set<T> {
    if x in edges then edges[x] else {}
  }

  /** Every node that is the target of some edge. */
  ghost function Targets<T(!new)>(edges: map<T, set<T>>): set<T> {
    set k, y | k in edges && y in edges[k] :: y
  }

  /** `w` is a non-empty walk: each node is a successor of the one before. */
  ghost predicate IsWalk<T(!new)>(edges: map<T, set<T>>, w: seq<T>) {
    |w| > 0 && forall i :: 0 <= i < |w| - 1 ==> w[i + 1] in Next(edges, w[i])
  }

  /** `x` is reached from some seed by a walk of zero or more edges. */
  ghost predicate Reachable<T(!new)>(edges: map<T, set<T>>, seeds: set<T>, x: T) {
    exists w :: IsWalk(edges, w) && w[0] in seeds && w[|w| - 1] == x
  }

  /** `s` already holds every successor of each of its nodes. */
  ghost predicate IsClosed<T(!new)>(edges: map<T, set<T>>, s: set<T>) {
    forall x :: x in s ==> Next(edges, x) <= s
  }

  /** The nodes reachable from `seeds`. A reachable node is a seed or an
      edge target, which bounds the comprehension. */
  ghost function ReachableSet<T(!new)>(edges: map<T, set<T>>, seeds: set<T>): set<T> {
    set x | x in seeds + Targets(edges) && Reachable(edges, seeds, x)
  }

  lemma SeedReachable<T(!new)>(edges: map<T, set<T>>, seeds: set<T>, x: T)
    requires x in seeds
    ensures Reachable(edges, seeds, x)
  {
    assert IsWalk(edges, [x]);
  }

  lemma StepReachable<T(!new)>(edges: map<T, set<T>>, seeds: set<T>, x: T, y: T)
    requires Reachable(edges, seeds, x)
    requires y in Next(edges, x)
    ensures Reachable(edges, seeds, y)
  {
    var w :| IsWalk(edges, w) && w[0] in seeds && w[|w| - 1] == x;
    var w' := w + [y];
    forall i | 0 <= i < |w'| - 1
      ensures w'[i + 1] in Next(edges, w'[i])
    {
      if i < |w| - 1 {
        assert w'[i] == w[i] && w'[i + 1] == w[i + 1];
      }
    }
    assert IsWalk(edges, w') && w'[0] in seeds && w'[|w'| - 1] == y;
  }

  lemma {:induction false} WalkStaysInClosed<T(!new)>(edges: map<T, set<T>>, s: set<T>, w: seq<T>)
    requires IsWalk(edges, w) && w[0] in s && IsClosed(edges, s)
    ensures w[|w| - 1] in s
    decreases |w|
  {
    if |w| > 1 {
      var v := w[..|w| - 1];
      assert IsWalk(edges, v) by {
        forall i | 0 <= i < |v| - 1
          ensures v[i + 1] in Next(edges, v[i])
        {
          assert v[i] == w[i] && v[i + 1] == w[i + 1];
        }
      }
      WalkStaysInClosed(edges, s, v);
      assert w[|w| - 1] in Next(edges, w[|w| - 2]);
    }
  }

  /** Every closed superset of the seeds contains every reachable node. */
  lemma ReachableInClosed<T(!new)>(edges: map<T, set<T>>, seeds: set<T>, s: set<T>, x: T)
    requires seeds <= s && IsClosed(edges, s)
    requires Reachable(edges, seeds, x)
    ensures x in s
  {
    var w :| IsWalk(edges, w) && w[0] in seeds && w[|w| - 1] == x;
    WalkStaysInClosed(edges, s, w);
  }

  lemma ReachableIsSeedOrTarget<T(!new)>(edges: map<T, set<T>>, seeds: set<T>, x: T)
    requires Reachable(edges, seeds, x)
    ensures x in seeds + Targets(edges)
  {
    var w :| IsWalk(edges, w) && w[0] in seeds && w[|w| - 1] == x;
    if |w| > 1 {
      var k := w[|w| - 2];
      assert x in Next(edges, k);
      assert k in edges && x in edges[k];
    }
  }

  lemma ReachableSetMembers<T(!new)>(edges: map<T, set<T>>, seeds: set<T>)
    ensures forall x :: x in ReachableSet(edges, seeds) <==> Reachable(edges, seeds, x)
  {
    forall x | Reachable(edges, seeds, x)
      ensures x in ReachableSet(edges, seeds)
    {
      ReachableIsSeedOrTarget(edges, seeds, x);
    }
  }

  /** The reachable set is the least closed superset of the seeds. */
  lemma ReachableSetIsLeast<T(!new)>(edges: map<T, set<T>>, seeds: set<T>)
    ensures seeds <= ReachableSet(edges, seeds)
    ensures IsClosed(edges, ReachableSet(edges, seeds))
    ensures forall s :: seeds <= s && IsClosed(edges, s) ==> ReachableSet(edges, seeds) <= s
  {
    var r := ReachableSet(edges, seeds);
    ReachableSetMembers(edges, seeds);
    forall x | x in seeds
      ensures x in r
    {
      SeedReachable(edges, seeds, x);
    }
    forall x, y | x in r && y in Next(edges, x)
      ensures y in r
    {
      StepReachable(edges, seeds, x, y);
    }
    forall s, x | seeds <= s && IsClosed(edges, s) && x in r
      ensures x in s
    {
      ReachableInClosed(edges, seeds, s, x);
    }
  }

  /** A closed superset of the seeds holding only reachable nodes is the
      reachable set: the three properties determine it. */
  lemma ReachableSetCharacterized<T(!new)>(edges: map<T, set<T>>, seeds: set<T>, s: set<T>)
    requires seeds <= s && IsClosed(edges, s)
    requires forall x :: x in s ==> Reachable(edges, seeds, x)
    ensures s == ReachableSet(edges, seeds)
  {
    ReachableSetMembers(edges, seeds);
    forall x | x in ReachableSet(edges, seeds)
      ensures x in s
    {
      ReachableInClosed(edges, seeds, s, x);
    }
  }

  /** More seeds never reach fewer nodes. */
  lemma ReachableSetMonotone<T(!new)>(edges: map<T, set<T>>, a: set<T>, b: set<T>)
    requires a <= b
    ensures ReachableSet(edges, a) <= ReachableSet(edges, b)
  {
    ReachableSetMembers(edges, a);
    ReachableSetMembers(edges, b);
    forall x | x in ReachableSet(edges, a)
      ensures x in ReachableSet(edges, b)
    {
      var w :| IsWalk(edges, w) && w[0] in a && w[|w| - 1] == x;
      assert w[0] in b;
    }
  }

  /** Closing an already closed set adds nothing. */
  lemma ReachableSetIdempotent<T(!new)>(edges: map<T, set<T>>, seeds: set<T>)
    ensures ReachableSet(edges, ReachableSet(edges, seeds)) == ReachableSet(edges, seeds)
  {
    var r := ReachableSet(edges, seeds);
    ReachableSetIsLeast(edges, seeds);
    ReachableSetIsLeast(edges, r);
    ReachableSetMonotone(edges, seeds, r);
  }

  /** Nothing is reachable from no seeds. */
  lemma ReachableSetOfNothing<T(!new)>(edges: map<T, set<T>>)
    ensures ReachableSet(edges, {}) == {}
  {
    ReachableSetMembers(edges, {});
  }

  // ---------------------------------------------------------------------
  // Worklist traversal: `done` holds the nodes already expanded, `work`
  // the nodes still queued (possibly repeated, possibly already done).

  /** What a worklist traversal from `seeds` keeps true between steps. */
  ghost predicate WorklistInv<T(!new)>(edges: map<T, set<T>>, seeds: set<T>, done: set<T>, work: seq<T>) {
    && done <= seeds + Targets(edges)
    && (forall x :: x in work ==> x in seeds + Targets(edges))
    && (forall x :: x in seeds ==> x in done || x in work)
    && (forall x, y :: x in done && y in Next(edges, x) ==> y in done || y in work)
    && (forall x :: x in done ==> Reachable(edges, seeds, x))
    && (forall x :: x in work ==> Reachable(edges, seeds, x))
  }

  lemma NextInTargets<T(!new)>(edges: map<T, set<T>>, x: T)
    ensures Next(edges, x) <= Targets(edges)
  {
  }

  lemma WorklistStart<T(!new)>(edges: map<T, set<T>>, seeds: set<T>, work: seq<T>)
    requires forall x :: x in work <==> x in seeds
    ensures WorklistInv(edges, seeds, {}, work)
  {
    forall x | x in seeds
      ensures Reachable(edges, seeds, x)
    {
      SeedReachable(edges, seeds, x);
    }
  }

  /** Every element of `work` is its last one or an element of the rest. */
  lemma PopMembers<T>(work: seq<T>)
    requires |work| > 0
    ensures forall y :: y in work <==> y in work[..|work| - 1] || y == work[|work| - 1]
  {
    forall y | y in work
      ensures y in work[..|work| - 1] || y == work[|work| - 1]
    {
      var i :| 0 <= i < |work| && work[i] == y;
      if i < |work| - 1 {
        assert work[..|work| - 1][i] == y;
      }
    }
  }

  /** Popping a node that was already expanded keeps the invariant. */
  lemma WorklistSkip<T(!new)>(edges: map<T, set<T>>, seeds: set<T>, done: set<T>, work: seq<T>)
    requires WorklistInv(edges, seeds, done, work)
    requires |work| > 0 && work[|work| - 1] in done
    ensures WorklistInv(edges, seeds, done, work[..|work| - 1])
  {
    var rest := work[..|work| - 1];
    PopMembers(work);
    forall y | y in seeds
      ensures y in done || y in rest
    {
      assert y in done || y in work;
    }
    forall v, y | v in done && y in Next(edges, v)
      ensures y in done || y in rest
    {
      assert y in done || y in work;
    }
  }

  /** Expanding a new node, with `next` listing its successors: it is done,
      they are queued, and one fewer node of the finite universe is left. */
  lemma WorklistVisit<T(!new)>(edges: map<T, set<T>>, seeds: set<T>, done: set<T>, work: seq<T>, next: seq<T>)
    requires WorklistInv(edges, seeds, done, work)
    requires |work| > 0 && work[|work| - 1] !in done
    requires forall y :: y in next <==> y in Next(edges, work[|work| - 1])
    ensures WorklistInv(edges, seeds, done + {work[|work| - 1]}, work[..|work| - 1] + next)
    ensures |seeds + Targets(edges) - (done + {work[|work| - 1]})| < |seeds + Targets(edges) - done|
  {
    var u := seeds + Targets(edges);
    var x, rest := work[|work| - 1], work[..|work| - 1];
    var done', work' := done + {x}, rest + next;
    PopMembers(work);
    NextInTargets(edges, x);
    assert Reachable(edges, seeds, x);
    forall y | y in work'
      ensures y in u && Reachable(edges, seeds, y)
    {
      if y in next {
        StepReachable(edges, seeds, x, y);
      }
    }
    forall v, y | v in done' && y in Next(edges, v)
      ensures y in done' || y in work'
    {
      if v != x {
        assert y in done || y in work;
      }
    }
    assert u - done' < u - done;
  }

  /** An empty worklist leaves exactly the reachable set. */
  lemma WorklistDone<T(!new)>(edges: map<T, set<T>>, seeds: set<T>, done: set<T>)
    requires WorklistInv(edges, seeds, done, [])
    ensures done == ReachableSet(edges, seeds)
  {
    ReachableSetCharacterized(edges, seeds, done);
  }
}

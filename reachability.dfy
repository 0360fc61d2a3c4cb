/**
 * Reachability in a finite directed graph over state numbers. The source
 * performs two depth-first searches with a visited map: `transitive_close`
 * follows only `EPS` edges (the epsilon closure of a state) and `dfs`
 * follows every edge (the states reachable from `init`). Both are the
 * same search over a different edge relation; `Reachable` is that search,
 * written as a work-list loop over a visited set.
 */
module Reachability {

  /** Adjacency: state -> successors. A missing key has no successors. */
  type Graph = map<nat, set<nat>>

  function Succ(g: Graph, x: nat): set<nat>
  {
    if x in g then g[x] else {}
  }

  /** Every state the graph mentions, as a source or as a target. */
  function Nodes(g: Graph): set<nat>
  {
    g.Keys + set x, y | x in g && y in g[x] :: y
  }

  /** `p` is a non-empty walk along edges of `g`. */
  ghost predicate IsPath(g: Graph, p: seq<nat>)
  {
    |p| > 0 && forall i :: 0 <= i < |p| - 1 ==> p[i + 1] in Succ(g, p[i])
  }

  /** `b` is reachable from `a` in zero or more steps. */
  ghost predicate Reach(g: Graph, a: nat, b: nat)
  {
    exists p :: IsPath(g, p) && p[0] == a && p[|p| - 1] == b
  }

  /** The set of states reachable from `a` (finite: all lie in `Nodes(g) + {a}`). */
  ghost function ReachSet(g: Graph, a: nat): set<nat>
  {
    set b | b in Nodes(g) + {a} && Reach(g, a, b)
  }

  /** No edge leaves `s`. */
  ghost predicate Closed(g: Graph, s: set<nat>)
  {
    forall x :: x in s ==> Succ(g, x) <= s
  }

  lemma ReachRefl(g: Graph, a: nat)
    ensures Reach(g, a, a)
  {
    assert IsPath(g, [a]);
  }

  lemma PathExtend(g: Graph, p: seq<nat>, y: nat)
    requires IsPath(g, p) && y in Succ(g, p[|p| - 1])
    ensures IsPath(g, p + [y])
  {
    var q := p + [y];
    forall i | 0 <= i < |q| - 1
      ensures q[i + 1] in Succ(g, q[i])
    {
      if i < |p| - 1 {
        assert q[i] == p[i] && q[i + 1] == p[i + 1];
      }
    }
  }

  lemma ReachStep(g: Graph, a: nat, b: nat, c: nat)
    requires Reach(g, a, b) && c in Succ(g, b)
    ensures Reach(g, a, c)
  {
    var p :| IsPath(g, p) && p[0] == a && p[|p| - 1] == b;
    PathExtend(g, p, c);
    var q := p + [c];
    assert q[0] == a && q[|q| - 1] == c;
  }

  lemma {:induction false} ReachTrans(g: Graph, a: nat, b: nat, c: nat)
    requires Reach(g, a, b) && Reach(g, b, c)
    ensures Reach(g, a, c)
  {
    var p :| IsPath(g, p) && p[0] == a && p[|p| - 1] == b;
    var q :| IsPath(g, q) && q[0] == b && q[|q| - 1] == c;
    var r := p + q[1..];
    forall i | 0 <= i < |r| - 1
      ensures r[i + 1] in Succ(g, r[i])
    {
      if i < |p| - 1 {
        assert r[i] == p[i] && r[i + 1] == p[i + 1];
      } else if i == |p| - 1 {
        assert r[i] == q[0] && r[i + 1] == q[1];
      } else {
        var j := i - |p| + 1;
        assert r[i] == q[j] && r[i + 1] == q[j + 1];
      }
    }
    assert r[|r| - 1] == c;
  }

  /** Every state of a walk that starts inside a closed set stays inside it. */
  lemma {:induction false} PathInClosed(g: Graph, s: set<nat>, p: seq<nat>, k: nat)
    requires Closed(g, s) && IsPath(g, p) && p[0] in s && k < |p|
    ensures p[k] in s
  {
    if k > 0 {
      PathInClosed(g, s, p, k - 1);
    }
  }

  lemma ClosedHoldsReach(g: Graph, s: set<nat>, a: nat, b: nat)
    requires Closed(g, s) && a in s && Reach(g, a, b)
    ensures b in s
  {
    var p :| IsPath(g, p) && p[0] == a && p[|p| - 1] == b;
    PathInClosed(g, s, p, |p| - 1);
  }

  lemma ReachInNodes(g: Graph, a: nat, b: nat)
    requires Reach(g, a, b)
    ensures b in Nodes(g) + {a}
  {
    var p :| IsPath(g, p) && p[0] == a && p[|p| - 1] == b;
    if |p| > 1 {
      var x := p[|p| - 2];
      assert b in Succ(g, x);
    }
  }

  /** `ReachSet` holds exactly the reachable states. */
  lemma ReachSetMeaning(g: Graph, a: nat)
    ensures forall b :: b in ReachSet(g, a) <==> Reach(g, a, b)
  {
    forall b | Reach(g, a, b)
      ensures b in ReachSet(g, a)
    {
      ReachInNodes(g, a, b);
    }
  }

  /** Whatever is reachable from a reachable state is reachable. */
  lemma ReachSetTrans(g: Graph, a: nat, b: nat)
    requires b in ReachSet(g, a)
    ensures ReachSet(g, b) <= ReachSet(g, a)
  {
    ReachSetMeaning(g, a);
    ReachSetMeaning(g, b);
    forall c | c in ReachSet(g, b)
      ensures c in ReachSet(g, a)
    {
      ReachTrans(g, a, b, c);
    }
  }

  /** A state without successors reaches only itself. */
  lemma ReachSetOfSink(g: Graph, a: nat)
    requires Succ(g, a) == {}
    ensures ReachSet(g, a) == {a}
  {
    ReachSetMeaning(g, a);
    ReachRefl(g, a);
    forall b | Reach(g, a, b)
      ensures b == a
    {
      ClosedHoldsReach(g, {a}, a, b);
    }
  }

  /**
   * Reachability is kept by a second graph `h` that agrees with `g` on
   * the successors of every state reachable from `a`: this is why pruning
   * the unreachable states keeps every remaining state reachable.
   */
  lemma ReachRestrict(g: Graph, h: Graph, a: nat, b: nat)
    requires forall x :: x in ReachSet(g, a) ==> Succ(h, x) == Succ(g, x)
    requires Reach(g, a, b)
    ensures Reach(h, a, b)
  {
    ReachSetMeaning(g, a);
    var p :| IsPath(g, p) && p[0] == a && p[|p| - 1] == b;
    forall i | 0 <= i < |p| - 1
      ensures p[i + 1] in Succ(h, p[i])
    {
      var prefix := p[..i + 1];
      assert IsPath(g, prefix) by {
        forall j | 0 <= j < |prefix| - 1
          ensures prefix[j + 1] in Succ(g, prefix[j])
        {
          assert prefix[j] == p[j] && prefix[j + 1] == p[j + 1];
        }
      }
      assert prefix[0] == a && prefix[|prefix| - 1] == p[i];
      assert Reach(g, a, p[i]);
    }
    assert IsPath(h, p);
  }

  /** Every state of `seen` has a recorded walk from `start` in `paths`. */
  ghost predicate Witnessed(g: Graph, start: nat, seen: set<nat>, paths: map<nat, seq<nat>>)
  {
    forall x :: x in seen ==>
      x in paths && IsPath(g, paths[x]) && paths[x][0] == start && paths[x][|paths[x]| - 1] == x
  }

  /** Recording one step further for every state of `found`, all successors of `x`. */
  lemma WitnessStep(g: Graph, start: nat, seen: set<nat>, paths: map<nat, seq<nat>>, x: nat, found: set<nat>)
    requires Witnessed(g, start, seen, paths) && x in seen && found <= Succ(g, x)
    ensures Witnessed(g, start, seen + found, paths + map y | y in found :: paths[x] + [y])
  {
    var px := paths[x];
    var paths' := paths + map y | y in found :: px + [y];
    forall y | y in seen + found
      ensures y in paths' && IsPath(g, paths'[y]) && paths'[y][0] == start && paths'[y][|paths'[y]| - 1] == y
    {
      if y in found {
        PathExtend(g, px, y);
      }
    }
  }

  /** No edge leaves `seen` except from the states still to be expanded. */
  ghost predicate ClosedOutside(g: Graph, seen: set<nat>, work: set<nat>)
  {
    forall x :: x in seen && x !in work ==> Succ(g, x) <= seen
  }

  /** Expanding `x` (adding its unvisited successors to both sets) keeps the search closed outside the work list. */
  lemma ClosedStep(g: Graph, seen: set<nat>, work: set<nat>, x: nat)
    requires ClosedOutside(g, seen, work) && x in work
    ensures ClosedOutside(g, seen + (Succ(g, x) - seen), work - {x} + (Succ(g, x) - seen))
  {
  }

  /** A witnessed set that contains `start` and that no edge leaves is exactly the reachable set. */
  lemma SearchDone(g: Graph, start: nat, seen: set<nat>, paths: map<nat, seq<nat>>)
    requires Witnessed(g, start, seen, paths) && start in seen && Closed(g, seen)
    ensures forall b :: b in seen <==> Reach(g, start, b)
    ensures seen == ReachSet(g, start)
  {
    forall b | b in seen
      ensures Reach(g, start, b)
    {
      assert IsPath(g, paths[b]);
    }
    forall b | Reach(g, start, b)
      ensures b in seen
    {
      ClosedHoldsReach(g, seen, start, b);
    }
    ReachSetMeaning(g, start);
  }

  /**
   * The search: grows the visited set from `start` along the edges of `g`
   * until no unvisited successor is left. The result is exactly the set
   * of states reachable from `start`.
   */
  method Reachable(g: Graph, start: nat) returns (seen: set<nat>)
    ensures forall b :: b in seen <==> Reach(g, start, b)
    ensures seen == ReachSet(g, start)
  {
    ghost var universe := Nodes(g) + {start};
    seen := {start};
    var work := {start};
    ghost var paths: map<nat, seq<nat>> := map[start := [start]];
    assert IsPath(g, [start]);
    while work != {}
      invariant work <= seen <= universe
      invariant start in seen
      invariant ClosedOutside(g, seen, work)
      invariant Witnessed(g, start, seen, paths)
      decreases universe - seen, work
    {
      var x :| x in work;
      var found := Succ(g, x) - seen;
      assert found <= universe by {
        forall y | y in found
          ensures y in universe
        {
          assert x in g && y in g[x];
        }
      }
      WitnessStep(g, start, seen, paths, x, found);
      ClosedStep(g, seen, work, x);
      paths := paths + map y | y in found :: paths[x] + [y];
      seen := seen + found;
      work := work - {x} + found;
    }
    assert Closed(g, seen);
    SearchDone(g, start, seen, paths);
  }
}

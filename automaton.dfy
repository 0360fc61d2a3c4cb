/**
 * The automaton of `Practicum_16.py` as a value, and a pure specification
 * of every step `StateMachine` performs on it: the atomic machines, the
 * three combinators before epsilon elimination, and `delete_epsilons`
 * (closure phase, removal of `EPS` keys, pruning of unreachable states).
 * The class in module StateMachines is proved against these functions;
 * the lemmas here state what the steps promise.
 */
module Automaton {
  import opened Base
  import opened Reachability

  /** The four parts of a `StateMachine`, plus its `lastStar` flag and diagnostic `regex`. */
  datatype Machine = Machine(
    states: set<nat>,
    init: nat,
    terminals: set<nat>,
    triggers: Triggers,
    lastStar: bool,
    regex: string)

  /** Every transition target is a state of the machine. */
  ghost predicate TargetsWithin(trig: Triggers, states: set<nat>)
  {
    forall s, l :: s in trig && l in trig[s] ==> trig[s][l] <= states
  }

  /** A label key is present only with at least one target (the source never stores an empty target set). */
  ghost predicate NoEmptyTargets(trig: Triggers)
  {
    forall s, l :: s in trig && l in trig[s] ==> trig[s][l] != {}
  }

  /** The structural invariant every machine keeps between operations. */
  ghost predicate WellFormed(a: Machine)
  {
    && a.init in a.states
    && a.terminals <= a.states
    && a.triggers.Keys <= a.states
    && TargetsWithin(a.triggers, a.states)
    && NoEmptyTargets(a.triggers)
  }

  /** No state has an `EPS` key. */
  ghost predicate EpsFree(trig: Triggers)
  {
    forall s :: s in trig ==> Eps !in trig[s]
  }

  /** All targets of `s`, whatever the label. */
  function Successors(trig: Triggers, s: nat): set<nat>
  {
    set l, x | l in Inner(trig, s) && x in Inner(trig, s)[l] :: x
  }

  /** The graph `dfs` walks: every labelled edge. */
  function AnyGraph(states: set<nat>, trig: Triggers): Graph
  {
    map s | s in states :: Successors(trig, s)
  }

  /** The graph `transitive_close` walks: the `EPS` edges only. */
  function EpsGraph(states: set<nat>, trig: Triggers): Graph
  {
    map s | s in states :: Targets(trig, s, Eps)
  }

  /** Every state is reachable from `init`. */
  ghost predicate AllReachable(a: Machine)
  {
    forall s :: s in a.states ==> Reach(AnyGraph(a.states, a.triggers), a.init, s)
  }

  /** What `delete_epsilons` establishes. */
  ghost predicate Normalized(a: Machine)
  {
    WellFormed(a) && EpsFree(a.triggers) && AllReachable(a)
  }

  // ---------------------------------------------------------------------
  // Atomic machines (the string constructor of StateMachine)
  // ---------------------------------------------------------------------

  /** The machine for `1`: one state, initial and terminal, no transitions. */
  function EmptyWord(s: nat): (r: Machine)
    ensures r.states == {s} && r.init == s && r.terminals == {s}
    ensures forall q, l :: Targets(r.triggers, q, l) == {}
    ensures !r.lastStar && r.regex == "1"
  {
    Machine({s}, s, {s}, map[], false, "1")
  }

  /** The machine for a letter: `i --c--> t` and nothing else. */
  function Letter(c: char, i: nat, t: nat): (r: Machine)
    requires i != t
    ensures r.states == {i, t} && r.init == i && r.terminals == {t}
    ensures forall q, l :: Targets(r.triggers, q, l) == (if q == i && l == Sym(c) then {t} else {})
    ensures !r.lastStar && r.regex == [c]
  {
    Machine({i, t}, i, {t}, map[i := map[Sym(c) := {t}]], false, [c])
  }

  /** Both atomic machines are already in normal form. */
  lemma AtomsNormalized(s: nat, c: char, i: nat, t: nat)
    requires i != t
    ensures Normalized(EmptyWord(s))
    ensures Normalized(Letter(c, i, t))
  {
    var e := EmptyWord(s);
    ReachRefl(AnyGraph(e.states, e.triggers), s);
    var m := Letter(c, i, t);
    var g := AnyGraph(m.states, m.triggers);
    ReachRefl(g, i);
    assert t in Succ(g, i) by {
      assert Sym(c) in Inner(m.triggers, i) && t in Inner(m.triggers, i)[Sym(c)];
    }
    ReachStep(g, i, i, t);
  }

  // ---------------------------------------------------------------------
  // Combinators before epsilon elimination
  // ---------------------------------------------------------------------

  /** Adds an `EPS` edge from every state of `from` to `target`. */
  function WithEpsEdges(trig: Triggers, from: set<nat>, target: nat): (r: Triggers)
    ensures r.Keys == trig.Keys + from
    ensures forall s, l :: Targets(r, s, l) == Targets(trig, s, l) + (if l == Eps && s in from then {target} else {})
    ensures forall s :: s in r ==> r[s].Keys == Inner(trig, s).Keys + (if s in from then {Eps} else {})
  {
    map s | s in trig.Keys + from ::
      if s in from then Inner(trig, s)[Eps := Targets(trig, s, Eps) + {target}] else trig[s]
  }

  lemma WithEpsEdgesWellFormed(trig: Triggers, from: set<nat>, target: nat, states: set<nat>)
    requires TargetsWithin(trig, states) && NoEmptyTargets(trig)
    requires from <= states && target in states
    ensures TargetsWithin(WithEpsEdges(trig, from, target), states)
    ensures NoEmptyTargets(WithEpsEdges(trig, from, target))
  {
    var r := WithEpsEdges(trig, from, target);
    forall s, l | s in r && l in r[s]
      ensures r[s][l] <= states && r[s][l] != {}
    {
      assert r[s][l] == Targets(r, s, l);
      if l == Eps && s in from {
      } else {
        assert l in Inner(trig, s);
      }
    }
  }

  /** Two well-formed operands with disjoint states, as fresh allocation provides. */
  ghost predicate Disjoint(a: Machine, b: Machine)
  {
    WellFormed(a) && WellFormed(b) && a.states !! b.states
  }

  lemma MergeTargets(a: Machine, b: Machine)
    requires Disjoint(a, b)
    ensures forall s, l :: Targets(a.triggers + b.triggers, s, l) == Targets(a.triggers, s, l) + Targets(b.triggers, s, l)
    ensures TargetsWithin(a.triggers + b.triggers, a.states + b.states)
    ensures NoEmptyTargets(a.triggers + b.triggers)
  {
  }

  /**
   * `concatenate` before elimination: the union of both machines, an `EPS`
   * edge from every terminal of `a` to the initial state of `b`, the
   * initial state of `a` and the terminals of `b`.
   */
  function ConcatRaw(a: Machine, b: Machine): (r: Machine)
    requires Disjoint(a, b)
    ensures WellFormed(r)
    ensures r.states == a.states + b.states && r.init == a.init && r.terminals == b.terminals
    ensures forall s, l ::
              Targets(r.triggers, s, l)
              == Targets(a.triggers, s, l) + Targets(b.triggers, s, l)
                 + (if l == Eps && s in a.terminals then {b.init} else {})
    ensures !r.lastStar && r.regex == a.regex + b.regex
  {
    MergeTargets(a, b);
    WithEpsEdgesWellFormed(a.triggers + b.triggers, a.terminals, b.init, a.states + b.states);
    Machine(a.states + b.states, a.init, b.terminals,
            WithEpsEdges(a.triggers + b.triggers, a.terminals, b.init),
            false, a.regex + b.regex)
  }

  /**
   * `alternate` before elimination: the union of both machines and a new
   * initial state `n` with `EPS` edges to both old initial states; the
   * terminals are those of both.
   */
  function AltRaw(a: Machine, b: Machine, n: nat): (r: Machine)
    requires Disjoint(a, b) && n !in a.states + b.states
    ensures WellFormed(r)
    ensures r.states == a.states + b.states + {n} && r.init == n && r.terminals == a.terminals + b.terminals
    ensures forall s, l ::
              Targets(r.triggers, s, l)
              == if s == n then (if l == Eps then {a.init, b.init} else {})
                 else Targets(a.triggers, s, l) + Targets(b.triggers, s, l)
    ensures !r.lastStar && r.regex == AltText(a.regex, b.regex)
  {
    MergeTargets(a, b);
    Machine(a.states + b.states + {n}, n, a.terminals + b.terminals,
            (a.triggers + b.triggers)[n := map[Eps := {a.init, b.init}]],
            false, AltText(a.regex, b.regex))
  }

  /**
   * `star` before elimination: a new initial state `n`, which is the only
   * terminal, with an `EPS` edge to the old initial state, and an `EPS`
   * edge from every old terminal back to `n`.
   */
  function StarRaw(a: Machine, n: nat): (r: Machine)
    requires WellFormed(a) && n !in a.states
    ensures WellFormed(r)
    ensures r.states == a.states + {n} && r.init == n && r.terminals == {n}
    ensures forall s, l ::
              Targets(r.triggers, s, l)
              == if s == n then (if l == Eps then {a.init} else {})
                 else Targets(a.triggers, s, l) + (if l == Eps && s in a.terminals then {n} else {})
    ensures r.lastStar && r.regex == StarText(a.regex)
  {
    var t := a.triggers[n := map[Eps := {a.init}]];
    WithEpsEdgesWellFormed(t, a.terminals, n, a.states + {n});
    Machine(a.states + {n}, n, {n}, WithEpsEdges(t, a.terminals, n), true, StarText(a.regex))
  }

  // ---------------------------------------------------------------------
  // delete_epsilons
  // ---------------------------------------------------------------------

  /** The epsilon closure of `s`: every state reachable from `s` over `EPS` edges, `s` included. */
  ghost function Closure(a: Machine, s: nat): set<nat>
  {
    ReachSet(EpsGraph(a.states, a.triggers), s)
  }

  /** The `l`-targets of all states of `c`. */
  function Gather(trig: Triggers, c: set<nat>, l: Label): set<nat>
  {
    set u, x | u in c && x in Targets(trig, u, l) :: x
  }

  /**
   * The label map `transitive_close(s, ...)` leaves at `s` when the
   * closure of `s` is `c`: its `EPS` entry untouched, and every letter
   * transition of every member of `c` added to its own.
   */
  function Absorb(trig: Triggers, s: nat, c: set<nat>): (r: map<Label, set<nat>>)
    ensures TargetsIn(r, Eps) == Targets(trig, s, Eps) && (Eps in r <==> Eps in Inner(trig, s))
    ensures forall l :: l != Eps ==> TargetsIn(r, l) == Targets(trig, s, l) + Gather(trig, c, l)
    ensures forall l :: l != Eps ==> (l in r <==> l in Inner(trig, s) || Gather(trig, c, l) != {})
  {
    var own := Inner(trig, s);
    var gained := set u, l | u in c && l in Inner(trig, u) && l != Eps && Gather(trig, c, l) != {} :: l;
    assert forall l :: l != Eps && Gather(trig, c, l) != {} ==> l in gained by {
      forall l | l != Eps && Gather(trig, c, l) != {}
        ensures l in gained
      {
        var x :| x in Gather(trig, c, l);
        var u :| u in c && x in Targets(trig, u, l);
        assert l in Inner(trig, u);
      }
    }
    map l | l in own.Keys + gained :: if l == Eps then own[l] else TargetsIn(own, l) + Gather(trig, c, l)
  }

  /** The table after the closure phase: every state has absorbed its closure. */
  ghost function CloseTriggers(a: Machine): Triggers
  {
    map s | s in a.states :: Absorb(a.triggers, s, Closure(a, s))
  }

  lemma CloseTriggersKeys(a: Machine)
    ensures CloseTriggers(a).Keys == a.states
  {
  }

  /** The terminals after the closure phase: a state whose closure meets a terminal becomes one. */
  ghost function CloseTerminals(a: Machine): set<nat>
  {
    a.terminals + set s | s in a.states && Closure(a, s) * a.terminals != {}
  }

  /** Step 1 of `delete_epsilons`: `transitive_close` from every state. */
  ghost function ClosePhase(a: Machine): Machine
  {
    a.(terminals := CloseTerminals(a), triggers := CloseTriggers(a))
  }

  /** The table after every `EPS` key is popped (every state gets an entry, as with a defaultdict). */
  function DropEps(states: set<nat>, trig: Triggers): (r: Triggers)
    ensures r.Keys == states && EpsFree(r)
    ensures forall s, l :: l != Eps ==> Targets(r, s, l) == (if s in states then Targets(trig, s, l) else {})
  {
    map s | s in states :: Inner(trig, s) - {Eps}
  }

  /** Step 2 of `delete_epsilons`: pop the `EPS` key of every state. */
  function RemoveEps(a: Machine): Machine
  {
    a.(triggers := DropEps(a.states, a.triggers))
  }

  /** Step 3 of `delete_epsilons`: drop the states `init` cannot reach, from all three parts. */
  ghost function Prune(a: Machine): Machine
  {
    var gone := a.states - ReachSet(AnyGraph(a.states, a.triggers), a.init);
    a.(states := a.states - gone, terminals := a.terminals - gone, triggers := a.triggers - gone)
  }

  /** The complete effect of `delete_epsilons`. */
  ghost function Eliminate(a: Machine): Machine
  {
    Prune(RemoveEps(ClosePhase(a)))
  }

  lemma ClosureWithin(a: Machine, s: nat)
    requires WellFormed(a) && s in a.states
    ensures s in Closure(a, s) && Closure(a, s) <= a.states
  {
    var g := EpsGraph(a.states, a.triggers);
    ReachRefl(g, s);
    ReachSetMeaning(g, s);
    forall y, z | y in g && z in g[y]
      ensures z in a.states
    {
      assert g[y] == Targets(a.triggers, y, Eps);
    }
    assert Nodes(g) <= a.states;
  }

  /** Absorbing a set of states keeps targets inside the machine and never stores an empty set. */
  lemma AbsorbWellFormed(trig: Triggers, s: nat, c: set<nat>, states: set<nat>)
    requires TargetsWithin(trig, states) && NoEmptyTargets(trig)
    ensures forall l :: l in Absorb(trig, s, c) ==> Absorb(trig, s, c)[l] <= states
    ensures forall l :: l in Absorb(trig, s, c) ==> Absorb(trig, s, c)[l] != {}
  {
    var r := Absorb(trig, s, c);
    forall l | l in r
      ensures r[l] <= states && r[l] != {}
    {
      assert r[l] == TargetsIn(r, l);
      forall x | x in Gather(trig, c, l)
        ensures x in states
      {
        var u :| u in c && x in Targets(trig, u, l);
      }
      if l in Inner(trig, s) {
        assert Targets(trig, s, l) != {};
      }
    }
  }

  lemma CloseTriggersWellFormed(a: Machine)
    requires WellFormed(a)
    ensures CloseTriggers(a).Keys == a.states
    ensures TargetsWithin(CloseTriggers(a), a.states)
    ensures NoEmptyTargets(CloseTriggers(a))
  {
    var t := CloseTriggers(a);
    forall s | s in t
      ensures forall l :: l in t[s] ==> t[s][l] <= a.states && t[s][l] != {}
    {
      AbsorbWellFormed(a.triggers, s, Closure(a, s), a.states);
    }
  }

  lemma AbsorbMember(trig: Triggers, s: nat, c: set<nat>, l: Label)
    requires s in c && l != Eps
    ensures TargetsIn(Absorb(trig, s, c), l) == Gather(trig, c, l)
  {
  }

  lemma ClosePhaseAt(a: Machine, s: nat, l: Label)
    requires WellFormed(a) && s in a.states
    ensures l != Eps ==> Targets(CloseTriggers(a), s, l) == Gather(a.triggers, Closure(a, s), l)
    ensures Targets(a.triggers, s, l) <= Targets(CloseTriggers(a), s, l)
  {
    ClosureWithin(a, s);
    var c := Closure(a, s);
    assert Targets(CloseTriggers(a), s, l) == TargetsIn(Absorb(a.triggers, s, c), l);
    if l != Eps {
      AbsorbMember(a.triggers, s, c, l);
    }
  }

  lemma CloseTerminalsMeaning(a: Machine)
    requires WellFormed(a)
    ensures CloseTerminals(a) <= a.states
    ensures forall s :: s in a.states ==>
              (s in CloseTerminals(a) <==> Closure(a, s) * a.terminals != {})
  {
    forall s | s in a.terminals
      ensures Closure(a, s) * a.terminals != {}
    {
      ClosureWithin(a, s);
      assert s in Closure(a, s) * a.terminals;
    }
  }

  lemma CloseTerminalsAt(a: Machine, s: nat)
    requires WellFormed(a) && s in a.states
    ensures s in CloseTerminals(a) <==> Closure(a, s) * a.terminals != {}
  {
    if s in a.terminals {
      ClosureWithin(a, s);
      assert s in Closure(a, s) * a.terminals;
    }
  }

  /** Closure phase: a state is terminal when its closure meets a terminal, and no transition is removed. */
  lemma ClosePhaseMeaning(a: Machine)
    requires WellFormed(a)
    ensures WellFormed(ClosePhase(a)) && ClosePhase(a).triggers.Keys == a.states
    ensures forall s :: s in a.states ==>
              (s in ClosePhase(a).terminals <==> Closure(a, s) * a.terminals != {})
    ensures forall s, l :: s in a.states && l != Eps ==>
              Targets(ClosePhase(a).triggers, s, l) == Gather(a.triggers, Closure(a, s), l)
    ensures forall s, l :: Targets(a.triggers, s, l) <= Targets(ClosePhase(a).triggers, s, l)
  {
    CloseTriggersWellFormed(a);
    CloseTerminalsMeaning(a);
    var t := CloseTriggers(a);
    forall s, l | s in a.states
      ensures l != Eps ==> Targets(t, s, l) == Gather(a.triggers, Closure(a, s), l)
      ensures Targets(a.triggers, s, l) <= Targets(t, s, l)
    {
      ClosePhaseAt(a, s, l);
    }
  }

  lemma RemoveEpsMeaning(a: Machine)
    requires WellFormed(a) && a.triggers.Keys == a.states
    ensures WellFormed(RemoveEps(a)) && EpsFree(RemoveEps(a).triggers)
    ensures RemoveEps(a).triggers.Keys == a.states
    ensures forall s, l :: l != Eps ==> Targets(RemoveEps(a).triggers, s, l) == Targets(a.triggers, s, l)
  {
    var t := RemoveEps(a).triggers;
    forall s, l | s in t && l in t[s]
      ensures t[s][l] == a.triggers[s][l]
    {
    }
  }

  /**
   * Pruning an epsilon-free machine leaves it in normal form, with a table
   * entry for every state; it keeps `init` and removes exactly the states
   * `init` cannot reach.
   */
  lemma PruneNormalized(m: Machine)
    requires WellFormed(m) && EpsFree(m.triggers) && m.triggers.Keys == m.states
    ensures Normalized(Prune(m)) && Prune(m).triggers.Keys == Prune(m).states
    ensures Prune(m).init == m.init && Prune(m).states <= m.states
    ensures forall s :: s in m.states ==>
              (s in Prune(m).states <==> Reach(AnyGraph(m.states, m.triggers), m.init, s))
    ensures forall s, l :: s in Prune(m).states ==> Targets(Prune(m).triggers, s, l) == Targets(m.triggers, s, l)
    ensures Prune(m).terminals == m.terminals * Prune(m).states
  {
    var g := AnyGraph(m.states, m.triggers);
    var reach := ReachSet(g, m.init);
    ReachSetMeaning(g, m.init);
    ReachRefl(g, m.init);
    forall y, z | y in g && z in g[y]
      ensures z in m.states
    {
      var l :| l in Inner(m.triggers, y) && z in Inner(m.triggers, y)[l];
    }
    assert Nodes(g) <= m.states;
    var r := Prune(m);
    assert r.states == reach;
    forall s, l | s in r.triggers && l in r.triggers[s]
      ensures r.triggers[s][l] <= r.states
    {
      forall x | x in r.triggers[s][l]
        ensures x in reach
      {
        assert r.triggers[s] == m.triggers[s];
        assert l in Inner(m.triggers, s) && x in Inner(m.triggers, s)[l];
        assert x in Succ(g, s);
        ReachStep(g, m.init, s, x);
      }
    }
    var h := AnyGraph(r.states, r.triggers);
    forall x | x in reach
      ensures Succ(h, x) == Succ(g, x)
    {
      assert Inner(r.triggers, x) == Inner(m.triggers, x);
    }
    forall s | s in r.states
      ensures Reach(h, r.init, s)
    {
      ReachRestrict(g, h, m.init, s);
    }
  }

  /**
   * `delete_epsilons` leaves a machine in normal form: well formed, without
   * `EPS` keys, every state reachable from `init`, and a table entry for
   * every state. It keeps `init`, `lastStar` and `regex`, and never invents states.
   */
  lemma EliminateNormalized(a: Machine)
    requires WellFormed(a)
    ensures Normalized(Eliminate(a))
    ensures Eliminate(a).triggers.Keys == Eliminate(a).states
    ensures Eliminate(a).init == a.init && Eliminate(a).states <= a.states
    ensures Eliminate(a).lastStar == a.lastStar && Eliminate(a).regex == a.regex
  {
    ClosePhaseMeaning(a);
    RemoveEpsMeaning(ClosePhase(a));
    PruneNormalized(RemoveEps(ClosePhase(a)));
  }

  /** After elimination a kept state is terminal exactly when its epsilon closure met a terminal. */
  lemma EliminateTerminals(a: Machine)
    requires WellFormed(a)
    ensures forall s :: s in Eliminate(a).states ==>
              (s in Eliminate(a).terminals <==> Closure(a, s) * a.terminals != {})
  {
    var c := ClosePhase(a);
    ClosePhaseMeaning(a);
    var m := RemoveEps(c);
    RemoveEpsMeaning(c);
    PruneNormalized(m);
  }

  /**
   * After elimination a kept state `s` has an `l`-transition to `x` exactly
   * when some state of its epsilon closure had one (so none of its own
   * letter transitions is lost), and it has no `EPS` transition.
   */
  lemma EliminateTransitions(a: Machine, s: nat, l: Label)
    requires WellFormed(a) && s in Eliminate(a).states
    ensures l != Eps ==> Targets(Eliminate(a).triggers, s, l) == Gather(a.triggers, Closure(a, s), l)
    ensures l != Eps ==> Targets(a.triggers, s, l) <= Targets(Eliminate(a).triggers, s, l)
    ensures Targets(Eliminate(a).triggers, s, Eps) == {}
  {
    var c := ClosePhase(a);
    ClosePhaseMeaning(a);
    var m := RemoveEps(c);
    RemoveEpsMeaning(c);
    PruneNormalized(m);
    var r := Prune(m);
    assert Targets(r.triggers, s, l) == Targets(m.triggers, s, l);
    assert Targets(r.triggers, s, Eps) == Targets(m.triggers, s, Eps);
    assert s in m.triggers && Eps !in m.triggers[s];
  }

  lemma AbsorbSelf(trig: Triggers, s: nat)
    requires s in trig && Eps !in trig[s]
    ensures Absorb(trig, s, {s}) == trig[s]
  {
    var own := trig[s];
    var r := Absorb(trig, s, {s});
    forall l
      ensures Gather(trig, {s}, l) == TargetsIn(own, l)
    {
    }
    assert r.Keys == own.Keys;
    forall l | l in own
      ensures r[l] == own[l]
    {
      assert r[l] == TargetsIn(r, l);
    }
  }

  /** Without `EPS` edges every closure is a single state, so the closure phase changes nothing. */
  lemma ClosePhaseOfEpsFree(b: Machine)
    requires WellFormed(b) && EpsFree(b.triggers) && b.triggers.Keys == b.states
    ensures ClosePhase(b) == b
  {
    var eg := EpsGraph(b.states, b.triggers);
    forall s | s in b.states
      ensures Closure(b, s) == {s}
    {
      assert Succ(eg, s) == Targets(b.triggers, s, Eps) == {};
      ReachSetOfSink(eg, s);
    }
    var t := CloseTriggers(b);
    forall s | s in b.states
      ensures t[s] == b.triggers[s]
    {
      AbsorbSelf(b.triggers, s);
    }
    assert t == b.triggers;
    assert CloseTerminals(b) == b.terminals;
  }

  lemma RemoveEpsOfEpsFree(b: Machine)
    requires EpsFree(b.triggers) && b.triggers.Keys == b.states
    ensures RemoveEps(b) == b
  {
    var t := DropEps(b.states, b.triggers);
    forall s | s in b.states
      ensures t[s] == b.triggers[s]
    {
      assert Eps !in b.triggers[s];
    }
    assert t == b.triggers;
  }

  lemma PruneOfReachable(b: Machine)
    requires AllReachable(b)
    ensures Prune(b) == b
  {
    var g := AnyGraph(b.states, b.triggers);
    ReachSetMeaning(g, b.init);
    assert b.states - ReachSet(g, b.init) == {};
    assert b.triggers - {} == b.triggers;
  }

  /** A machine already in normal form, with an entry for every state, is a fixed point. */
  lemma EliminateFixes(b: Machine)
    requires Normalized(b) && b.triggers.Keys == b.states
    ensures Eliminate(b) == b
  {
    ClosePhaseOfEpsFree(b);
    RemoveEpsOfEpsFree(b);
    PruneOfReachable(b);
  }

  /** Epsilon elimination is idempotent: running it twice gives what running it once does. */
  lemma EliminateIdempotent(a: Machine)
    requires WellFormed(a)
    ensures Eliminate(Eliminate(a)) == Eliminate(a)
  {
    EliminateNormalized(a);
    EliminateFixes(Eliminate(a));
  }
}

/**
 * The step-by-step forms of the specifications in module Automaton, in
 * the order `StateMachine` performs the steps: `add_triggers` one state at
 * a time, the `EPS` edges of `concatenate` and `star` one terminal at a
 * time, `transitive_close` one start state at a time, and the `EPS` pop
 * loop one state at a time. Each lemma here says that one more step moves
 * the partial result one state further, or that the last step reaches the
 * whole specification.
 */
module Incremental {
  import opened Base
  import opened Reachability
  import opened Automaton

  /** Two label maps with the same keys and the same targets everywhere are equal. */
  lemma LabelMapsEqual(m1: map<Label, set<nat>>, m2: map<Label, set<nat>>)
    requires forall l :: (l in m1 <==> l in m2) && TargetsIn(m1, l) == TargetsIn(m2, l)
    ensures m1 == m2
  {
    forall l | l in m1
      ensures m1[l] == m2[l]
    {
      assert TargetsIn(m1, l) == TargetsIn(m2, l);
    }
  }

  /**
   * A table part-way through a loop over states: the entries of the states
   * of `done` are already those of `final`, the others still those of `base`.
   */
  function Overlay(base: Triggers, done: set<nat>, final: Triggers): (r: Triggers)
    requires done <= final.Keys
    ensures r.Keys == base.Keys + done
  {
    map s | s in base.Keys + done :: if s in done then final[s] else base[s]
  }

  lemma OverlayNone(base: Triggers, final: Triggers)
    ensures Overlay(base, {}, final) == base
  {
  }

  /** A state the loop has not reached yet still has its original entry. */
  lemma OverlayPending(base: Triggers, done: set<nat>, final: Triggers, s: nat)
    requires done <= final.Keys && s !in done
    ensures Inner(Overlay(base, done, final), s) == Inner(base, s)
  {
  }

  lemma OverlayOneMore(base: Triggers, done: set<nat>, final: Triggers, s: nat)
    requires done <= final.Keys && s in final
    ensures Overlay(base, done + {s}, final) == Overlay(base, done, final)[s := final[s]]
  {
  }

  lemma OverlayAll(base: Triggers, done: set<nat>, final: Triggers)
    requires done == final.Keys && base.Keys <= done
    ensures Overlay(base, done, final) == final
  {
  }

  // ---------------------------------------------------------------------
  // add_triggers
  // ---------------------------------------------------------------------

  /**
   * `add_triggers`: a state only `theirs` knows takes its label map; a
   * state both know keeps its own labels, each with the targets of both
   * (a label only `theirs` has at such a state is not copied).
   */
  function MergeTriggers(mine: Triggers, theirs: Triggers): (r: Triggers)
    ensures r.Keys == mine.Keys + theirs.Keys
    ensures forall s, l :: Targets(mine, s, l) <= Targets(r, s, l)
  {
    map s | s in mine.Keys + theirs.Keys ::
      if s !in mine then theirs[s]
      else if s in theirs then map l | l in mine[s] :: mine[s][l] + TargetsIn(theirs[s], l)
      else mine[s]
  }

  /** When no state is in both tables, `add_triggers` is the plain union of the two tables. */
  lemma MergeDisjoint(mine: Triggers, theirs: Triggers)
    requires mine.Keys !! theirs.Keys
    ensures MergeTriggers(mine, theirs) == mine + theirs
  {
  }

  /**
   * The loop of `add_triggers` replaces the entries of `theirs`'s states one
   * at a time; once all are replaced the table is the merge.
   */
  lemma MergeOverlay(mine: Triggers, theirs: Triggers)
    ensures Overlay(mine, theirs.Keys, MergeTriggers(mine, theirs)) == MergeTriggers(mine, theirs)
  {
  }

  // ---------------------------------------------------------------------
  // EPS edges of concatenate and star
  // ---------------------------------------------------------------------

  /** The label map of `s` after one more `EPS` edge to `target`, creating the entry when missing. */
  function AddEps(trig: Triggers, s: nat, target: nat): map<Label, set<nat>>
  {
    Inner(trig, s)[Eps := Targets(trig, s, Eps) + {target}]
  }

  lemma WithEpsEdgesAt(trig: Triggers, from: set<nat>, target: nat, s: nat)
    requires s in from
    ensures WithEpsEdges(trig, from, target)[s] == AddEps(trig, s, target)
  {
  }

  /** The loop adding the `EPS` edges replaces the entries of `from` one at a time, ending at `WithEpsEdges`. */
  lemma WithEpsEdgesOverlay(trig: Triggers, from: set<nat>, target: nat)
    ensures Overlay(trig, from, WithEpsEdges(trig, from, target)) == WithEpsEdges(trig, from, target)
  {
  }

  // ---------------------------------------------------------------------
  // transitive_close
  // ---------------------------------------------------------------------

  /**
   * The letter transitions of `cur` added to the label map `own` of the
   * start state, as the inner loops of `transitive_close` add them: a
   * label gets an entry only when it has a target to add.
   */
  function MergeLetters(own: map<Label, set<nat>>, cur: map<Label, set<nat>>): (r: map<Label, set<nat>>)
    ensures TargetsIn(r, Eps) == TargetsIn(own, Eps) && (Eps in r <==> Eps in own)
    ensures forall l :: l != Eps ==> TargetsIn(r, l) == TargetsIn(own, l) + TargetsIn(cur, l)
    ensures forall l :: l != Eps ==> (l in r <==> l in own || TargetsIn(cur, l) != {})
  {
    map l | l in own.Keys + (set k | k in cur && k != Eps && cur[k] != {}) ::
      if l == Eps then own[l] else TargetsIn(own, l) + TargetsIn(cur, l)
  }

  lemma AbsorbNone(trig: Triggers, s: nat)
    ensures Absorb(trig, s, {}) == Inner(trig, s)
  {
    LabelMapsEqual(Absorb(trig, s, {}), Inner(trig, s));
  }

  /** Visiting the start state itself adds nothing (`transitive_close` skips it). */
  lemma AbsorbSelfAgain(trig: Triggers, s: nat, done: set<nat>)
    ensures Absorb(trig, s, done + {s}) == Absorb(trig, s, done)
  {
    var x, y := Absorb(trig, s, done + {s}), Absorb(trig, s, done);
    forall l
      ensures (l in x <==> l in y) && TargetsIn(x, l) == TargetsIn(y, l)
    {
      if l != Eps {
        GatherOneMore(trig, done, s, l);
        assert Targets(trig, s, l) != {} ==> l in Inner(trig, s);
      }
    }
    LabelMapsEqual(x, y);
  }

  lemma GatherOneMore(trig: Triggers, done: set<nat>, u: nat, l: Label)
    ensures Gather(trig, done + {u}, l) == Gather(trig, done, l) + Targets(trig, u, l)
  {
  }

  /** Visiting another state `u` merges its letter transitions into the start state's. */
  lemma AbsorbOther(trig: Triggers, s: nat, done: set<nat>, u: nat)
    ensures Absorb(trig, s, done + {u}) == MergeLetters(Absorb(trig, s, done), Inner(trig, u))
  {
    var x, y := Absorb(trig, s, done + {u}), MergeLetters(Absorb(trig, s, done), Inner(trig, u));
    forall l
      ensures (l in x <==> l in y) && TargetsIn(x, l) == TargetsIn(y, l)
    {
      AbsorbOtherAt(trig, s, done, u, l);
    }
    LabelMapsEqual(x, y);
  }

  /** The terminals after `transitive_close(s, s, used)`: `s` joins them when its closure meets one. */
  ghost function StepTerminals(m: Machine, s: nat): set<nat>
  {
    if ReachSet(EpsGraph(m.states, m.triggers), s) * m.terminals != {} then m.terminals + {s} else m.terminals
  }

  /** The table after `transitive_close(s, s, used)`: `s` absorbs the letter transitions of its closure. */
  ghost function StepTriggers(m: Machine, s: nat): Triggers
  {
    m.triggers[s := Absorb(m.triggers, s, ReachSet(EpsGraph(m.states, m.triggers), s))]
  }

  lemma AbsorbOtherAt(trig: Triggers, s: nat, done: set<nat>, u: nat, l: Label)
    ensures var x, y := Absorb(trig, s, done + {u}), MergeLetters(Absorb(trig, s, done), Inner(trig, u));
            (l in x <==> l in y) && TargetsIn(x, l) == TargetsIn(y, l)
  {
    if l != Eps {
      GatherOneMore(trig, done, u, l);
    }
  }

  /** What `transitive_close(s, s, used)` does to a machine. */
  ghost function CloseStep(m: Machine, s: nat): Machine
  {
    m.(terminals := StepTerminals(m, s), triggers := StepTriggers(m, s))
  }

  /** The terminals after `transitive_close` has run from every state of `done`. */
  ghost function PartialTerminals(a: Machine, done: set<nat>): set<nat>
  {
    a.terminals + done * CloseTerminals(a)
  }

  /** The table after `transitive_close` has run from every state of `done`. */
  ghost function PartialTriggers(a: Machine, done: set<nat>): Triggers
    requires done <= a.states
  {
    Overlay(a.triggers, done, CloseTriggers(a))
  }

  /** The machine after `transitive_close` has run from every state of `done`. */
  ghost function ClosePartial(a: Machine, done: set<nat>): Machine
    requires done <= a.states
  {
    a.(terminals := PartialTerminals(a, done), triggers := PartialTriggers(a, done))
  }

  lemma ClosePartialNone(a: Machine)
    ensures ClosePartial(a, {}) == a
  {
    OverlayNone(a.triggers, CloseTriggers(a));
  }

  lemma ClosePartialAll(a: Machine)
    requires WellFormed(a)
    ensures ClosePartial(a, a.states) == ClosePhase(a)
  {
    var ct := CloseTerminals(a);
    assert ct <= a.states;
    assert PartialTerminals(a, a.states) == ct;
    CloseTriggersKeys(a);
    OverlayAll(a.triggers, a.states, CloseTriggers(a));
  }

  /** The entry of a closed start: what it absorbed from its closure. */
  lemma PartialTriggersAt(a: Machine, done: set<nat>, x: nat)
    requires done <= a.states
    ensures x in done ==> Inner(PartialTriggers(a, done), x) == Absorb(a.triggers, x, Closure(a, x))
    ensures x !in done ==> Inner(PartialTriggers(a, done), x) == Inner(a.triggers, x)
  {
  }

  /** The closure phase never touches `EPS` edges, so every later closure is the original one. */
  lemma PartialEps(a: Machine, done: set<nat>)
    requires done <= a.states
    ensures EpsGraph(a.states, PartialTriggers(a, done)) == EpsGraph(a.states, a.triggers)
  {
    var t := PartialTriggers(a, done);
    forall x | x in a.states
      ensures Targets(t, x, Eps) == Targets(a.triggers, x, Eps)
    {
      PartialTriggersAt(a, done, x);
    }
  }

  lemma ClosePartialWellFormed(a: Machine, done: set<nat>)
    requires WellFormed(a) && done <= a.states
    ensures WellFormed(ClosePartial(a, done))
  {
    CloseTriggersWellFormed(a);
    CloseTerminalsMeaning(a);
    var t := PartialTriggers(a, done);
    forall s, l | s in t && l in t[s]
      ensures t[s][l] <= a.states && t[s][l] != {}
    {
      if s in done {
        assert t[s] == CloseTriggers(a)[s];
      }
    }
  }

  /**
   * The letter targets of a closure member after some starts are closed:
   * at least its own, at most what the whole closure of `s` offers.
   */
  lemma ClosedMemberTargets(a: Machine, done: set<nat>, s: nat, u: nat, l: Label)
    requires WellFormed(a) && done <= a.states && s in a.states
    requires u in Closure(a, s) && l != Eps
    ensures Targets(a.triggers, u, l) <= Targets(PartialTriggers(a, done), u, l)
    ensures Targets(PartialTriggers(a, done), u, l) <= Gather(a.triggers, Closure(a, s), l)
  {
    PartialTriggersAt(a, done, u);
    ClosureWithin(a, s);
    if u in done {
      ReachSetTrans(EpsGraph(a.states, a.triggers), s, u);
      forall x | x in Gather(a.triggers, Closure(a, u), l)
        ensures x in Gather(a.triggers, Closure(a, s), l)
      {
        var v :| v in Closure(a, u) && x in Targets(a.triggers, v, l);
      }
    }
  }

  /** Gathering over the closure of `s` sees the same letter targets before and after the other closures. */
  lemma GatherStable(a: Machine, done: set<nat>, s: nat, l: Label)
    requires WellFormed(a) && done <= a.states && s in a.states && l != Eps
    ensures Gather(PartialTriggers(a, done), Closure(a, s), l) == Gather(a.triggers, Closure(a, s), l)
  {
    var t := PartialTriggers(a, done);
    var c := Closure(a, s);
    forall x | x in Gather(t, c, l)
      ensures x in Gather(a.triggers, c, l)
    {
      var u :| u in c && x in Targets(t, u, l);
      ClosedMemberTargets(a, done, s, u, l);
    }
    forall x | x in Gather(a.triggers, c, l)
      ensures x in Gather(t, c, l)
    {
      var u :| u in c && x in Targets(a.triggers, u, l);
      ClosedMemberTargets(a, done, s, u, l);
    }
  }

  /** A closure meets the partly closed terminals exactly when it meets the original ones. */
  lemma TerminalsStable(a: Machine, done: set<nat>, s: nat)
    requires WellFormed(a) && done <= a.states && s in a.states
    ensures (Closure(a, s) * PartialTerminals(a, done) != {}) <==> (Closure(a, s) * a.terminals != {})
  {
    var pt := PartialTerminals(a, done);
    var c := Closure(a, s);
    assert a.terminals <= pt;
    if c * pt != {} {
      var u :| u in c && u in pt;
      if u !in a.terminals {
        assert u in done && Closure(a, u) * a.terminals != {};
        ClosureWithin(a, s);
        ReachSetTrans(EpsGraph(a.states, a.triggers), s, u);
        var v :| v in Closure(a, u) && v in a.terminals;
        assert v in c * a.terminals;
      } else {
        assert u in c * a.terminals;
      }
    }
  }

  /** The start state absorbs the same label map from the partly closed machine as from the original. */
  lemma AbsorbStable(a: Machine, done: set<nat>, s: nat)
    requires WellFormed(a) && done <= a.states && s in a.states && s !in done
    ensures Absorb(PartialTriggers(a, done), s, Closure(a, s)) == Absorb(a.triggers, s, Closure(a, s))
  {
    var t := PartialTriggers(a, done);
    var c := Closure(a, s);
    PartialTriggersAt(a, done, s);
    var x, y := Absorb(t, s, c), Absorb(a.triggers, s, c);
    forall l
      ensures (l in x <==> l in y) && TargetsIn(x, l) == TargetsIn(y, l)
    {
      if l != Eps {
        GatherStable(a, done, s, l);
      }
    }
    LabelMapsEqual(x, y);
  }

  /** The closure phase never touches `EPS` edges, so a closure computed part-way is the original one. */
  lemma ClosureStable(a: Machine, done: set<nat>, s: nat)
    requires done <= a.states
    ensures ReachSet(EpsGraph(a.states, PartialTriggers(a, done)), s) == Closure(a, s)
  {
    PartialEps(a, done);
  }

  /** Closing `s` on the partly closed machine stores at `s` what closing `s` on the original machine stores. */
  lemma StepTriggersAt(a: Machine, done: set<nat>, s: nat)
    requires WellFormed(a) && done <= a.states && s in a.states && s !in done
    ensures StepTriggers(ClosePartial(a, done), s)
            == PartialTriggers(a, done)[s := Absorb(a.triggers, s, Closure(a, s))]
  {
    ClosureStable(a, done, s);
    AbsorbStable(a, done, s);
  }

  /** Closing one more start changes the partial table at that start only. */
  lemma PartialTriggersOneMore(a: Machine, done: set<nat>, s: nat)
    requires done <= a.states && s in a.states
    ensures PartialTriggers(a, done + {s})
            == PartialTriggers(a, done)[s := Absorb(a.triggers, s, Closure(a, s))]
  {
    OverlayOneMore(a.triggers, done, CloseTriggers(a), s);
  }

  /** Closing one more start makes it terminal exactly when its closure meets a terminal. */
  lemma StepTerminalsAt(a: Machine, done: set<nat>, s: nat)
    requires WellFormed(a) && done <= a.states && s in a.states && s !in done
    ensures StepTerminals(ClosePartial(a, done), s) == PartialTerminals(a, done + {s})
  {
    ClosureStable(a, done, s);
    TerminalsStable(a, done, s);
    CloseTerminalsAt(a, s);
    OneMoreTerminal(a.terminals, done, CloseTerminals(a), s, Closure(a, s) * a.terminals != {});
  }

  lemma OneMoreTerminal(t: set<nat>, done: set<nat>, ct: set<nat>, s: nat, meets: bool)
    requires s in ct <==> meets
    ensures (if meets then t + done * ct + {s} else t + done * ct) == t + (done + {s}) * ct
  {
  }

  /**
   * Running `transitive_close` from one more start `s` on the partly
   * closed machine gives what closing `s` in the original machine gives:
   * the order in which `delete_epsilons` visits the states does not matter.
   */
  lemma ClosePartialOneMore(a: Machine, done: set<nat>, s: nat)
    requires WellFormed(a) && done <= a.states && s in a.states && s !in done
    ensures CloseStep(ClosePartial(a, done), s) == ClosePartial(a, done + {s})
  {
    StepTriggersAt(a, done, s);
    PartialTriggersOneMore(a, done, s);
    StepTerminalsAt(a, done, s);
  }
}

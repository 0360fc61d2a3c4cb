/**
 * `StateMachine` as a class whose fields the operations update in place,
 * as in the source: `concatenate`, `alternate` and `star` rewrite the
 * receiver and then run `delete_epsilons` on it. Every method is proved
 * against the value-level specification in modules Automaton and
 * Construction: its new state is the specification function applied to
 * its old state.
 */
module StateMachines {
  import opened Base
  import opened Reachability
  import opened Automaton
  import opened Incremental
  import opened Postfix
  import opened Construction

  /** The class-level counter `State.num_instances`: each new state takes the next number. */
  class StateCounter {
    var next: nat

    constructor()
      ensures next == 0
    {
      next := 0;
    }

    /** `State()`: a number no earlier state has. */
    method Fresh() returns (n: nat)
      modifies this
      ensures n == old(next) && next == old(next) + 1
    {
      n := next;
      next := next + 1;
    }
  }

  /** The constructor argument that asks for the machine of the empty word. */
  const EPS: string := "EPS"

  /**
   * The counter after compiling `trees` one after another from `base`: the
   * parser builds each operand when it reads it, so every operand's numbers
   * start where the operand below it ended.
   */
  ghost function Top(trees: seq<Regex>, base: nat): nat
    decreases |trees|
  {
    if trees == [] then base
    else Compile(trees[|trees| - 1], Top(trees[..|trees| - 1], base)).next
  }

  /**
   * The parser's operand stack, stated from the top down: the object at
   * each position holds the machine of the tree at that position, compiled
   * from where the operands below it left the counter, and does not appear
   * below it.
   */
  ghost predicate Stack(operands: seq<StateMachine>, trees: seq<Regex>, base: nat)
    reads operands
    decreases |operands|
  {
    && |operands| == |trees|
    && (|operands| > 0 ==>
          var n := |operands| - 1;
          && Stack(operands[..n], trees[..n], base)
          && operands[n] !in operands[..n]
          && operands[n].Model() == Compile(trees[n], Top(trees[..n], base)).machine)
  }

  /** Pushing the machine of `t`, compiled with the counter where the stack left it. */
  lemma StackPush(operands: seq<StateMachine>, trees: seq<Regex>, base: nat, o: StateMachine, t: Regex)
    requires Stack(operands, trees, base) && o !in operands
    requires o.Model() == Compile(t, Top(trees, base)).machine
    ensures Stack(operands + [o], trees + [t], base)
    ensures Top(trees + [t], base) == Compile(t, Top(trees, base)).next
  {
    assert (operands + [o])[..|operands|] == operands;
    assert (trees + [t])[..|trees|] == trees;
  }

  /** The top operand of a non-empty stack, and the stack below it. */
  lemma StackTop(operands: seq<StateMachine>, trees: seq<Regex>, base: nat)
    requires Stack(operands, trees, base) && |operands| >= 1
    ensures var n := |operands| - 1; var lo := Top(trees[..n], base);
            && Stack(operands[..n], trees[..n], base) && operands[n] !in operands[..n]
            && operands[n].Model() == Compile(trees[n], lo).machine
            && Top(trees, base) == Compile(trees[n], lo).next
  {
  }

  /** The two top operands of a stack of at least two, and the stack below them. */
  lemma StackTopTwo(operands: seq<StateMachine>, trees: seq<Regex>, base: nat)
    requires Stack(operands, trees, base) && |operands| >= 2
    ensures var n := |operands|; var lo := Top(trees[..n - 2], base);
            && Stack(operands[..n - 2], trees[..n - 2], base)
            && operands[n - 2] !in operands[..n - 2] && operands[n - 1] != operands[n - 2]
            && operands[n - 2].Model() == Compile(trees[n - 2], lo).machine
            && operands[n - 1].Model() == Compile(trees[n - 1], Compile(trees[n - 2], lo).next).machine
            && Top(trees, base) == Compile(trees[n - 1], Compile(trees[n - 2], lo).next).next
  {
    var n := |operands|;
    StackTop(operands, trees, base);
    StackTop(operands[..n - 1], trees[..n - 1], base);
    assert operands[..n - 1][..n - 2] == operands[..n - 2];
    assert trees[..n - 1][..n - 2] == trees[..n - 2];
  }

  /** The top operand's object now holds the machine of `t`, compiled where the tree it replaces was. */
  lemma StackSetTop(operands: seq<StateMachine>, trees: seq<Regex>, base: nat, t: Regex)
    requires |operands| == |trees| >= 1
    requires var n := |operands| - 1;
             && Stack(operands[..n], trees[..n], base) && operands[n] !in operands[..n]
             && operands[n].Model() == Compile(t, Top(trees[..n], base)).machine
    ensures var n := |operands| - 1;
            && Stack(operands, trees[..n] + [t], base)
            && Top(trees[..n] + [t], base) == Compile(t, Top(trees[..n], base)).next
  {
    var n := |operands| - 1;
    assert operands[..n] + [operands[n]] == operands;
    StackPush(operands[..n], trees[..n], base, operands[n], t);
  }

  class StateMachine {
    var states: set<nat>
    var init: nat
    var terminals: set<nat>
    var triggers: Triggers
    var lastStar: bool
    var regex: string

    /** The current contents as a value. */
    function Model(): Machine
      reads this
    {
      Machine(states, init, terminals, triggers, lastStar, regex)
    }

    ghost predicate Valid()
      reads this
    {
      WellFormed(Model())
    }

    /** The machine of the empty word on a fresh state. */
    constructor EmptyWordOf(ids: StateCounter)
      modifies ids
      ensures Model() == EmptyWord(old(ids.next)) && ids.next == old(ids.next) + 1
      ensures Normalized(Model())
    {
      var s := ids.Fresh();
      states := {s};
      init := s;
      terminals := {s};
      triggers := map[];
      lastStar := false;
      regex := "1";
      AtomsNormalized(s, 'a', s, s + 1);
    }

    /** The machine of the one-letter word `c` on two fresh states. */
    constructor LetterOf(c: char, ids: StateCounter)
      modifies ids
      ensures Model() == Letter(c, old(ids.next), old(ids.next) + 1) && ids.next == old(ids.next) + 2
      ensures Normalized(Model())
    {
      var i := ids.Fresh();
      var t := ids.Fresh();
      states := {i, t};
      init := i;
      terminals := {t};
      triggers := map[i := map[Sym(c) := {t}]];
      lastStar := false;
      regex := [c];
      AtomsNormalized(i, c, i, t);
    }

    /** The copy constructor: the same four parts, flag and text. */
    constructor Copy(other: StateMachine)
      ensures Model() == other.Model()
      ensures other.Valid() ==> Valid()
      ensures Normalized(other.Model()) ==> Normalized(Model())
    {
      states := other.states;
      init := other.init;
      terminals := other.terminals;
      triggers := other.triggers;
      lastStar := other.lastStar;
      regex := other.regex;
    }

    /**
     * The string constructor: `EPS` gives the empty word, `a`, `b` or `c`
     * the one-letter word, and any other argument is refused before a
     * state is allocated.
     */
    static method FromSymbol(arg: string, ids: StateCounter) returns (r: Result<StateMachine>)
      modifies ids
      ensures arg == EPS ==>
                r.Ok? && fresh(r.value) && r.value.Model() == EmptyWord(old(ids.next))
                && ids.next == old(ids.next) + 1
      ensures arg != EPS && |arg| == 1 && IsLetter(arg[0]) ==>
                r.Ok? && fresh(r.value) && r.value.Model() == Letter(arg[0], old(ids.next), old(ids.next) + 1)
                && ids.next == old(ids.next) + 2
      ensures arg != EPS && !(|arg| == 1 && IsLetter(arg[0])) ==>
                r == Err(NotPermitted(arg)) && ids.next == old(ids.next)
      ensures r.Ok? ==> Normalized(r.value.Model())
    {
      if arg == EPS {
        var m := new StateMachine.EmptyWordOf(ids);
        r := Ok(m);
      } else if |arg| == 1 && IsLetter(arg[0]) {
        var m := new StateMachine.LetterOf(arg[0], ids);
        r := Ok(m);
      } else {
        r := Err(NotPermitted(arg));
      }
    }

    /** The targets of `letter` from `state`; `state` must belong to the machine. */
    function Adjacent(state: nat, letter: Label): (r: set<nat>)
      reads this
      requires state in states
      ensures Valid() ==> r <= states
      ensures Valid() ==> (r != {} <==> letter in Inner(triggers, state))
    {
      if letter !in Inner(triggers, state) then {} else triggers[state][letter]
    }

    /**
     * `add_triggers`: every state of `other`'s table is merged into this
     * table, one state at a time.
     */
    method AddTriggers(other: StateMachine)
      requires other != this
      modifies this
      ensures Model() == old(Model()).(triggers := MergeTriggers(old(triggers), other.triggers))
    {
      ghost var mine := triggers;
      var theirs := other.triggers;
      ghost var final := MergeTriggers(mine, theirs);
      var todo := theirs.Keys;
      ghost var done: set<nat> := {};
      OverlayNone(mine, final);
      while todo != {}
        invariant done !! todo && done + todo == theirs.Keys
        invariant Model() == old(Model()).(triggers := Overlay(mine, done, final))
        decreases todo
      {
        var s :| s in todo;
        OverlayPending(mine, done, final, s);
        if s !in triggers {
          triggers := triggers[s := theirs[s]];
        } else {
          var own := triggers[s];
          triggers := triggers[s := map l | l in own :: own[l] + TargetsIn(theirs[s], l)];
        }
        OverlayOneMore(mine, done, final, s);
        done := done + {s};
        todo := todo - {s};
      }
      MergeOverlay(mine, theirs);
    }

    /**
     * The loop `concatenate` and `star` share: an `EPS` edge to `target`
     * from every state of `from`, creating the `EPS` entry where missing.
     */
    method AddEpsEdges(from: set<nat>, target: nat)
      modifies this
      ensures Model() == old(Model()).(triggers := WithEpsEdges(old(triggers), from, target))
    {
      ghost var t0 := triggers;
      ghost var final := WithEpsEdges(t0, from, target);
      var todo := from;
      ghost var done: set<nat> := {};
      OverlayNone(t0, final);
      while todo != {}
        invariant done !! todo && done + todo == from
        invariant Model() == old(Model()).(triggers := Overlay(t0, done, final))
        decreases todo
      {
        var s :| s in todo;
        OverlayPending(t0, done, final, s);
        WithEpsEdgesAt(t0, from, target, s);
        var own := if s in triggers then triggers[s] else map[];
        var eps := if Eps in own then own[Eps] else {};
        triggers := triggers[s := own[Eps := eps + {target}]];
        OverlayOneMore(t0, done, final, s);
        done := done + {s};
        todo := todo - {s};
      }
      WithEpsEdgesOverlay(t0, from, target);
    }

    /**
     * `parse_from_polish_notation_regex`: one left-to-right scan over a
     * stack of machines. `.` and `+` pop two machines and push the lower
     * one combined with the upper one, `*` replaces the top machine by its
     * star, `1` and the letters push a new machine, blanks are skipped,
     * and any other symbol is refused by the string constructor. The scan
     * must end with exactly one machine. The outcome is the one the
     * reference evaluator `Parse` predicts: the same error, or the machine
     * `Compile` builds from the same tree with the counter where it stood.
     */
    static method ParseFromPolishNotationRegex(expr: string, ids: StateCounter) returns (r: Result<StateMachine>)
      modifies ids
      ensures Parse(expr).Err? ==> r == Err(Parse(expr).error)
      ensures Parse(expr).Ok? ==>
                r.Ok? && fresh(r.value) && r.value.Model() == Compile(Parse(expr).value, old(ids.next)).machine
      ensures r.Ok? ==> Normalized(r.value.Model())
    {
      var operands: seq<StateMachine> := [];
      ghost var trees: seq<Regex> := [];
      ghost var base := ids.next;
      var i := 0;
      while i < |expr|
        invariant 0 <= i <= |expr|
        invariant Run([], expr) == Run(trees, expr[i..])
        invariant Stack(operands, trees, base) && ids.next == Top(trees, base)
        invariant forall o :: o in operands ==> fresh(o)
        decreases |expr| - i
      {
        var c := expr[i];
        assert expr[i..] == [c] + expr[i + 1..];
        RunStep(trees, c, expr[i + 1..]);
        var next: Result<seq<StateMachine>>;
        next, trees := Consume(c, operands, ids, trees, base);
        if next.Err? {
          return Err(next.error);
        }
        operands := next.value;
        i := i + 1;
      }
      assert expr[i..] == [];
      if |operands| != 1 {
        return Err(StackSize(|operands|));
      }
      StackTop(operands, trees, base);
      assert trees[..0] == [] && operands[0] in operands;
      CompileNormalized(trees[0], base);
      r := Ok(operands[0]);
    }

    /** One symbol of the scan: the arity checks, then the operator or the new atom. */
    static method Consume(c: char, operands: seq<StateMachine>, ids: StateCounter, ghost trees: seq<Regex>, ghost base: nat)
      returns (r: Result<seq<StateMachine>>, ghost trees': seq<Regex>)
      requires Stack(operands, trees, base) && ids.next == Top(trees, base)
      modifies (set o | o in operands), ids
      ensures Step(trees, c).Err? ==> r == Err(Step(trees, c).error)
      ensures Step(trees, c).Ok? ==>
                && r.Ok? && Step(trees, c) == Ok(trees')
                && Stack(r.value, trees', base) && ids.next == Top(trees', base)
      ensures r.Ok? ==> forall o :: o in r.value ==> o in operands || fresh(o)
    {
      if c == '.' || c == '+' {
        if |operands| < 2 {
          return if c == '.' then Err(ConcatArity) else Err(AltArity), trees;
        }
        var next;
        next, trees' := Binary(c, operands, ids, trees, base);
        r := Ok(next);
      } else if c == '*' {
        if |operands| < 1 {
          return Err(StarArity), trees;
        }
        trees' := Unary(operands, ids, trees, base);
        r := Ok(operands);
      } else if IsBlank(c) {
        r, trees' := Ok(operands), trees;
      } else {
        r, trees' := Atom(c, operands, ids, trees, base);
      }
    }

    /** Any other symbol: `1` or a letter pushes a new machine built by the string constructor. */
    static method Atom(c: char, operands: seq<StateMachine>, ids: StateCounter, ghost trees: seq<Regex>, ghost base: nat)
      returns (r: Result<seq<StateMachine>>, ghost trees': seq<Regex>)
      requires c != '.' && c != '+' && c != '*' && !IsBlank(c)
      requires Stack(operands, trees, base) && ids.next == Top(trees, base)
      modifies ids
      ensures Step(trees, c).Err? ==> r == Err(Step(trees, c).error)
      ensures Step(trees, c).Ok? ==>
                && r.Ok? && Step(trees, c) == Ok(trees')
                && Stack(r.value, trees', base) && ids.next == Top(trees', base)
      ensures r.Ok? ==> forall o :: o in r.value ==> o in operands || fresh(o)
    {
      ghost var t := if c == '1' then One else Lit(c);
      ghost var top := ids.next;
      var made := NewOperand(c, ids);
      if made.Err? {
        return Err(made.error), trees;
      }
      assert made.value.Model() == Compile(t, top).machine && ids.next == Compile(t, top).next;
      StepOperand(trees, c);
      StackPush(operands, trees, base, made.value, t);
      r := Ok(operands + [made.value]);
      trees' := trees + [t];
    }

    /**
     * `1` pushes `StateMachine(EPS)` and any other symbol `StateMachine(c)`:
     * the machine `Compile` builds for the atom on the next free numbers, or
     * the string constructor's refusal.
     */
    static method NewOperand(c: char, ids: StateCounter) returns (r: Result<StateMachine>)
      modifies ids
      ensures c == '1' ==>
                r.Ok? && fresh(r.value) && r.value.Model() == Compile(One, old(ids.next)).machine
                && ids.next == Compile(One, old(ids.next)).next
      ensures IsLetter(c) ==>
                r.Ok? && fresh(r.value) && r.value.Model() == Compile(Lit(c), old(ids.next)).machine
                && ids.next == Compile(Lit(c), old(ids.next)).next
      ensures c != '1' && !IsLetter(c) ==> r == Err(NotPermitted([c])) && ids.next == old(ids.next)
    {
      CompileAtom(One, ids.next);
      CompileAtom(Lit(c), ids.next);
      var arg := if c == '1' then EPS else [c];
      r := FromSymbol(arg, ids);
    }

    /**
     * A `.` or `+` of the scan: the two top operands are popped, the lower
     * one becomes their concatenation or alternation and is pushed back.
     */
    static method Binary(c: char, operands: seq<StateMachine>, ids: StateCounter, ghost trees: seq<Regex>, ghost base: nat)
      returns (operands': seq<StateMachine>, ghost trees': seq<Regex>)
      requires c == '.' || c == '+'
      requires |operands| >= 2
      requires Stack(operands, trees, base) && ids.next == Top(trees, base)
      modifies operands[|operands| - 2], ids
      ensures Stack(operands', trees', base) && ids.next == Top(trees', base)
      ensures var n := |trees|;
              trees' == trees[..n - 2] + [if c == '.' then Cat(trees[n - 2], trees[n - 1]) else Alt(trees[n - 2], trees[n - 1])]
      ensures operands' == operands[..|operands| - 1]
    {
      var n := |operands|;
      var mach1, mach2 := operands[n - 1], operands[n - 2];
      ghost var below, l, r := trees[..n - 2], trees[n - 2], trees[n - 1];
      StackTopTwo(operands, trees, base);
      Combine(c, mach2, mach1, ids, l, r, Top(below, base));
      ghost var t := if c == '.' then Cat(l, r) else Alt(l, r);
      StackPush(operands[..n - 2], below, base, mach2, t);
      operands' := operands[..n - 1];
      assert operands' == operands[..n - 2] + [mach2];
      trees' := below + [t];
    }

    /** A `*` of the scan: the top operand becomes its star. */
    static method Unary(operands: seq<StateMachine>, ids: StateCounter, ghost trees: seq<Regex>, ghost base: nat)
      returns (ghost trees': seq<Regex>)
      requires |operands| >= 1
      requires Stack(operands, trees, base) && ids.next == Top(trees, base)
      modifies operands[|operands| - 1], ids
      ensures Stack(operands, trees', base) && ids.next == Top(trees', base)
      ensures trees' == trees[..|trees| - 1] + [Regex.Star(trees[|trees| - 1])]
    {
      var n := |operands|;
      var mach1 := operands[n - 1];
      ghost var e := trees[n - 1];
      StackTop(operands, trees, base);
      assert mach1 == operands[|operands| - 1];
      StarCompiled(mach1, ids, e, Top(trees[..n - 1], base));
      StackSetTop(operands, trees, base, Regex.Star(e));
      trees' := trees[..n - 1] + [Regex.Star(e)];
    }

    /** `mach2.concatenate(mach1)` for `.`, `mach2.alternate(mach1)` for `+`, on the machines of `l` and `r`. */
    static method Combine(c: char, mach2: StateMachine, mach1: StateMachine, ids: StateCounter,
                          ghost l: Regex, ghost r: Regex, ghost lo: nat)
      requires c == '.' || c == '+'
      requires mach2 != mach1
      requires mach2.Model() == Compile(l, lo).machine
      requires mach1.Model() == Compile(r, Compile(l, lo).next).machine
      requires ids.next == Compile(r, Compile(l, lo).next).next
      modifies mach2, ids
      ensures var t := if c == '.' then Cat(l, r) else Alt(l, r);
              mach2.Model() == Compile(t, lo).machine && ids.next == Compile(t, lo).next
    {
      if c == '.' {
        ConcatCompiled(mach2, mach1, l, r, lo);
      } else {
        AltCompiled(mach2, mach1, ids, l, r, lo);
      }
    }

    /** `mach2.concatenate(mach1)` on the machines of `l` and `r`: the result is the machine of `Cat(l, r)`. */
    static method ConcatCompiled(mach2: StateMachine, mach1: StateMachine, ghost l: Regex, ghost r: Regex, ghost lo: nat)
      requires mach2 != mach1
      requires mach2.Model() == Compile(l, lo).machine
      requires mach1.Model() == Compile(r, Compile(l, lo).next).machine
      modifies mach2
      ensures mach2.Model() == Compile(Cat(l, r), lo).machine
      ensures Compile(Cat(l, r), lo).next == Compile(r, Compile(l, lo).next).next
    {
      CompiledDisjoint(l, r, lo);
      mach2.Concatenate(mach1);
      CompileCatStep(l, r, lo);
    }

    /** `mach2.alternate(mach1)` on the machines of `l` and `r`: the result is the machine of `Alt(l, r)`. */
    static method AltCompiled(mach2: StateMachine, mach1: StateMachine, ids: StateCounter,
                              ghost l: Regex, ghost r: Regex, ghost lo: nat)
      requires mach2 != mach1
      requires mach2.Model() == Compile(l, lo).machine
      requires mach1.Model() == Compile(r, Compile(l, lo).next).machine
      requires ids.next == Compile(r, Compile(l, lo).next).next
      modifies mach2, ids
      ensures mach2.Model() == Compile(Alt(l, r), lo).machine && ids.next == Compile(Alt(l, r), lo).next
    {
      CompiledDisjoint(l, r, lo);
      mach2.Alternate(mach1, ids);
      CompileAltStep(l, r, lo);
    }

    /** `mach1.star()` on the machine of `e`: the result is the machine of `Star(e)`. */
    static method StarCompiled(mach1: StateMachine, ids: StateCounter, ghost e: Regex, ghost lo: nat)
      requires mach1.Model() == Compile(e, lo).machine && ids.next == Compile(e, lo).next
      modifies mach1, ids
      ensures mach1.Model() == Compile(Regex.Star(e), lo).machine && ids.next == Compile(Regex.Star(e), lo).next
    {
      CompileStarIs(e, lo);
      if !mach1.lastStar {
        CompileStarStep(e, lo);
      }
      mach1.Star(ids);
    }

    /**
     * `concatenate`: this machine followed by `other`. The states and
     * tables are joined, every terminal gets an `EPS` edge to `other`'s
     * initial state, the terminals become `other`'s, and then
     * `delete_epsilons` runs. The operands' states must be disjoint, as
     * fresh allocation makes them.
     */
    method Concatenate(other: StateMachine)
      requires other != this && Disjoint(Model(), other.Model())
      modifies this
      ensures Model() == Eliminate(ConcatRaw(old(Model()), other.Model()))
      ensures Normalized(Model())
    {
      ghost var a, b := Model(), other.Model();
      states := states + other.states;
      AddTriggers(other);
      MergeDisjoint(a.triggers, b.triggers);
      AddEpsEdges(terminals, other.init);
      terminals := other.terminals;
      lastStar := false;
      regex := regex + other.regex;
      assert Model() == ConcatRaw(a, b);
      DeleteEpsilons();
    }

    /**
     * `alternate`: a fresh initial state with `EPS` edges to both initial
     * states, the terminals of both, then `delete_epsilons`.
     */
    method Alternate(other: StateMachine, ids: StateCounter)
      requires other != this && Disjoint(Model(), other.Model())
      requires ids.next !in Model().states + other.Model().states
      modifies this, ids
      ensures ids.next == old(ids.next) + 1
      ensures Model() == Eliminate(AltRaw(old(Model()), other.Model(), old(ids.next)))
      ensures Normalized(Model())
    {
      ghost var a, b := Model(), other.Model();
      states := states + other.states;
      AddTriggers(other);
      MergeDisjoint(a.triggers, b.triggers);
      var n := ids.Fresh();
      states := states + {n};
      triggers := triggers[n := map[Eps := {init, other.init}]];
      init := n;
      terminals := terminals + other.terminals;
      lastStar := false;
      regex := AltText(regex, other.regex);
      assert Model() == AltRaw(a, b, n);
      DeleteEpsilons();
    }

    /**
     * `star`: unchanged when the machine is already a star; otherwise a
     * fresh initial state, the only terminal, with an `EPS` edge to the
     * old initial state and one back from every old terminal, then
     * `delete_epsilons`.
     */
    method Star(ids: StateCounter)
      requires Valid() && ids.next !in states
      modifies this, ids
      ensures old(lastStar) ==> Model() == old(Model()) && ids.next == old(ids.next)
      ensures !old(lastStar) ==>
                ids.next == old(ids.next) + 1 && Model() == Eliminate(StarRaw(old(Model()), old(ids.next)))
      ensures Valid()
      ensures !old(lastStar) ==> Normalized(Model())
    {
      if lastStar {
        return;
      }
      ghost var a := Model();
      var n := ids.Fresh();
      states := states + {n};
      triggers := triggers[n := map[Eps := {init}]];
      AddEpsEdges(terminals, n);
      init := n;
      terminals := {n};
      lastStar := true;
      regex := StarText(regex);
      assert Model() == StarRaw(a, n);
      DeleteEpsilons();
    }

    /**
     * `transitive_close(start, start, used)`: the search over `EPS` edges
     * from `start`, then the work the source does at each state it reaches.
     */
    method TransitiveClose(start: nat)
      requires Valid() && start in states
      modifies this
      ensures Model() == CloseStep(old(Model()), start)
    {
      var closure := Reachable(EpsGraph(states, triggers), start);
      AbsorbClosure(start, closure);
    }

    /**
     * The work `transitive_close` does at each state `u` of the closure of
     * `start`: `start` becomes terminal if `u` is, and when `u` is not
     * `start` itself, the label map of `start` (held in `acc` while the
     * loop runs, as the source holds the one dictionary it keeps updating)
     * takes over the letter transitions of `u`; its `EPS` entry is left as
     * it is. The entry of `start` is created if it was missing.
     */
    method AbsorbClosure(start: nat, closure: set<nat>)
      modifies this
      ensures states == old(states) && init == old(init) && lastStar == old(lastStar) && regex == old(regex)
      ensures terminals == if closure * old(terminals) != {} then old(terminals) + {start} else old(terminals)
      ensures triggers == old(triggers)[start := Absorb(old(triggers), start, closure)]
    {
      ghost var ts0 := terminals;
      var acc := Inner(triggers, start);
      var todo := closure;
      AbsorbNone(triggers, start);
      assert closure - todo == {};
      while todo != {}
        invariant todo <= closure
        invariant states == old(states) && init == old(init) && lastStar == old(lastStar) && regex == old(regex)
        invariant triggers == old(triggers)
        invariant terminals == if (closure - todo) * ts0 != {} then ts0 + {start} else ts0
        invariant acc == Absorb(triggers, start, closure - todo)
        decreases todo
      {
        var u :| u in todo;
        ghost var done := closure - todo;
        assert closure - (todo - {u}) == done + {u};
        if u in terminals {
          terminals := terminals + {start};
        }
        if u != start {
          AbsorbOther(triggers, start, done, u);
          acc := MergeLetters(acc, Inner(triggers, u));
        } else {
          AbsorbSelfAgain(triggers, start, done);
        }
        todo := todo - {u};
      }
      assert closure - todo == closure;
      triggers := triggers[start := acc];
    }

    /**
     * `get_unreachable(root)`: the search over all edges from `root`
     * (`dfs`), then every state it did not mark.
     */
    method GetUnreachable(root: nat) returns (obsolete: set<nat>)
      ensures obsolete == states - ReachSet(AnyGraph(states, triggers), root)
      ensures forall s :: s in obsolete <==> s in states && !Reach(AnyGraph(states, triggers), root, s)
    {
      var marked := Reachable(AnyGraph(states, triggers), root);
      obsolete := {};
      var todo := states;
      while todo != {}
        invariant todo <= states
        invariant obsolete == (states - todo) - marked
        decreases todo
      {
        var s :| s in todo;
        if s !in marked {
          obsolete := obsolete + {s};
        }
        todo := todo - {s};
      }
    }

    /**
     * `delete_epsilons`: close every state, pop every `EPS` key, then drop
     * the states `init` cannot reach from the states, the terminals and
     * the table.
     */
    method DeleteEpsilons()
      requires Valid()
      modifies this
      ensures Model() == Eliminate(old(Model()))
      ensures Normalized(Model())
    {
      ghost var a := Model();
      EliminateNormalized(a);
      ClosePhaseLoop();
      RemovePhase();
      PrunePhase();
    }

    /** The first loop of `delete_epsilons`: `transitive_close` from every state in turn. */
    method ClosePhaseLoop()
      requires Valid()
      modifies this
      ensures Model() == ClosePhase(old(Model())) && triggers.Keys <= states
    {
      ghost var a := Model();
      var todo := states;
      ghost var done: set<nat> := {};
      ClosePartialNone(a);
      while todo != {}
        invariant done !! todo && done + todo == a.states
        invariant Model() == ClosePartial(a, done)
        decreases todo
      {
        var s :| s in todo;
        ClosePartialWellFormed(a, done);
        TransitiveClose(s);
        ClosePartialOneMore(a, done, s);
        done := done + {s};
        todo := todo - {s};
      }
      ClosePartialWellFormed(a, done);
      ClosePartialAll(a);
    }

    /** The second loop of `delete_epsilons`: `triggers[state].pop(EPS, None)` for every state. */
    method RemovePhase()
      requires triggers.Keys <= states
      modifies this
      ensures Model() == RemoveEps(old(Model()))
    {
      ghost var t1 := triggers;
      ghost var final := DropEps(states, t1);
      var todo := states;
      ghost var done: set<nat> := {};
      OverlayNone(t1, final);
      while todo != {}
        invariant done !! todo && done + todo == old(states)
        invariant Model() == old(Model()).(triggers := Overlay(t1, done, final))
        decreases todo
      {
        var s :| s in todo;
        OverlayPending(t1, done, final, s);
        var own := if s in triggers then triggers[s] else map[];
        triggers := triggers[s := own - {Eps}];
        OverlayOneMore(t1, done, final, s);
        done := done + {s};
        todo := todo - {s};
      }
      OverlayAll(t1, states, final);
    }

    /** The last part of `delete_epsilons`: remove what `get_unreachable(init)` reports. */
    method PrunePhase()
      modifies this
      ensures Model() == Prune(old(Model()))
    {
      var toDelete := GetUnreachable(init);
      states := states - toDelete;
      terminals := terminals - toDelete;
      ghost var t2 := triggers;
      var todo := toDelete;
      while todo != {}
        invariant todo <= toDelete
        invariant states == old(states) - toDelete && terminals == old(terminals) - toDelete
        invariant init == old(init) && lastStar == old(lastStar) && regex == old(regex)
        invariant triggers == t2 - (toDelete - todo)
        decreases todo
      {
        var s :| s in todo;
        triggers := triggers - {s};
        assert toDelete - (todo - {s}) == toDelete - todo + {s};
        todo := todo - {s};
      }
      assert toDelete - todo == toDelete;
    }
  }
}

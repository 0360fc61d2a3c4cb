/**
 * The automaton `parse_from_polish_notation_regex` builds for an
 * expression tree, as a value: the same combinators applied in the same
 * order, with state numbers handed out by the global counter in the order
 * the scan allocates them (a letter takes two, `1`, alternation and a
 * non-repeated star take one each, concatenation none).
 */
module Construction {
  import opened Base
  import opened Reachability
  import opened Automaton
  import opened Postfix

  /** All states of `m` lie in the half-open number range [lo, hi). */
  ghost predicate InRange(m: Machine, lo: nat, hi: nat)
  {
    forall q :: q in m.states ==> lo <= q < hi
  }

  /** Elimination never invents a state, so it keeps a machine inside its number range. */
  lemma EliminateInRange(a: Machine, lo: nat, hi: nat)
    requires WellFormed(a) && InRange(a, lo, hi)
    ensures InRange(Eliminate(a), lo, hi)
  {
    EliminateNormalized(a);
    var e := Eliminate(a);
    forall q | q in e.states
      ensures lo <= q < hi
    {
      assert q in a.states;
    }
  }

  lemma CatStep(ml: Machine, mr: Machine, lo: nat, mid: nat, hi: nat)
    requires WellFormed(ml) && WellFormed(mr) && InRange(ml, lo, mid) && InRange(mr, mid, hi)
    ensures Disjoint(ml, mr)
    ensures WellFormed(Eliminate(ConcatRaw(ml, mr))) && InRange(Eliminate(ConcatRaw(ml, mr)), lo, hi)
    ensures !Eliminate(ConcatRaw(ml, mr)).lastStar && Eliminate(ConcatRaw(ml, mr)).regex == ml.regex + mr.regex
  {
    assert ml.states !! mr.states by {
      forall q | q in ml.states ensures q !in mr.states { }
    }
    var raw := ConcatRaw(ml, mr);
    assert InRange(raw, lo, hi);
    EliminateNormalized(raw);
    EliminateInRange(raw, lo, hi);
  }

  lemma AltStep(ml: Machine, mr: Machine, lo: nat, mid: nat, hi: nat)
    requires WellFormed(ml) && WellFormed(mr) && InRange(ml, lo, mid) && InRange(mr, mid, hi)
    ensures Disjoint(ml, mr) && hi !in ml.states + mr.states
    ensures WellFormed(Eliminate(AltRaw(ml, mr, hi))) && InRange(Eliminate(AltRaw(ml, mr, hi)), lo, hi + 1)
    ensures !Eliminate(AltRaw(ml, mr, hi)).lastStar
    ensures Eliminate(AltRaw(ml, mr, hi)).regex == AltText(ml.regex, mr.regex)
  {
    assert ml.states !! mr.states by {
      forall q | q in ml.states ensures q !in mr.states { }
    }
    var raw := AltRaw(ml, mr, hi);
    assert InRange(raw, lo, hi + 1);
    EliminateNormalized(raw);
    EliminateInRange(raw, lo, hi + 1);
  }

  lemma StarStep(me: Machine, lo: nat, hi: nat)
    requires WellFormed(me) && InRange(me, lo, hi)
    ensures hi !in me.states
    ensures WellFormed(Eliminate(StarRaw(me, hi))) && InRange(Eliminate(StarRaw(me, hi)), lo, hi + 1)
    ensures Eliminate(StarRaw(me, hi)).lastStar && Eliminate(StarRaw(me, hi)).regex == StarText(me.regex)
  {
    var raw := StarRaw(me, hi);
    assert InRange(raw, lo, hi + 1);
    EliminateNormalized(raw);
    EliminateInRange(raw, lo, hi + 1);
  }

  /** The `1` machine on the next free number. */
  ghost function OneOf(next: nat): (r: Machine)
    ensures WellFormed(r) && InRange(r, next, next + 1)
    ensures !r.lastStar && r.regex == "1"
  {
    EmptyWord(next)
  }

  /** The machine for letter `c` on the next two free numbers. */
  ghost function LitOf(c: char, next: nat): (r: Machine)
    ensures WellFormed(r) && InRange(r, next, next + 2)
    ensures !r.lastStar && r.regex == [c]
  {
    Letter(c, next, next + 1)
  }

  /** `concatenate` on two normalized machines with consecutive number ranges. */
  ghost function CatOf(ml: Machine, mr: Machine, lo: nat, mid: nat, hi: nat): (r: Machine)
    requires WellFormed(ml) && WellFormed(mr) && InRange(ml, lo, mid) && InRange(mr, mid, hi)
    ensures WellFormed(r) && InRange(r, lo, hi)
  {
    CatStep(ml, mr, lo, mid, hi);
    Eliminate(ConcatRaw(ml, mr))
  }

  /** `alternate` on two normalized machines with consecutive number ranges; the new state is `hi`. */
  ghost function AltOf(ml: Machine, mr: Machine, lo: nat, mid: nat, hi: nat): (r: Machine)
    requires WellFormed(ml) && WellFormed(mr) && InRange(ml, lo, mid) && InRange(mr, mid, hi)
    ensures WellFormed(r) && InRange(r, lo, hi + 1)
  {
    AltStep(ml, mr, lo, mid, hi);
    Eliminate(AltRaw(ml, mr, hi))
  }

  /** `star` on a normalized machine that is not already a star; the new state is `hi`. */
  ghost function StarOf(me: Machine, lo: nat, hi: nat): (r: Machine)
    requires WellFormed(me) && InRange(me, lo, hi)
    ensures WellFormed(r) && InRange(r, lo, hi + 1)
  {
    StarStep(me, lo, hi);
    Eliminate(StarRaw(me, hi))
  }

  /** A compiled machine and the counter value after it. */
  datatype Built = Built(machine: Machine, next: nat)

  /**
   * The machine for `t` when the counter stands at `next`, and the counter
   * afterwards. Every intermediate machine is in normal form and owns a
   * block of fresh numbers, so the operands of each combinator are disjoint.
   */
  ghost function Compile(t: Regex, next: nat): (r: Built)
    ensures next < r.next && InRange(r.machine, next, r.next)
    ensures WellFormed(r.machine)
    decreases t, 3
  {
    CompileTree(t, next)
  }

  /**
   * `Compile` one step further in. The extra step keeps a contract that
   * mentions the machine of a tree it knows nothing about from splitting on
   * that tree's operator.
   */
  ghost function CompileTree(t: Regex, next: nat): (r: Built)
    ensures next < r.next && InRange(r.machine, next, r.next)
    ensures WellFormed(r.machine)
    decreases t, 2
  {
    CompileNode(t, next)
  }

  /** One case of `Compile`, by the outermost operator of the tree. */
  ghost function CompileNode(t: Regex, next: nat): (r: Built)
    ensures next < r.next && InRange(r.machine, next, r.next)
    ensures WellFormed(r.machine)
    decreases t, 1
  {
    match t
    case One => Built(OneOf(next), next + 1)
    case Lit(c) => Built(LitOf(c, next), next + 2)
    case Cat(l, r) => CompileCat(l, r, next)
    case Alt(l, r) => CompileAlt(l, r, next)
    case Star(e) => CompileStar(e, next)
  }

  /** An atom compiles to the string constructor's machine on the next free numbers. */
  lemma CompileAtom(t: Regex, next: nat)
    requires t.One? || t.Lit?
    ensures t.One? ==> Compile(t, next) == Built(EmptyWord(next), next + 1)
    ensures t.Lit? ==> Compile(t, next) == Built(Letter(t.c, next, next + 1), next + 2)
  {
    assert Compile(t, next) == CompileTree(t, next) == CompileNode(t, next);
  }

  /** `Compile` of a concatenation: both operands in order, then `concatenate`. */
  ghost function CompileCat(l: Regex, r: Regex, next: nat): (b: Built)
    ensures next < b.next && InRange(b.machine, next, b.next)
    ensures WellFormed(b.machine)
    decreases Cat(l, r), 0
  {
    var left := Compile(l, next);
    var right := Compile(r, left.next);
    Built(CatOf(left.machine, right.machine, next, left.next, right.next), right.next)
  }

  /** `Compile` of an alternation: both operands in order, then `alternate` on one fresh number. */
  ghost function CompileAlt(l: Regex, r: Regex, next: nat): (b: Built)
    ensures next < b.next && InRange(b.machine, next, b.next)
    ensures WellFormed(b.machine)
    decreases Alt(l, r), 0
  {
    var left := Compile(l, next);
    var right := Compile(r, left.next);
    Built(AltOf(left.machine, right.machine, next, left.next, right.next), right.next + 1)
  }

  /** `Compile` of a star: the operand, then `star` unless the operand is itself a star. */
  ghost function CompileStar(e: Regex, next: nat): (b: Built)
    ensures next < b.next && InRange(b.machine, next, b.next)
    ensures WellFormed(b.machine)
    decreases Star(e), 0
  {
    var inner := Compile(e, next);
    if inner.machine.lastStar then inner
    else Built(StarOf(inner.machine, next, inner.next), inner.next + 1)
  }

  /**
   * Every machine the parser builds is in the normal form `delete_epsilons`
   * establishes: no `EPS` edge and every state reachable from the initial one.
   */
  lemma {:induction false} CompileNormalized(t: Regex, next: nat)
    ensures Normalized(Compile(t, next).machine)
  {
    assert Compile(t, next) == CompileTree(t, next) == CompileNode(t, next);
    match t
    case One => AtomsNormalized(next, 'a', next, next + 1);
    case Lit(c) => AtomsNormalized(next, c, next, next + 1);
    case Cat(l, r) =>
      var left := Compile(l, next);
      var right := Compile(r, left.next);
      CompileCatStep(l, r, next);
      EliminateNormalized(ConcatRaw(left.machine, right.machine));
    case Alt(l, r) =>
      var left := Compile(l, next);
      var right := Compile(r, left.next);
      CompileAltStep(l, r, next);
      EliminateNormalized(AltRaw(left.machine, right.machine, right.next));
    case Star(e) =>
      var inner := Compile(e, next);
      CompileStarIs(e, next);
      if inner.machine.lastStar {
        CompileNormalized(e, next);
      } else {
        CompileStarStep(e, next);
        EliminateNormalized(StarRaw(inner.machine, inner.next));
      }
  }

  /** Two trees compiled one after the other get disjoint machines, and the counter after them is fresh for both. */
  lemma CompiledDisjoint(l: Regex, r: Regex, lo: nat)
    ensures var left := Compile(l, lo); var right := Compile(r, left.next);
            Disjoint(left.machine, right.machine) && right.next !in left.machine.states + right.machine.states
  {
    var left := Compile(l, lo);
    var right := Compile(r, left.next);
    assert left.machine.states !! right.machine.states by {
      forall q | q in left.machine.states ensures q !in right.machine.states { }
    }
  }

  lemma CompileAltIs(l: Regex, r: Regex, lo: nat)
    ensures Compile(Alt(l, r), lo) == CompileAlt(l, r, lo)
  {
    assert CompileNode(Alt(l, r), lo) == CompileAlt(l, r, lo);
  }

  lemma CompileAltBody(l: Regex, r: Regex, lo: nat)
    ensures var left := Compile(l, lo); var right := Compile(r, left.next);
            CompileAlt(l, r, lo).next == right.next + 1
            && CompileAlt(l, r, lo).machine == AltOf(left.machine, right.machine, lo, left.next, right.next)
  {
  }

  lemma AltOfIs(ml: Machine, mr: Machine, lo: nat, mid: nat, hi: nat)
    requires Disjoint(ml, mr) && hi !in ml.states + mr.states
    requires WellFormed(ml) && WellFormed(mr) && InRange(ml, lo, mid) && InRange(mr, mid, hi)
    ensures AltOf(ml, mr, lo, mid, hi) == Eliminate(AltRaw(ml, mr, hi))
  {
  }

  lemma CompileStarIs(t: Regex, lo: nat)
    ensures Compile(Star(t), lo) == CompileStar(t, lo)
  {
    assert CompileNode(Star(t), lo) == CompileStar(t, lo);
  }

  lemma CompileStarBody(t: Regex, lo: nat)
    requires !Compile(t, lo).machine.lastStar
    ensures var inner := Compile(t, lo);
            CompileStar(t, lo).next == inner.next + 1
            && CompileStar(t, lo).machine == StarOf(inner.machine, lo, inner.next)
  {
  }

  lemma StarOfIs(me: Machine, lo: nat, hi: nat)
    requires hi !in me.states
    requires WellFormed(me) && InRange(me, lo, hi)
    ensures StarOf(me, lo, hi) == Eliminate(StarRaw(me, hi))
  {
  }

  lemma CompileCatIs(l: Regex, r: Regex, lo: nat)
    ensures Compile(Cat(l, r), lo) == CompileCat(l, r, lo)
  {
    assert CompileNode(Cat(l, r), lo) == CompileCat(l, r, lo);
  }

  lemma CompileCatBody(l: Regex, r: Regex, lo: nat)
    ensures var left := Compile(l, lo); var right := Compile(r, left.next);
            CompileCat(l, r, lo).next == right.next
            && CompileCat(l, r, lo).machine == CatOf(left.machine, right.machine, lo, left.next, right.next)
  {
  }

  lemma CatOfIs(ml: Machine, mr: Machine, lo: nat, mid: nat, hi: nat)
    requires Disjoint(ml, mr)
    requires WellFormed(ml) && WellFormed(mr) && InRange(ml, lo, mid) && InRange(mr, mid, hi)
    ensures CatOf(ml, mr, lo, mid, hi) == Eliminate(ConcatRaw(ml, mr))
  {
  }

  /** One step of `Compile` on a concatenation, with `concatenate` spelled out. */
  lemma CompileCatStep(l: Regex, r: Regex, lo: nat)
    ensures var left := Compile(l, lo); var right := Compile(r, left.next);
            && Disjoint(left.machine, right.machine)
            && Compile(Cat(l, r), lo).next == right.next
            && Compile(Cat(l, r), lo).machine == Eliminate(ConcatRaw(left.machine, right.machine))
  {
    var left := Compile(l, lo);
    var right := Compile(r, left.next);
    CatStep(left.machine, right.machine, lo, left.next, right.next);
    CatOfIs(left.machine, right.machine, lo, left.next, right.next);
    CompileCatBody(l, r, lo);
    CompileCatIs(l, r, lo);
  }

  /** One step of `Compile` on an alternation, with `alternate` spelled out. */
  lemma CompileAltStep(l: Regex, r: Regex, lo: nat)
    ensures var left := Compile(l, lo); var right := Compile(r, left.next);
            && Disjoint(left.machine, right.machine) && right.next !in left.machine.states + right.machine.states
            && Compile(Alt(l, r), lo).next == right.next + 1
            && Compile(Alt(l, r), lo).machine == Eliminate(AltRaw(left.machine, right.machine, right.next))
  {
    var left := Compile(l, lo);
    var right := Compile(r, left.next);
    AltStep(left.machine, right.machine, lo, left.next, right.next);
    AltOfIs(left.machine, right.machine, lo, left.next, right.next);
    CompileAltBody(l, r, lo);
    CompileAltIs(l, r, lo);
  }

  /** One step of `Compile` on a star that is not already one, with `star` spelled out. */
  lemma CompileStarStep(t: Regex, lo: nat)
    requires !Compile(t, lo).machine.lastStar
    ensures var inner := Compile(t, lo);
            && inner.next !in inner.machine.states
            && Compile(Star(t), lo).next == inner.next + 1
            && Compile(Star(t), lo).machine == Eliminate(StarRaw(inner.machine, inner.next))
  {
    var inner := Compile(t, lo);
    StarStep(inner.machine, lo, inner.next);
    StarOfIs(inner.machine, lo, inner.next);
    CompileStarBody(t, lo);
    CompileStarIs(t, lo);
  }

  /**
   * The flags every compiled machine carries: `lastStar` is set exactly for
   * a star, and `regex` is the infix rendering of the tree.
   */
  lemma {:induction false} CompileShape(t: Regex, next: nat)
    ensures Compile(t, next).machine.lastStar == t.Star?
    ensures Compile(t, next).machine.regex == Infix(t)
  {
    assert Compile(t, next) == CompileTree(t, next) == CompileNode(t, next);
    match t
    case One =>
    case Lit(c) =>
    case Cat(l, r) =>
      var left := Compile(l, next);
      var right := Compile(r, left.next);
      CompileShape(l, next);
      CompileShape(r, left.next);
      CompileCatStep(l, r, next);
      CatStep(left.machine, right.machine, next, left.next, right.next);
    case Alt(l, r) =>
      var left := Compile(l, next);
      var right := Compile(r, left.next);
      CompileShape(l, next);
      CompileShape(r, left.next);
      CompileAltStep(l, r, next);
      AltStep(left.machine, right.machine, next, left.next, right.next);
    case Star(e) =>
      var inner := Compile(e, next);
      CompileShape(e, next);
      CompileStarIs(e, next);
      if !inner.machine.lastStar {
        CompileStarStep(e, next);
        StarStep(inner.machine, next, inner.next);
      }
  }

  /** A repeated star changes neither the machine nor the counter (`star` returns early on `lastStar`). */
  lemma StarIdempotent(t: Regex, next: nat)
    ensures Compile(Star(Star(t)), next) == Compile(Star(t), next)
  {
    CompileShape(Star(t), next);
    CompileStarIs(Star(t), next);
  }

  /** The star of any machine accepts the empty word: its initial state is terminal. */
  lemma StarAcceptsEmpty(a: Machine, n: nat)
    requires WellFormed(a) && n !in a.states
    ensures Eliminate(StarRaw(a, n)).init == n
    ensures n in Eliminate(StarRaw(a, n)).terminals
  {
    var raw := StarRaw(a, n);
    EliminateNormalized(raw);
    EliminateTerminals(raw);
    ClosureWithin(raw, n);
  }

  /**
   * After a star every state kept from the operand that was terminal
   * there is still terminal: its `EPS` edge back to the new initial state
   * reaches a terminal.
   */
  lemma StarKeepsTerminals(a: Machine, n: nat, s: nat)
    requires WellFormed(a) && n !in a.states
    requires s in a.terminals && s in Eliminate(StarRaw(a, n)).states
    ensures s in Eliminate(StarRaw(a, n)).terminals
  {
    var raw := StarRaw(a, n);
    EliminateNormalized(raw);
    EliminateTerminals(raw);
    var g := EpsGraph(raw.states, raw.triggers);
    assert n in Succ(g, s) by {
      assert Targets(raw.triggers, s, Eps) == Targets(a.triggers, s, Eps) + {n};
    }
    ReachRefl(g, s);
    ReachStep(g, s, s, n);
    ReachSetMeaning(g, s);
    ReachInNodes(g, s, n);
  }

  /**
   * After a concatenation the initial state is terminal only when the
   * left operand's initial state reached a terminal of the right operand
   * over `EPS` edges.
   */
  lemma ConcatTerminalInit(a: Machine, b: Machine)
    requires Disjoint(a, b)
    ensures Eliminate(ConcatRaw(a, b)).init == a.init
    ensures a.init in Eliminate(ConcatRaw(a, b)).terminals
            <==> Closure(ConcatRaw(a, b), a.init) * b.terminals != {}
  {
    var raw := ConcatRaw(a, b);
    EliminateNormalized(raw);
    EliminateTerminals(raw);
  }
}

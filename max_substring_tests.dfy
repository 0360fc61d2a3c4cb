/**
 * The unit tests of `max_substring` whose automata are small enough to
 * compute by hand: `a*` on `aaaabaabba` and `a1+*` on `aaaaba` (directly,
 * and again after the copy constructor) all give 4. The machines are
 * computed symbolically from the counter value `n` the parser starts at,
 * since the global counter is not reset between tests.
 */
module MaxSubstringTests {
  import opened Base
  import opened Reachability
  import opened Automaton
  import opened Postfix
  import opened Construction
  import opened StateMachines
  import opened Matcher

  // ---------------------------------------------------------------------
  // Computing closures, gathered targets and surviving states
  // ---------------------------------------------------------------------

  /** A closed set that holds `a` and is reachable from `a` is the reachable set of `a`. */
  lemma ReachSetIs(g: Graph, a: nat, s: set<nat>)
    requires a in s && Closed(g, s)
    requires forall b :: b in s ==> Reach(g, a, b)
    ensures ReachSet(g, a) == s
  {
    ReachSetMeaning(g, a);
    forall b | b in ReachSet(g, a)
      ensures b in s
    {
      ClosedHoldsReach(g, s, a, b);
    }
  }

  /** Reachable sets along a chain `a -> b -> c`, where `c` may lead back to `b`. */
  lemma ChainReach(g: Graph, a: nat, b: nat, c: nat)
    requires Succ(g, a) == {b} && Succ(g, b) == {c} && Succ(g, c) <= {b}
    ensures ReachSet(g, a) == {a, b, c} && ReachSet(g, b) == {b, c}
  {
    ReachRefl(g, a);
    ReachStep(g, a, a, b);
    ReachStep(g, a, b, c);
    ReachSetIs(g, a, {a, b, c});
    ReachRefl(g, b);
    ReachStep(g, b, b, c);
    ReachSetIs(g, b, {b, c});
  }

  /** Reachable sets when `a` fans out to `b` and `c`, which have no successors, and `d` has none either. */
  lemma FanReach(g: Graph, a: nat, b: nat, c: nat, d: nat)
    requires Succ(g, a) == {b, c} && Succ(g, b) == {} && Succ(g, c) == {} && Succ(g, d) == {}
    ensures ReachSet(g, a) == {a, b, c} && ReachSet(g, d) == {d}
  {
    ReachRefl(g, a);
    ReachStep(g, a, a, b);
    ReachStep(g, a, a, c);
    ReachSetIs(g, a, {a, b, c});
    ReachRefl(g, d);
    ReachSetIs(g, d, {d});
  }

  /** The `l`-targets of a set of states, when one member `w` has all of them. */
  lemma GatherIs(trig: Triggers, c: set<nat>, l: Label, w: nat, t: set<nat>)
    requires w in c && Targets(trig, w, l) == t
    requires forall u :: u in c ==> Targets(trig, u, l) <= t
    ensures Gather(trig, c, l) == t
  {
    forall x | x in t
      ensures x in Gather(trig, c, l)
    {
      assert w in c && x in Targets(trig, w, l);
    }
  }

  /**
   * The states pruning keeps in an epsilon-free machine: a set that holds
   * `init`, whose other members `init` reaches in one letter, and that no
   * letter leaves.
   */
  lemma PruneStates(m: Machine, keep: set<nat>)
    requires WellFormed(m) && EpsFree(m.triggers) && m.triggers.Keys == m.states
    requires m.init in keep && keep <= m.states
    requires forall s :: s in keep && s != m.init ==> exists x :: s in Targets(m.triggers, m.init, Sym(x))
    requires forall s, x :: s in keep ==> Targets(m.triggers, s, Sym(x)) <= keep
    ensures Prune(m).states == keep
  {
    PruneNormalized(m);
    var g := AnyGraph(m.states, m.triggers);
    forall s | s in keep
      ensures Reach(g, m.init, s)
    {
      ReachRefl(g, m.init);
      if s != m.init {
        var x :| s in Targets(m.triggers, m.init, Sym(x));
        assert s in Succ(g, m.init);
        ReachStep(g, m.init, m.init, s);
      }
    }
    assert Closed(g, keep) by {
      forall u, y | u in keep && y in Succ(g, u)
        ensures y in keep
      {
        var l :| l in Inner(m.triggers, u) && y in Inner(m.triggers, u)[l];
        assert y in Targets(m.triggers, u, Sym(l.c));
      }
    }
    forall s | s in m.states && Reach(g, m.init, s)
      ensures s in keep
    {
      ClosedHoldsReach(g, keep, m.init, s);
    }
  }

  /** The machine `delete_epsilons` prunes: the closed table without `EPS` keys. */
  lemma PrunedInput(a: Machine)
    requires WellFormed(a)
    ensures var m := RemoveEps(ClosePhase(a));
            WellFormed(m) && EpsFree(m.triggers) && m.triggers.Keys == m.states
            && m.states == a.states && m.init == a.init
            && forall s, x :: s in a.states ==>
                 Targets(m.triggers, s, Sym(x)) == Gather(a.triggers, Closure(a, s), Sym(x))
  {
    ClosePhaseMeaning(a);
    RemoveEpsMeaning(ClosePhase(a));
  }

  /**
   * The states `delete_epsilons` keeps: a set that holds the initial state,
   * whose other members the initial state reaches in one letter after
   * closure, and that no letter leaves after closure.
   */
  lemma EliminateStates(a: Machine, keep: set<nat>, c: char)
    requires WellFormed(a) && a.init in keep && keep <= a.states
    requires forall s :: s in keep && s != a.init ==> s in Gather(a.triggers, Closure(a, a.init), Sym(c))
    requires forall s, x :: s in keep ==> Gather(a.triggers, Closure(a, s), Sym(x)) <= keep
    ensures Eliminate(a).states == keep
  {
    var m := RemoveEps(ClosePhase(a));
    PrunedInput(a);
    forall s | s in keep && s != a.init
      ensures exists x :: s in Targets(m.triggers, m.init, Sym(x))
    {
      assert s in Targets(m.triggers, m.init, Sym(c));
    }
    PruneStates(m, keep);
  }

  /** `delete_epsilons` keeps `init`, `lastStar` and well-formedness, and leaves no `EPS` key. */
  lemma EliminateBasics(a: Machine)
    requires WellFormed(a)
    ensures WellFormed(Eliminate(a)) && EpsFree(Eliminate(a).triggers)
    ensures Eliminate(a).init == a.init && Eliminate(a).lastStar == a.lastStar
  {
    EliminateNormalized(a);
  }

  /** A kept state is terminal when its closure met a terminal. */
  lemma EliminateTerminal(a: Machine, s: nat)
    requires WellFormed(a) && s in Eliminate(a).states && Closure(a, s) * a.terminals != {}
    ensures s in Eliminate(a).terminals
  {
    EliminateTerminals(a);
  }

  /** The kept states loop to `p` on `a` when their closures did. */
  lemma EliminateLoops(a: Machine, keep: set<nat>, p: nat)
    requires WellFormed(a) && Eliminate(a).states == keep && p in keep
    requires forall s, x :: s in keep ==> Gather(a.triggers, Closure(a, s), Sym(x)) == if x == 'a' then {p} else {}
    ensures LoopsTo(Eliminate(a).triggers, keep, p)
  {
    forall s, x | s in keep
      ensures Targets(Eliminate(a).triggers, s, Sym(x)) == if x == 'a' then {p} else {}
    {
      EliminateTransitions(a, s, Sym(x));
    }
  }

  /** The kept states' letter transitions are those of `n --a--> t` when their closures gathered just those. */
  lemma EliminateOneEdge(a: Machine, keep: set<nat>, n: nat, t: nat)
    requires WellFormed(a) && Eliminate(a).states == keep
    requires forall s, x :: s in keep ==> Gather(a.triggers, Closure(a, s), Sym(x)) == if s == n && x == 'a' then {t} else {}
    ensures forall s, x :: s in keep ==> Targets(Eliminate(a).triggers, s, Sym(x)) == if s == n && x == 'a' then {t} else {}
  {
    forall s, x | s in keep
      ensures Targets(Eliminate(a).triggers, s, Sym(x)) == if s == n && x == 'a' then {t} else {}
    {
      EliminateTransitions(a, s, Sym(x));
    }
  }

  // ---------------------------------------------------------------------
  // Walks on a loop labelled `a`
  // ---------------------------------------------------------------------

  /** The length of the leading run of `a`s. */
  function LeadA(s: string): (r: nat)
    ensures r <= |s|
  {
    if s != [] && s[0] == 'a' then 1 + LeadA(s[1..]) else 0
  }

  /** Below the leading run every character is an `a`. */
  lemma {:induction false} LeadAPrefix(s: string, j: nat)
    requires j < LeadA(s)
    ensures j < |s| && s[j] == 'a'
    decreases |s|
  {
    if j > 0 {
      LeadAPrefix(s[1..], j - 1);
    }
  }

  /** A run of `k` `a`s followed by the end or by another character is the leading run. */
  lemma {:induction false} LeadAIs(s: string, k: nat)
    requires k <= |s| && (k < |s| ==> s[k] != 'a')
    requires forall j :: 0 <= j < k ==> s[j] == 'a'
    ensures LeadA(s) == k
    decreases k
  {
    if k > 0 {
      LeadAIs(s[1..], k - 1);
    }
  }

  /** Every state moves on `a`, and only on `a`, to the state `p`. */
  ghost predicate LoopsTo(trig: Triggers, states: set<nat>, p: nat)
  {
    && p in states
    && forall u, x :: u in states ==> Targets(trig, u, Sym(x)) == if x == 'a' then {p} else {}
  }

  /** On such a machine a walk follows the leading run of `a`s. */
  lemma {:induction false} WalkLoop(trig: Triggers, states: set<nat>, p: nat, q: nat, s: string)
    requires LoopsTo(trig, states, p) && q in states
    ensures Walk(trig, q, s) == LeadA(s)
    decreases |s|
  {
    if s != [] && s[0] == 'a' {
      WalkLoop(trig, states, p, p, s[1..]);
      var ends := Continuations(trig, {p}, s[1..]);
      assert ends == {1 + Walk(trig, p, s[1..])};
      MaxOfIs(ends, 1 + LeadA(s[1..]));
    }
  }

  /** `max_substring` on such a machine is the longest run of `a`s in the text. */
  lemma LoopLongest(trig: Triggers, states: set<nat>, p: nat, s: string, n: nat, i0: nat)
    requires LoopsTo(trig, states, p) && i0 < |s|
    requires forall i :: 0 <= i < |s| ==> LeadA(s[i..]) <= n
    requires LeadA(s[i0..]) == n
    ensures LongestWalk(trig, states, s) == n
  {
    forall q, i | q in states && 0 <= i < |s|
      ensures Walk(trig, q, s[i..]) <= n
    {
      WalkLoop(trig, states, p, q, s[i..]);
    }
    WalkLoop(trig, states, p, p, s[i0..]);
    ScanResult(trig, states, s, n, (p, i0));
  }

  /** The longest run of `a`s in `aaaabaabba` has length 4. */
  lemma RunsOfFirstText()
    ensures forall i :: 0 <= i < 10 ==> LeadA("aaaabaabba"[i..]) <= 4
    ensures LeadA("aaaabaabba") == 4
  {
    var s := "aaaabaabba";
    forall i | 0 <= i < 10
      ensures LeadA(s[i..]) <= 4
    {
      if LeadA(s[i..]) > 4 {
        LeadAPrefix(s[i..], 0);
        LeadAPrefix(s[i..], 1);
        LeadAPrefix(s[i..], 2);
        LeadAPrefix(s[i..], 3);
        LeadAPrefix(s[i..], 4);
      }
    }
    LeadAIs(s, 4);
  }

  /** The longest run of `a`s in `aaaaba` has length 4. */
  lemma RunsOfSecondText()
    ensures forall i :: 0 <= i < 6 ==> LeadA("aaaaba"[i..]) <= 4
    ensures LeadA("aaaaba") == 4
  {
    var s := "aaaaba";
    forall i | 0 <= i < 6
      ensures LeadA(s[i..]) <= 4
    {
      if LeadA(s[i..]) > 4 {
        LeadAPrefix(s[i..], 0);
        LeadAPrefix(s[i..], 3);
        LeadAPrefix(s[i..], 4);
      }
    }
    LeadAIs(s, 4);
  }

  // ---------------------------------------------------------------------
  // The machine shapes the tests go through
  // ---------------------------------------------------------------------

  /** A well-formed machine with the one transition `i --a--> t`, starting at `i`. */
  ghost predicate OneLetter(m: Machine, i: nat, t: nat)
  {
    && WellFormed(m) && m.states == {i, t} && m.init == i && i != t
    && forall s, l :: Targets(m.triggers, s, l) == if s == i && l == Sym('a') then {t} else {}
  }

  /**
   * `i --a--> t` under a star on `n`, before `delete_epsilons`:
   * `t --EPS--> n --EPS--> i`, starting at `n`, and `i --EPS--> n` too
   * when `back` (`i` was terminal).
   */
  ghost predicate StarredLetter(r: Machine, i: nat, t: nat, n: nat, back: bool)
  {
    && WellFormed(r) && r.states == {i, t, n} && r.init == n
    && i != t && t != n && n != i
    && forall s, l :: Targets(r.triggers, s, l)
                      == if s == i && l == Sym('a') then {t}
                         else if s == t && l == Eps then {n}
                         else if s == n && l == Eps then {i}
                         else if s == i && l == Eps && back then {n}
                         else {}
  }

  /** `star` on a one-letter machine whose target is terminal gives a starred letter. */
  lemma StarOfOneLetter(m: Machine, i: nat, t: nat, n: nat)
    requires OneLetter(m, i, t) && t in m.terminals && n !in m.states
    ensures StarredLetter(StarRaw(m, n), i, t, n, i in m.terminals)
  {
  }

  /** In a starred letter the closures of `t` and `n` both reach `i`, so both gather `t` on `a`. */
  lemma StarredLetterGathers(r: Machine, i: nat, t: nat, n: nat, back: bool, x: char)
    requires StarredLetter(r, i, t, n, back)
    ensures Gather(r.triggers, Closure(r, t), Sym(x)) == if x == 'a' then {t} else {}
    ensures Gather(r.triggers, Closure(r, n), Sym(x)) == if x == 'a' then {t} else {}
  {
    var g := EpsGraph(r.states, r.triggers);
    assert Succ(g, t) == {n} && Succ(g, n) == {i} && Succ(g, i) <= {n};
    ChainReach(g, t, n, i);
    GatherIs(r.triggers, {t, n, i}, Sym(x), i, if x == 'a' then {t} else {});
    GatherIs(r.triggers, {n, i}, Sym(x), i, if x == 'a' then {t} else {});
  }

  /** `delete_epsilons` turns a starred letter into two states that loop to `t` on `a`. */
  lemma StarredLetterEliminated(r: Machine, i: nat, t: nat, n: nat, back: bool)
    requires StarredLetter(r, i, t, n, back)
    ensures Eliminate(r).states == {t, n}
    ensures LoopsTo(Eliminate(r).triggers, Eliminate(r).states, t)
  {
    forall s, x | s in {t, n}
      ensures Gather(r.triggers, Closure(r, s), Sym(x)) == if x == 'a' then {t} else {}
    {
      StarredLetterGathers(r, i, t, n, back, x);
    }
    EliminateStates(r, {t, n}, 'a');
    EliminateLoops(r, {t, n}, t);
  }

  /**
   * A letter `i --a--> t` beside the empty word on `e`, under an
   * alternation on `n`: `n --EPS--> i, e`, starting at `n`.
   */
  ghost predicate LetterOrEmpty(r: Machine, i: nat, t: nat, e: nat, n: nat)
  {
    && WellFormed(r) && r.states == {i, t, e, n} && r.init == n && r.terminals == {t, e}
    && i != t && i != e && i != n && t != e && t != n && e != n
    && forall s, l :: Targets(r.triggers, s, l)
                      == if s == i && l == Sym('a') then {t}
                         else if s == n && l == Eps then {i, e}
                         else {}
  }

  /** The epsilon closures of `t` and `n` in a letter beside the empty word. */
  lemma LetterOrEmptyClosures(r: Machine, i: nat, t: nat, e: nat, n: nat)
    requires LetterOrEmpty(r, i, t, e, n)
    ensures Closure(r, t) == {t} && Closure(r, n) == {n, i, e}
  {
    var g := EpsGraph(r.states, r.triggers);
    assert Succ(g, n) == {i, e} && Succ(g, i) == {} && Succ(g, e) == {} && Succ(g, t) == {};
    FanReach(g, n, i, e, t);
  }

  /** Only the closure of `n` holds `i`, so only it gathers `t` on `a`. */
  lemma LetterOrEmptyGathers(r: Machine, i: nat, t: nat, e: nat, n: nat, x: char)
    requires LetterOrEmpty(r, i, t, e, n)
    ensures Gather(r.triggers, Closure(r, t), Sym(x)) == {}
    ensures Gather(r.triggers, Closure(r, n), Sym(x)) == if x == 'a' then {t} else {}
  {
    LetterOrEmptyClosures(r, i, t, e, n);
    GatherIs(r.triggers, {t}, Sym(x), t, {});
    GatherIs(r.triggers, {n, i, e}, Sym(x), i, if x == 'a' then {t} else {});
  }

  /** The closures of `t` and of `n` both meet a terminal: `t` itself and the empty word's `e`. */
  lemma LetterOrEmptyTerminals(r: Machine, i: nat, t: nat, e: nat, n: nat)
    requires LetterOrEmpty(r, i, t, e, n)
    ensures Closure(r, t) * r.terminals != {} && Closure(r, n) * r.terminals != {}
  {
    LetterOrEmptyClosures(r, i, t, e, n);
    assert t in Closure(r, t) * r.terminals;
    assert e in Closure(r, n) * r.terminals;
  }

  /** What `delete_epsilons` needs to know about a letter beside the empty word. */
  lemma LetterOrEmptyFacts(r: Machine, i: nat, t: nat, e: nat, n: nat)
    requires LetterOrEmpty(r, i, t, e, n)
    ensures forall s, x :: s in {t, n} ==>
              Gather(r.triggers, Closure(r, s), Sym(x)) == if s == n && x == 'a' then {t} else {}
  {
    forall s, x | s in {t, n}
      ensures Gather(r.triggers, Closure(r, s), Sym(x)) == if s == n && x == 'a' then {t} else {}
    {
      LetterOrEmptyGathers(r, i, t, e, n, x);
    }
  }

  /**
   * `delete_epsilons` leaves one letter `n --a--> t` when that is what the
   * closures of `n` and `t` gather.
   */
  lemma EliminateOneLetter(r: Machine, t: nat, n: nat)
    requires WellFormed(r) && r.init == n && t in r.states && t != n
    requires forall s, x :: s in {t, n} ==>
               Gather(r.triggers, Closure(r, s), Sym(x)) == if s == n && x == 'a' then {t} else {}
    ensures OneLetter(Eliminate(r), n, t)
    ensures Eliminate(r).lastStar == r.lastStar
  {
    EliminateOneLetterParts(r, t, n);
    EliminateBasics(r);
    OneLetterIntro(Eliminate(r), n, t);
  }

  /** The kept states and their letter transitions. */
  lemma EliminateOneLetterParts(r: Machine, t: nat, n: nat)
    requires WellFormed(r) && r.init == n && t in r.states
    requires forall s, x :: s in {t, n} ==>
               Gather(r.triggers, Closure(r, s), Sym(x)) == if s == n && x == 'a' then {t} else {}
    ensures Eliminate(r).states == {t, n}
    ensures forall s, x :: s in Eliminate(r).states ==>
              Targets(Eliminate(r).triggers, s, Sym(x)) == if s == n && x == 'a' then {t} else {}
  {
    EliminateStates(r, {t, n}, 'a');
    EliminateOneEdge(r, {t, n}, n, t);
  }

  /** A machine with no `EPS` key is one letter when its states' letter transitions are. */
  lemma OneLetterIntro(m: Machine, i: nat, t: nat)
    requires WellFormed(m) && EpsFree(m.triggers) && m.states == {t, i} && m.init == i && i != t
    requires forall s, x :: s in m.states ==> Targets(m.triggers, s, Sym(x)) == if s == i && x == 'a' then {t} else {}
    ensures OneLetter(m, i, t)
  {
    forall s, l
      ensures Targets(m.triggers, s, l) == if s == i && l == Sym('a') then {t} else {}
    {
      if l.Sym? && s in m.states {
        assert Targets(m.triggers, s, Sym(l.c)) == if s == i && l.c == 'a' then {t} else {};
      }
    }
  }

  // ---------------------------------------------------------------------
  // test_4: `a*` on `aaaabaabba`
  // ---------------------------------------------------------------------

  /** `StateMachine('a')` is one letter. */
  lemma LetterIsOneLetter(c: nat)
    ensures OneLetter(Letter('a', c, c + 1), c, c + 1)
  {
    AtomsNormalized(c, 'a', c, c + 1);
  }

  /** `max_substring` of the machine for `a*` on `aaaabaabba` is 4, whatever the counter stood at. */
  lemma StarALongest(n: nat)
    ensures var m := Compile(Star(Lit('a')), n).machine;
            LongestWalk(m.triggers, m.states, "aaaabaabba") == 4
  {
    CompileAtom(Lit('a'), n);
    CompileStarStep(Lit('a'), n);
    var inner := Letter('a', n, n + 1);
    LetterIsOneLetter(n);
    StarOfOneLetter(inner, n, n + 1, n + 2);
    StarredLetterEliminated(StarRaw(inner, n + 2), n, n + 1, n + 2, false);
    var m := Eliminate(StarRaw(inner, n + 2));
    RunsOfFirstText();
    LoopLongest(m.triggers, m.states, n + 1, "aaaabaabba", 4, 0);
  }

  // ---------------------------------------------------------------------
  // test_6 and test_7: `a1+*` on `aaaaba`
  // ---------------------------------------------------------------------

  /** `StateMachine('a')` and `StateMachine(EPS)` under an alternation, before `delete_epsilons`. */
  ghost function AltA(n: nat): Machine
  {
    AtomsNormalized(n + 2, 'a', n, n + 1);
    AltRaw(Letter('a', n, n + 1), EmptyWord(n + 2), n + 3)
  }

  /** The alternation is a letter beside the empty word. */
  lemma AltAShape(n: nat)
    ensures LetterOrEmpty(AltA(n), n, n + 1, n + 2, n + 3)
  {
  }

  /** After `delete_epsilons` the alternation is one letter `n + 3 --a--> n + 1`, both states terminal. */
  lemma AltAEliminated(n: nat)
    ensures OneLetter(Eliminate(AltA(n)), n + 3, n + 1)
    ensures n + 1 in Eliminate(AltA(n)).terminals && n + 3 in Eliminate(AltA(n)).terminals
    ensures !Eliminate(AltA(n)).lastStar
  {
    AltAShape(n);
    LetterOrEmptyFacts(AltA(n), n, n + 1, n + 2, n + 3);
    EliminateOneLetter(AltA(n), n + 1, n + 3);
    LetterOrEmptyTerminals(AltA(n), n, n + 1, n + 2, n + 3);
    EliminateTerminal(AltA(n), n + 1);
    EliminateTerminal(AltA(n), n + 3);
  }

  /** The parser builds the alternation from `a` on `n`, `n + 1` and `1` on `n + 2`, and moves the counter to `n + 4`. */
  lemma AltACompiled(n: nat)
    ensures Compile(Alt(Lit('a'), One), n) == Built(Eliminate(AltA(n)), n + 4)
  {
    CompileAtom(Lit('a'), n);
    CompileAtom(One, n + 2);
    CompileAltStep(Lit('a'), One, n);
  }

  /** `max_substring` of the machine for `a1+*` on `aaaaba` is 4, whatever the counter stood at. */
  lemma AltStarLongest(n: nat)
    ensures var m := Compile(Star(Alt(Lit('a'), One)), n).machine;
            LongestWalk(m.triggers, m.states, "aaaaba") == 4
  {
    AltACompiled(n);
    AltAEliminated(n);
    CompileStarStep(Alt(Lit('a'), One), n);
    var inner := Eliminate(AltA(n));
    StarOfOneLetter(inner, n + 3, n + 1, n + 4);
    StarredLetterEliminated(StarRaw(inner, n + 4), n + 3, n + 1, n + 4, true);
    var m := Eliminate(StarRaw(inner, n + 4));
    RunsOfSecondText();
    LoopLongest(m.triggers, m.states, n + 1, "aaaaba", 4, 0);
  }

  // ---------------------------------------------------------------------
  // The tests themselves, from the parser through `max_substring`
  // ---------------------------------------------------------------------

  /** test_4: the machine parsed from `a*` gives 4 on `aaaabaabba`. */
  method StarTest(ids: StateCounter) returns (r: Result<nat>)
    modifies ids
    ensures r == Ok(4)
  {
    ParseExamples();
    StarALongest(ids.next);
    var machine := StateMachine.ParseFromPolishNotationRegex("a*", ids);
    r := MaxSubstring(machine.value, Some("aaaabaabba"));
  }

  /** test_6: the machine parsed from `a1+*` gives 4 on `aaaaba`. */
  method AltStarTest(ids: StateCounter) returns (r: Result<nat>)
    modifies ids
    ensures r == Ok(4)
  {
    ParseExamples();
    AltStarLongest(ids.next);
    var machine := StateMachine.ParseFromPolishNotationRegex("a1+*", ids);
    r := MaxSubstring(machine.value, Some("aaaaba"));
  }

  /** test_7: as test_6, on a copy made by the copy constructor. */
  method CopiedAltStarTest(ids: StateCounter) returns (r: Result<nat>)
    modifies ids
    ensures r == Ok(4)
  {
    ParseExamples();
    AltStarLongest(ids.next);
    var parsed := StateMachine.ParseFromPolishNotationRegex("a1+*", ids);
    var machine := new StateMachine.Copy(parsed.value);
    r := MaxSubstring(machine, Some("aaaaba"));
  }
}

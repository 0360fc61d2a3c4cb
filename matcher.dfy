/**
 * The matcher: `recursive_traversal` follows the transitions labelled by
 * the successive characters of a text from one state and returns the
 * length of the longest prefix it can follow; `max_substring` tries every
 * state and every start offset. Both work on the table of a machine after
 * `delete_epsilons`, where every transition reads one character.
 *
 * `Walk` is the value `recursive_traversal` returns, as a recursive
 * function; `Walkable` is an independent definition of "the word labels a
 * walk from this state", and the lemmas show that `Walk` is the length of
 * the longest walkable prefix and `LongestWalk` the length of the longest
 * walkable substring.
 */
module Matcher {
  import opened Base
  import opened StateMachines

  /** The largest element of a finite set of lengths, 0 for the empty set (the source's `max_len = 0` start). */
  ghost function MaxOf(lengths: set<nat>): (r: nat)
    ensures forall x :: x in lengths ==> x <= r
    ensures lengths != {} ==> r in lengths
    ensures lengths == {} ==> r == 0
    decreases lengths
  {
    if lengths == {} then 0
    else
      var x :| x in lengths;
      var rest := MaxOf(lengths - {x});
      assert forall y :: y in lengths ==> y == x || y in lengths - {x};
      assert lengths - {x} != {} ==> rest in lengths;
      if x < rest then rest else x
  }

  /** An upper bound that is attained (or is 0) is the maximum. */
  lemma MaxOfIs(lengths: set<nat>, n: nat)
    requires forall x :: x in lengths ==> x <= n
    requires n in lengths || n == 0
    ensures MaxOf(lengths) == n
  {
  }

  /**
   * The value of `recursive_traversal(m, s, q)`: 0 on the empty text,
   * otherwise one more than the best continuation from any target of the
   * first character (0 when there is none).
   */
  ghost function Walk(trig: Triggers, q: nat, s: string): (r: nat)
    ensures r <= |s|
    ensures r > 0 <==> s != [] && Targets(trig, q, Sym(s[0])) != {}
    decreases |s|, 0
  {
    if s == [] then 0
    else MaxOf(Continuations(trig, Targets(trig, q, Sym(s[0])), s[1..]))
  }

  /** The candidate lengths `1 + Walk(t, rest)` for every target `t` of one step. */
  ghost function Continuations(trig: Triggers, targets: set<nat>, rest: string): (r: set<nat>)
    ensures forall x :: x in r ==> 1 <= x <= |rest| + 1
    ensures r == {} <==> targets == {}
    decreases |rest|, 1
  {
    var r := set t | t in targets :: 1 + Walk(trig, t, rest);
    assert targets != {} ==> r != {} by {
      if targets != {} {
        var t :| t in targets;
        assert 1 + Walk(trig, t, rest) in r;
      }
    }
    r
  }

  /** The loop of `recursive_traversal` over the targets computes the maximum of the continuations. */
  lemma ContinuationsMax(trig: Triggers, targets: set<nat>, rest: string, n: nat, best: nat)
    requires forall t :: t in targets ==> 1 + Walk(trig, t, rest) <= n
    requires n == 0 || (best in targets && n == 1 + Walk(trig, best, rest))
    ensures MaxOf(Continuations(trig, targets, rest)) == n
  {
    var ends := Continuations(trig, targets, rest);
    forall x | x in ends
      ensures x <= n
    {
      var t :| t in targets && x == 1 + Walk(trig, t, rest);
    }
    if n != 0 {
      assert n in ends;
    }
    MaxOfIs(ends, n);
  }

  /** `w` can be read from `q`: each character labels a transition from where the previous one led. */
  ghost predicate Walkable(trig: Triggers, q: nat, w: string)
    decreases |w|
  {
    w == [] || exists t :: t in Targets(trig, q, Sym(w[0])) && Walkable(trig, t, w[1..])
  }

  /** The prefix of length `Walk` can be read from `q`. */
  lemma {:induction false} WalkWalkable(trig: Triggers, q: nat, s: string)
    ensures Walkable(trig, q, s[..Walk(trig, q, s)])
    decreases |s|
  {
    var n := Walk(trig, q, s);
    if n > 0 {
      var ends := Continuations(trig, Targets(trig, q, Sym(s[0])), s[1..]);
      assert n in ends;
      var t :| t in Targets(trig, q, Sym(s[0])) && n == 1 + Walk(trig, t, s[1..]);
      WalkWalkable(trig, t, s[1..]);
      assert s[..n][1..] == s[1..][..n - 1];
    }
  }

  /** No longer prefix can be read from `q`. */
  lemma {:induction false} WalkMaximal(trig: Triggers, q: nat, s: string, k: nat)
    requires k <= |s| && Walkable(trig, q, s[..k])
    ensures k <= Walk(trig, q, s)
    decreases |s|
  {
    if k > 0 {
      var w := s[..k];
      var t :| t in Targets(trig, q, Sym(w[0])) && Walkable(trig, t, w[1..]);
      assert w[1..] == s[1..][..k - 1];
      WalkMaximal(trig, t, s[1..], k - 1);
      assert 1 + Walk(trig, t, s[1..]) in Continuations(trig, Targets(trig, q, Sym(s[0])), s[1..]);
    }
  }

  /** The scores `max_substring` compares: one per state and start offset. */
  ghost function Scores(trig: Triggers, states: set<nat>, s: string): set<nat>
  {
    set q, i | q in states && 0 <= i < |s| :: Walk(trig, q, s[i..])
  }

  /** The value of `max_substring`: the best `Walk` over every state and every start offset. */
  ghost function LongestWalk(trig: Triggers, states: set<nat>, s: string): (r: nat)
    ensures r <= |s|
  {
    assert forall x :: x in Scores(trig, states, s) ==> x <= |s|;
    MaxOf(Scores(trig, states, s))
  }

  lemma ScoresMember(trig: Triggers, states: set<nat>, s: string, q: nat, i: nat)
    requires q in states && i < |s|
    ensures Walk(trig, q, s[i..]) in Scores(trig, states, s)
  {
  }

  /** A bound on every state and offset bounds every score. */
  lemma ScoresBound(trig: Triggers, states: set<nat>, s: string, n: nat)
    requires forall q, i :: q in states && 0 <= i < |s| ==> Walk(trig, q, s[i..]) <= n
    ensures forall x :: x in Scores(trig, states, s) ==> x <= n
  {
  }

  /** No substring that can be read from a state is longer than `LongestWalk`. */
  lemma LongestWalkBound(trig: Triggers, states: set<nat>, s: string, q: nat, i: nat, j: nat)
    requires q in states && i <= j <= |s| && Walkable(trig, q, s[i..j])
    ensures j - i <= LongestWalk(trig, states, s)
  {
    if i < j {
      assert s[i..j] == s[i..][..j - i];
      WalkMaximal(trig, q, s[i..], j - i);
      assert Walk(trig, q, s[i..]) in Scores(trig, states, s);
    }
  }

  /** Some substring of length `LongestWalk` can be read from a state. */
  lemma LongestWalkAttained(trig: Triggers, states: set<nat>, s: string)
    requires LongestWalk(trig, states, s) > 0
    ensures exists q, i, j :: q in states && 0 <= i <= j <= |s| && j - i == LongestWalk(trig, states, s)
                              && Walkable(trig, q, s[i..j])
  {
    var n := LongestWalk(trig, states, s);
    assert n in Scores(trig, states, s);
    var q, i :| q in states && 0 <= i < |s| && n == Walk(trig, q, s[i..]);
    WalkWalkable(trig, q, s[i..]);
    assert s[i..][..n] == s[i..i + n];
  }

  /**
   * `recursive_traversal`: the longest prefix of `input` that can be read
   * from `q`, found by trying every target of the first character and
   * recursing on the rest of the text.
   */
  method RecursiveTraversal(m: StateMachine, input: string, q: nat) returns (n: nat)
    requires m.Valid() && q in m.states
    ensures n == Walk(m.triggers, q, input)
    decreases |input|
  {
    if input == [] {
      return 0;
    }
    if Sym(input[0]) !in Inner(m.triggers, q) {
      return 0;
    }
    var rest := input[1..];
    var next := m.Adjacent(q, Sym(input[0]));
    assert next == Targets(m.triggers, q, Sym(input[0]));
    n := 0;
    var todo := next;
    ghost var done: set<nat> := {};
    ghost var best: nat := 0;
    while todo != {}
      invariant done + todo == next && done !! todo
      invariant forall t :: t in done ==> 1 + Walk(m.triggers, t, rest) <= n
      invariant n == 0 || (best in next && n == 1 + Walk(m.triggers, best, rest))
      decreases todo
    {
      var t :| t in todo;
      var k := RecursiveTraversal(m, rest, t);
      if n < 1 + k {
        n := 1 + k;
        best := t;
      }
      todo := todo - {t};
      done := done + {t};
    }
    ContinuationsMax(m.triggers, next, rest, n, best);
  }

  /**
   * The inner loop of `max_substring`: `recursive_traversal` from `q` at
   * every start offset of `s`, raising `maxLen` whenever it is beaten.
   * `best` names the state and offset that attain the current maximum.
   */
  method ScanOffsets(m: StateMachine, s: string, q: nat, maxLen: nat, ghost best: (nat, nat))
    returns (n: nat, ghost best': (nat, nat))
    requires m.Valid() && q in m.states
    requires maxLen == 0 || (best.0 in m.states && best.1 < |s| && maxLen == Walk(m.triggers, best.0, s[best.1..]))
    ensures maxLen <= n
    ensures forall i :: 0 <= i < |s| ==> Walk(m.triggers, q, s[i..]) <= n
    ensures n == 0 || (best'.0 in m.states && best'.1 < |s| && n == Walk(m.triggers, best'.0, s[best'.1..]))
  {
    n, best' := maxLen, best;
    for i := 0 to |s|
      invariant maxLen <= n
      invariant forall i' :: 0 <= i' < i ==> Walk(m.triggers, q, s[i'..]) <= n
      invariant n == 0 || (best'.0 in m.states && best'.1 < |s| && n == Walk(m.triggers, best'.0, s[best'.1..]))
    {
      var len := RecursiveTraversal(m, s[i..], q);
      if n < len {
        n := len;
        best' := (q, i);
      }
    }
  }

  /**
   * `max_substring`: the empty text gives 0, a missing text is refused,
   * and otherwise the result is the best `recursive_traversal` over every
   * state and every start offset of the text.
   */
  method MaxSubstring(m: StateMachine, example: Option<string>) returns (r: Result<nat>)
    requires m.Valid()
    ensures example == Some("") ==> r == Ok(0)
    ensures example == None ==> r == Err(NoneArgument)
    ensures example.Some? ==> r == Ok(LongestWalk(m.triggers, m.states, example.value))
  {
    if example == Some("") {
      return Ok(0);
    }
    if example == None {
      return Err(NoneArgument);
    }
    var s := example.value;
    var maxLen := 0;
    ghost var best: (nat, nat) := (0, 0);
    var todo := m.states;
    ghost var done: set<nat> := {};
    while todo != {}
      invariant done + todo == m.states && done !! todo
      invariant forall q, i :: q in done && 0 <= i < |s| ==> Walk(m.triggers, q, s[i..]) <= maxLen
      invariant maxLen == 0 || (best.0 in m.states && best.1 < |s| && maxLen == Walk(m.triggers, best.0, s[best.1..]))
      decreases todo
    {
      var q :| q in todo;
      maxLen, best := ScanOffsets(m, s, q, maxLen, best);
      todo := todo - {q};
      done := done + {q};
    }
    ScanResult(m.triggers, m.states, s, maxLen, best);
    r := Ok(maxLen);
  }

  /** A bound on every state and offset that is attained (or is 0) is `LongestWalk`. */
  lemma ScanResult(trig: Triggers, states: set<nat>, s: string, n: nat, best: (nat, nat))
    requires forall q, i :: q in states && 0 <= i < |s| ==> Walk(trig, q, s[i..]) <= n
    requires n == 0 || (best.0 in states && best.1 < |s| && n == Walk(trig, best.0, s[best.1..]))
    ensures LongestWalk(trig, states, s) == n
  {
    ScoresBound(trig, states, s, n);
    if n != 0 {
      ScoresMember(trig, states, s, best.0, best.1);
    }
    MaxOfIs(Scores(trig, states, s), n);
  }
}

/**
 * The postfix (Polish) regular expressions `parse_from_polish_notation_regex`
 * reads, as a pure reference evaluator: the same left-to-right scan over a
 * stack, building an expression tree instead of an automaton. The tree is
 * what the class-based parser in module StateMachines is proved against.
 *
 * Symbols: `.` concatenation and `+` alternation (two operands each), `*`
 * Kleene star (one operand), `1` the empty word, `a` `b` `c` the letters;
 * space, tab, newline and carriage return are skipped.
 */
module Postfix {
  import opened Base

  datatype Regex =
    | One
    | Lit(c: char)
    | Cat(left: Regex, right: Regex)
    | Alt(left: Regex, right: Regex)
    | Star(body: Regex)

  /** The letters a single-letter machine may be built from. */
  predicate IsLetter(c: char)
  {
    c == 'a' || c == 'b' || c == 'c'
  }

  predicate IsBlank(c: char)
  {
    c == ' ' || c == '\t' || c == '\n' || c == '\r'
  }

  /** One symbol of the scan applied to the operand stack (top at the end). */
  function Step(stack: seq<Regex>, c: char): (r: Result<seq<Regex>>)
    ensures c == '.' ==> (r.Err? <==> |stack| < 2) && (r.Err? ==> r.error == ConcatArity)
    ensures c == '+' ==> (r.Err? <==> |stack| < 2) && (r.Err? ==> r.error == AltArity)
    ensures c == '*' ==> (r.Err? <==> |stack| < 1) && (r.Err? ==> r.error == StarArity)
    ensures c != '.' && c != '+' && c != '*' ==>
              (r.Err? <==> !IsBlank(c) && c != '1' && !IsLetter(c)) && (r.Err? ==> r.error == NotPermitted([c]))
    ensures r.Ok? ==> |r.value| == |stack| + Arity(c)
    ensures r.Ok? ==> r.value[..Keep(stack, c)] == stack[..Keep(stack, c)]
  {
    if c == '.' then
      if |stack| < 2 then Err(ConcatArity)
      else Ok(stack[..|stack| - 2] + [Cat(stack[|stack| - 2], stack[|stack| - 1])])
    else if c == '+' then
      if |stack| < 2 then Err(AltArity)
      else Ok(stack[..|stack| - 2] + [Alt(stack[|stack| - 2], stack[|stack| - 1])])
    else if c == '*' then
      if |stack| < 1 then Err(StarArity)
      else Ok(stack[..|stack| - 1] + [Star(stack[|stack| - 1])])
    else if IsBlank(c) then Ok(stack)
    else if c == '1' then Ok(stack + [One])
    else if IsLetter(c) then Ok(stack + [Lit(c)])
    else Err(NotPermitted([c]))
  }

  /** `1` and the letters push one operand. */
  lemma StepOperand(stack: seq<Regex>, c: char)
    requires c == '1' || IsLetter(c)
    ensures Step(stack, c) == Ok(stack + [if c == '1' then One else Lit(c)])
  {
  }

  /** How a successful step changes the stack height. */
  function Arity(c: char): int
  {
    if c == '.' || c == '+' then -1
    else if c == '*' || IsBlank(c) then 0
    else 1
  }

  /** How many stack entries below the top a successful step leaves untouched. */
  function Keep(stack: seq<Regex>, c: char): nat
  {
    if (c == '.' || c == '+') && |stack| >= 2 then |stack| - 2
    else if c == '*' && |stack| >= 1 then |stack| - 1
    else |stack|
  }

  /** The scan of `s` from the stack `stack`, stopping at the first error. */
  function Run(stack: seq<Regex>, s: string): Result<seq<Regex>>
    decreases |s|
  {
    if s == [] then Ok(stack)
    else
      match Step(stack, s[0])
      case Err(e) => Err(e)
      case Ok(next) => Run(next, s[1..])
  }

  /** The whole parse: the scan must leave exactly one operand. */
  function Parse(s: string): (r: Result<Regex>)
    ensures Run([], s).Ok? && |Run([], s).value| != 1 ==> r == Err(StackSize(|Run([], s).value|))
    ensures Run([], s).Err? ==> r == Err(Run([], s).error)
    ensures r.Ok? ==> Run([], s) == Ok([r.value])
  {
    match Run([], s)
    case Err(e) => Err(e)
    case Ok(stack) =>
      if |stack| != 1 then Err(StackSize(|stack|))
      else assert stack == [stack[0]]; Ok(stack[0])
  }

  /**
   * The diagnostic infix string the source keeps in `regex`: a starred
   * star is not wrapped again, because `star` returns its operand unchanged.
   */
  function Infix(t: Regex): string
  {
    match t
    case One => "1"
    case Lit(c) => [c]
    case Cat(l, r) => Infix(l) + Infix(r)
    case Alt(l, r) => AltText(Infix(l), Infix(r))
    case Star(e) => if e.Star? then Infix(e) else StarText(Infix(e))
  }

  /** The number of operands a successful scan of `s` leaves, counted symbol by symbol. */
  function Height(s: string): int
  {
    if s == [] then 0 else Height(s[..|s| - 1]) + Arity(s[|s| - 1])
  }

  lemma RunSnoc(stack: seq<Regex>, s: string, c: char)
    requires Run(stack, s).Ok?
    ensures Run(stack, s + [c]) == Step(Run(stack, s).value, c)
    decreases |s|
  {
    if s == [] {
      assert [c][1..] == [];
    } else {
      assert (s + [c])[0] == s[0] && (s + [c])[1..] == s[1..] + [c];
      RunSnoc(Step(stack, s[0]).value, s[1..], c);
    }
  }

  lemma RunSnocErr(stack: seq<Regex>, s: string, c: char)
    requires Run(stack, s).Err?
    ensures Run(stack, s + [c]) == Run(stack, s)
    decreases |s|
  {
    assert (s + [c])[0] == s[0] && (s + [c])[1..] == s[1..] + [c];
    if Step(stack, s[0]).Ok? {
      RunSnocErr(Step(stack, s[0]).value, s[1..], c);
    }
  }

  /**
   * A scan that succeeds leaves as many operands as the symbols add up
   * to: each letter or `1` pushes one, each `.` or `+` pops one net, `*`
   * and blanks leave the height alone.
   */
  lemma {:induction false} RunHeight(s: string)
    requires Run([], s).Ok?
    ensures |Run([], s).value| == Height(s)
    decreases |s|
  {
    if s != [] {
      var p := s[..|s| - 1];
      var c := s[|s| - 1];
      assert s == p + [c];
      if Run([], p).Err? {
        RunSnocErr([], p, c);
      } else {
        RunSnoc([], p, c);
        RunHeight(p);
      }
    }
  }

  /** Input without operators, `1` and letters only, leaves one operand per symbol. */
  lemma {:induction false} OperandsOnly(s: string)
    requires forall i :: 0 <= i < |s| ==> s[i] == '1' || IsLetter(s[i])
    ensures Run([], s).Ok? && |Run([], s).value| == |s|
    decreases |s|
  {
    if s != [] {
      var p := s[..|s| - 1];
      assert s == p + [s[|s| - 1]];
      OperandsOnly(p);
      RunSnoc([], p, s[|s| - 1]);
    }
  }

  /** Two examples of the error paths: a lone operator and a symbol outside the alphabet. */
  lemma ParseErrors()
    ensures Parse(".") == Err(ConcatArity)
    ensures Parse("*") == Err(StarArity)
    ensures Parse("ab") == Err(StackSize(2))
    ensures Parse("d") == Err(NotPermitted("d"))
    ensures Parse("") == Err(StackSize(0))
  {
    assert "ab"[1..] == "b";
  }

  /** A scan of `x + y` is the scan of `y` from where the scan of `x` left off. */
  lemma {:induction false} RunAppend(stack: seq<Regex>, x: string, y: string)
    requires Run(stack, x).Ok?
    ensures Run(stack, x + y) == Run(Run(stack, x).value, y)
    decreases |x|
  {
    if x != [] {
      assert (x + y)[0] == x[0] && (x + y)[1..] == x[1..] + y;
      RunAppend(Step(stack, x[0]).value, x[1..], y);
    } else {
      assert x + y == y;
    }
  }

  lemma RunStep(stack: seq<Regex>, c: char, rest: string)
    ensures Step(stack, c).Err? ==> Run(stack, [c] + rest) == Err(Step(stack, c).error)
    ensures Step(stack, c).Ok? ==> Run(stack, [c] + rest) == Run(Step(stack, c).value, rest)
  {
    assert ([c] + rest)[0] == c && ([c] + rest)[1..] == rest;
  }

  /** The infix forms of two of the source's test expressions. */
  lemma ParseExamples()
    ensures Parse("a*") == Ok(Star(Lit('a'))) && Infix(Star(Lit('a'))) == "(a)*"
    ensures Parse("a1+*") == Ok(Star(Alt(Lit('a'), One))) && Infix(Star(Alt(Lit('a'), One))) == "((a+1))*"
  {
    var a := Lit('a');
    RunStep([], 'a', "*");
    RunStep([a], '*', "");
    assert "a*" == ['a'] + "*";
    RunStep([], 'a', "1+*");
    RunStep([a], '1', "+*");
    RunStep([a, One], '+', "*");
    RunStep([Alt(a, One)], '*', "");
    assert "a1+*" == ['a'] + "1+*";
    assert "1+*" == ['1'] + "+*";
    assert "+*" == ['+'] + "*";
  }
}

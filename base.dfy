/**
 * Shared vocabulary of the automaton model: transition labels, the
 * transition table ("triggers") and the error results of the two entry
 * points (the postfix parser and the longest-walk matcher).
 */
module Base {

  /** A transition label: the epsilon marker `EPS` or one input character. */
  datatype Label = Eps | Sym(c: char)

  /** state -> label -> set of target states, as `StateMachine.triggers`. */
  type Triggers = map<nat, map<Label, set<nat>>>

  /** The label map of `s`; a state without an entry has no transitions. */
  function Inner(trig: Triggers, s: nat): map<Label, set<nat>>
  {
    if s in trig then trig[s] else map[]
  }

  /** The targets of label `l` in one state's label map. */
  function TargetsIn(m: map<Label, set<nat>>, l: Label): set<nat>
  {
    if l in m then m[l] else {}
  }

  /** The targets of the `l`-labelled transitions leaving `s`. */
  function Targets(trig: Triggers, s: nat, l: Label): set<nat>
  {
    TargetsIn(Inner(trig, s), l)
  }

  datatype Option<T> = None | Some(value: T)

  /**
   * The `ValueError`s the source raises, one constructor per raise site:
   * operator arity (concatenation, alternation, star), a symbol outside
   * the alphabet, a final stack size other than one, and a missing text.
   */
  datatype Error =
    | ConcatArity
    | AltArity
    | StarArity
    | NotPermitted(symbol: string)
    | StackSize(size: nat)
    | NoneArgument

  datatype Result<T> = Ok(value: T) | Err(error: Error)

  /** The diagnostic text `(x+y)` of an alternation. */
  function AltText(x: string, y: string): string
  {
    "(" + x + "+" + y + ")"
  }

  /** The diagnostic text `(x)*` of a star. */
  function StarText(x: string): string
  {
    "(" + x + ")*"
  }
}

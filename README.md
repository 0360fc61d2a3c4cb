# Regular expressions to epsilon-free automata, and the longest walk

This project models `Practicum_16.py`, a Thompson-style compiler. It reads a
regular expression in postfix (Polish) notation and builds a nondeterministic
automaton. After every combinator it removes the epsilon (`EPS`) transitions
and prunes unreachable states. It then finds the longest substring of a text
that can be followed along the automaton's transitions from any state.

The model has eight modules:

- **Base**: transition labels (`Eps` or one character), the transition table
  (`Triggers`: state → label → set of states), and the errors the source raises.
- **Reachability**: graph search. The recursive `dfs` and the recursive
  epsilon search inside `transitive_close` become one worklist method,
  `Reachable`. It is proved to return exactly the set of states reachable from
  the start.
- **Automaton**: a `StateMachine` as a value (`Machine`), plus a pure
  specification of each step the class performs:
  - the atoms;
  - `concatenate`, `alternate` and `star` before epsilon removal;
  - the three phases of `delete_epsilons` (closure, `EPS` pop, pruning) and
    their composition `Eliminate`.

  The lemmas state what `delete_epsilons` establishes and what it preserves.
- **Incremental**: the step-by-step forms of those specifications, which the
  class's loops are proved against.
- **Postfix**: a pure reference evaluator of the postfix language. It runs the
  same stack discipline with the same error cases and builds an expression
  tree. It also defines `Infix`, the text the source keeps in `regex`.
- **Construction**: `Compile`, the machine the parser builds for a tree,
  counting states from a given counter value. The lemmas cover:
  - normal form (no `EPS`, every state reachable);
  - the `lastStar` flag and the `regex` text;
  - star idempotence;
  - the empty word for a star.
- **StateMachines**: the `StateMachine` class, whose fields the methods update
  in place, and `StateCounter`, which stands for the global counter
  `State.num_instances`. Each method is proved against the matching Automaton
  function. `ParseFromPolishNotationRegex` is proved to fail exactly when
  `Parse` fails, with the same error. When it succeeds, it returns a fresh
  machine equal to `Compile` of the parsed tree.
- **Matcher**: `Walk` is the value of `recursive_traversal`, and `LongestWalk`
  the value of `max_substring`. Both are connected to an independent
  definition, `Walkable` ("this word labels a walk from this state"):
  - `Walk` is the length of the longest walkable prefix;
  - `LongestWalk` is the length of the longest walkable substring.
- **MaxSubstringTests**: the unit tests whose machines are small enough to
  work out by hand, from the parser through `max_substring`. These are
  `test_4` (`a*` on `aaaabaabba`), `test_6` (`a1+*` on `aaaaba`) and
  `test_7` (the same on a copy). Each is proved to give 4, wherever the
  global counter stood when the test began.

Modelling choices:

- States are natural numbers handed out by `StateCounter`.
- A `defaultdict` entry the source creates on lookup only matters through its
  keys. The model keeps the table's keys within the states. After
  `delete_epsilons` the keys are exactly the states, because the `EPS` pop
  loop touches every state.
- The alphabet is the one the code fixes: `a`, `b`, `c`, `1` for the empty
  word, and the blanks space, tab, newline and carriage return. Anything else
  is rejected by the string constructor. A general "configured alphabet" is
  not modelled.

## Model

| member | source | states |
|---|---|---|
| Reachability.Reachable | Practicum_16.py:213-218 | the search marks exactly the states reachable from the start (`seen == ReachSet`), in both directions |
| Reachability.SearchDone | Practicum_16.py:184-192 | a search whose marked set is closed under successors and whose states all have witness paths has found exactly the reachable states |
| Reachability.ReachSetMeaning | Practicum_16.py:213-218 | membership in the reachable set is the same as having a path from the start |
| Reachability.ReachSetTrans | Practicum_16.py:184-192 | the epsilon closure of a state inside another state's closure is contained in that closure (transitivity) |
| Automaton.EmptyWord | Practicum_16.py:30-37 | the `EPS` machine: one state that is both initial and terminal, no transitions, `regex == "1"`, not a star |
| Automaton.Letter | Practicum_16.py:38-47 | the letter machine: two states, one transition from the initial to the terminal state labelled by the letter, nothing else |
| Automaton.AtomsNormalized | Practicum_16.py:28-47 | both atoms are already in the normal form `delete_epsilons` produces |
| Automaton.MergeTargets | Practicum_16.py:58-64 | merging disjoint tables gives, at every state and label, the union of the targets; the result stays within the joined states with no empty target set |
| Automaton.WithEpsEdges | Practicum_16.py:71-74 | the `EPS` loop of `concatenate`/`star` adds exactly `target` to the `EPS` targets of each state in `from`, creating missing entries, and changes nothing else |
| Automaton.WithEpsEdgesWellFormed | Practicum_16.py:105-108 | adding those `EPS` edges keeps every target inside the machine and no target set empty |
| Automaton.ConcatRaw | Practicum_16.py:66-78 | `concatenate` before `delete_epsilons`: the union of the states, `self`'s initial state, `other`'s terminals, both tables plus `EPS` edges from `self`'s terminals to `other`'s initial state, `regex` joined |
| Automaton.AltRaw | Practicum_16.py:81-93 | `alternate` before `delete_epsilons`: a fresh initial state with `EPS` edges to both initial states only, the terminals of both, `regex == "(x+y)"` |
| Automaton.StarRaw | Practicum_16.py:101-113 | `star` before `delete_epsilons`: a fresh initial state that is the only terminal, an `EPS` edge from it to the old initial state and from each old terminal back to it, `lastStar` set |
| Automaton.Absorb | Practicum_16.py:184-200 | the label map `transitive_close` leaves at `start`: the `EPS` entry untouched, and every letter has `start`'s own targets plus those of every state in the closure |
| Automaton.ClosureWithin | Practicum_16.py:184-192 | the epsilon closure of a state contains the state itself and stays within the machine |
| Automaton.ClosePhaseAt | Practicum_16.py:168-170 | after the closure loop, a state's letter targets are those gathered over its epsilon closure, and no transition is lost |
| Automaton.CloseTerminalsMeaning | Practicum_16.py:186-187 | after the closure loop, a state is terminal exactly when its epsilon closure meets a terminal |
| Automaton.ClosePhaseMeaning | Practicum_16.py:168-170 | the closure loop keeps the machine well formed and gives every state a table entry; it has the terminal and transition meaning above |
| Automaton.DropEps | Practicum_16.py:171-172 | the pop loop leaves a table with one entry per state, no `EPS` key, and every letter transition unchanged |
| Automaton.RemoveEpsMeaning | Practicum_16.py:171-172 | popping `EPS` keeps the machine well formed and epsilon-free and keeps every letter transition |
| Automaton.PruneNormalized | Practicum_16.py:174-178 | pruning keeps exactly the states reachable from `init` and keeps their transitions unchanged; terminals are the surviving old ones; the result is in normal form |
| Automaton.EliminateNormalized | Practicum_16.py:167-179 | after `delete_epsilons` the machine has no `EPS` edge and every state is reachable; `init`, `lastStar` and `regex` are unchanged; no state is added |
| Automaton.EliminateTerminals | Practicum_16.py:167-179 | after `delete_epsilons`, a surviving state is terminal exactly when its epsilon closure met a terminal |
| Automaton.EliminateTransitions | Practicum_16.py:167-179 | after `delete_epsilons`, a surviving state's letter targets are those of its epsilon closure; its old letter targets are kept; it has no `EPS` target |
| Automaton.EliminateFixes | Practicum_16.py:167-179 | `delete_epsilons` on a machine already in normal form changes nothing |
| Automaton.EliminateIdempotent | Practicum_16.py:167-179 | running `delete_epsilons` twice gives the same machine as running it once |
| Incremental.MergeTriggers | Practicum_16.py:58-64 | `add_triggers` keeps every existing transition and gives the table the keys of both tables |
| Incremental.MergeDisjoint | Practicum_16.py:58-64 | on tables with no state in common, `add_triggers` is the plain union of the two tables |
| Incremental.ClosePartialOneMore | Practicum_16.py:168-170 | one more `transitive_close` call moves the closure loop's partial result one state further |
| Incremental.ClosePartialAll | Practicum_16.py:168-170 | once every state has been closed, the partial result is the whole closure phase |
| Postfix.Step | Practicum_16.py:133-160 | one symbol of the scan: `.`/`+` fail exactly when fewer than two operands are stacked, `*` when none are; blanks, `1`, `a`, `b`, `c` always succeed; any other symbol fails with "not permitted"; the stack height changes by the symbol's arity and the untouched part of the stack is kept |
| Postfix.Parse | Practicum_16.py:162-165 | the scan's error is the result's error; a scan that ends with other than one operand fails with that stack size; success returns the single operand |
| Postfix.RunHeight | Practicum_16.py:133-163 | a successful scan ends with as many operands as the symbols' arities add up to |
| Postfix.OperandsOnly | Practicum_16.py:155-160 | a text of operands only stacks one machine per symbol |
| Postfix.ParseErrors | Practicum_16.py:136-163 | `.` alone and `*` alone are arity errors, `ab` and the empty text are stack-size errors, `d` is refused |
| Postfix.StepOperand | Practicum_16.py:155-160 | `1` or a letter always succeeds and pushes its own tree, `One` or `Lit(c)`, onto the stack |
| Postfix.RunAppend | Practicum_16.py:133-160 | scanning a concatenation of two texts is scanning the second from the stack the first leaves |
| Postfix.ParseExamples | Practicum_16.py:284-306 | the expressions of `test_4`, `test_6` and `test_7` parse: `a*` to `Star(Lit('a'))` and `a1+*` to `Star(Alt(Lit('a'), One))`; their `regex` texts are `(a)*` and `((a+1))*`, following the renderings at lines 37, 47, 93 and 113 |
| Construction.Compile | Practicum_16.py:130-165 | the machine built for a tree is well formed and uses only numbers in a block of fresh ones starting at the counter value |
| Construction.CompileAtom | Practicum_16.py:155-160 | `1` compiles to the `EPS` machine on the counter's value and moves the counter by one; a letter compiles to the letter machine on the next two numbers and moves the counter by two |
| Construction.CompiledDisjoint | Practicum_16.py:14-16 | two operands compiled one after the other have disjoint states, and the counter after them is fresh for both |
| Construction.CompileCatStep | Practicum_16.py:139-141 | `.` compiles both operands in order and then `concatenate`s them |
| Construction.CompileAltStep | Practicum_16.py:146-148 | `+` compiles both operands in order and then `alternate`s them on the next number |
| Construction.CompileStarStep | Practicum_16.py:153-154 | `*` on an operand that is not a star compiles it and then `star`s it on the next number |
| Construction.CompileNormalized | Practicum_16.py:130-179 | every machine the parser builds is epsilon-free with every state reachable |
| Construction.CompileShape | Practicum_16.py:36-113 | a compiled machine has `lastStar` set exactly for a star, and its `regex` is the infix text of the tree |
| Construction.StarIdempotent | Practicum_16.py:97-99 | starring a star changes neither the machine nor the counter |
| Construction.StarAcceptsEmpty | Practicum_16.py:102-114 | after `star` the initial state is the fresh one and it is terminal |
| Construction.StarKeepsTerminals | Practicum_16.py:105-114 | every old terminal that survives `star` is still terminal |
| Construction.ConcatTerminalInit | Practicum_16.py:71-79 | `concatenate` keeps `self`'s initial state; it is terminal afterwards exactly when its epsilon closure meets one of `other`'s terminals |
| StateMachines.StateCounter.Fresh | Practicum_16.py:14-16 | a new state takes the counter's value, and the counter goes up by one |
| StateMachines.StateMachine.EmptyWordOf | Practicum_16.py:30-37 | the `EPS` constructor builds `EmptyWord` on the next number; the result is in normal form |
| StateMachines.StateMachine.LetterOf | Practicum_16.py:38-47 | the letter constructor builds `Letter` on the next two numbers; the result is in normal form |
| StateMachines.StateMachine.Copy | Practicum_16.py:50-56 | the copy constructor has the same contents as its argument, so it is well formed or in normal form when its argument is |
| StateMachines.StateMachine.FromSymbol | Practicum_16.py:28-49 | `EPS` gives the empty-word machine, `a`/`b`/`c` the letter machine, and any other argument fails with "not permitted" without using a number; a machine it returns is in normal form |
| StateMachines.StateMachine.Adjacent | Practicum_16.py:116-128 | the targets of a label from a state of the machine; they lie within the machine; they are non-empty exactly when the state has the label |
| StateMachines.StateMachine.AddTriggers | Practicum_16.py:58-64 | after the loop the table is `MergeTriggers` of the old table and `other`'s; nothing else changes |
| StateMachines.StateMachine.AddEpsEdges | Practicum_16.py:71-74 | after the loop the table is `WithEpsEdges` of the old table; nothing else changes |
| StateMachines.StateMachine.Concatenate | Practicum_16.py:66-79 | the new contents are `Eliminate(ConcatRaw(old, other))`, which is in normal form |
| StateMachines.StateMachine.Alternate | Practicum_16.py:81-94 | the new contents are `Eliminate(AltRaw(old, other, n))` for the next number `n`, which is in normal form |
| StateMachines.StateMachine.Star | Practicum_16.py:96-114 | a star is left unchanged without using a number; otherwise the new contents are `Eliminate(StarRaw(old, n))` for the next number `n`, in normal form; the machine stays well formed either way |
| StateMachines.StateMachine.TransitiveClose | Practicum_16.py:184-201 | one call closes one start state: `CloseStep` |
| StateMachines.StateMachine.AbsorbClosure | Practicum_16.py:185-200 | the start becomes terminal exactly when its closure meets a terminal; its label map becomes `Absorb` of its closure; nothing else changes |
| StateMachines.StateMachine.GetUnreachable | Practicum_16.py:203-211 | the result is exactly the states not reachable from the root |
| StateMachines.StateMachine.DeleteEpsilons | Practicum_16.py:167-179 | the new contents are `Eliminate(old)`, which is in normal form |
| StateMachines.StateMachine.ClosePhaseLoop | Practicum_16.py:168-170 | the first loop gives `ClosePhase(old)` |
| StateMachines.StateMachine.RemovePhase | Practicum_16.py:171-172 | the second loop gives `RemoveEps(old)` |
| StateMachines.StateMachine.PrunePhase | Practicum_16.py:174-178 | the pruning gives `Prune(old)` |
| StateMachines.StateMachine.ParseFromPolishNotationRegex | Practicum_16.py:130-165 | on malformed input, the same error as `Parse`; otherwise a fresh machine equal to `Compile` of the parsed tree, starting at the counter's old value, and in normal form |
| StateMachines.StateMachine.Consume | Practicum_16.py:133-160 | one symbol on the machine stack: the same error as `Step` on the tree stack, or the stack matching `Step`'s new tree stack |
| StateMachines.StateMachine.Atom | Practicum_16.py:155-160 | a blank, `1` or letter: the stack is kept or gains the new atom's machine; another symbol gives `Step`'s error |
| StateMachines.StateMachine.NewOperand | Practicum_16.py:155-160 | `1` makes a fresh `StateMachine(EPS)` and a letter a fresh `StateMachine(c)`, each equal to the compiled atom; any other symbol fails with "not permitted" and uses no number |
| StateMachines.StateMachine.Binary | Practicum_16.py:135-148 | pop two, push the lower one combined with the upper one: the stack matches the tree stack with the top two trees joined by `.` or `+` |
| StateMachines.StateMachine.Unary | Practicum_16.py:149-154 | the top machine is replaced by its star: the stack matches the tree stack with its top tree starred |
| StateMachines.StateMachine.Combine | Practicum_16.py:139-148 | combining two compiled operands in place gives the compiled `.` or `+` tree and the counter after it |
| StateMachines.StateMachine.ConcatCompiled | Practicum_16.py:139-141 | `mach2.concatenate(mach1)` on compiled operands gives the compiled concatenation |
| StateMachines.StateMachine.AltCompiled | Practicum_16.py:146-148 | `mach2.alternate(mach1)` on compiled operands gives the compiled alternation |
| StateMachines.StateMachine.StarCompiled | Practicum_16.py:153-154 | `mach1.star()` on a compiled operand gives the compiled star |
| StateMachines.StackPush | Practicum_16.py:155-160 | pushing a machine compiled at the current counter keeps the machine stack and the tree stack in step |
| StateMachines.StackTop | Practicum_16.py:139-165 | the top machine of the stack is the compiled top tree, and it is distinct from the machines below it |
| StateMachines.StackTopTwo | Practicum_16.py:139-148 | the two top machines hold the two top trees compiled one after the other, are distinct objects, and do not appear in the stack below them |
| StateMachines.StackSetTop | Practicum_16.py:141-154 | replacing the top machine's contents by a compiled tree keeps the stacks in step |
| Matcher.MaxOf | Practicum_16.py:230-232 | the maximum of a set of lengths is at least each of them, is one of them, and is 0 for the empty set |
| Matcher.Walk | Practicum_16.py:221-233 | `recursive_traversal` returns at most the length of the text, and more than 0 exactly when the first character has a transition |
| Matcher.ContinuationsMax | Practicum_16.py:230-233 | the loop over the targets computes the maximum of `1 + Walk` over them |
| Matcher.WalkWalkable | Practicum_16.py:221-233 | the prefix of length `Walk` can be read from the state |
| Matcher.WalkMaximal | Practicum_16.py:221-233 | no longer prefix can be read from the state |
| Matcher.LongestWalk | Practicum_16.py:236-246 | the value of `max_substring` is at most the length of the text |
| Matcher.LongestWalkBound | Practicum_16.py:236-246 | no substring readable from any state is longer than `LongestWalk` |
| Matcher.LongestWalkAttained | Practicum_16.py:236-246 | when `LongestWalk` is positive, some substring of that length is readable from some state |
| Matcher.ScanResult | Practicum_16.py:242-246 | a bound on every state and offset that is attained (or is 0) is `LongestWalk` |
| Matcher.RecursiveTraversal | Practicum_16.py:221-233 | returns `Walk` of the state and the text |
| Matcher.ScanOffsets | Practicum_16.py:244-245 | the inner loop raises the running maximum to bound `Walk` from one state at every offset, keeping it attained |
| Matcher.MaxSubstring | Practicum_16.py:236-246 | the empty text gives 0, a missing text is refused, any other text gives `LongestWalk` over every state and offset |
| MaxSubstringTests.EliminateStates | Practicum_16.py:174-178 | the states `delete_epsilons` keeps are a set that holds the initial state, whose other members the initial state reaches on one letter after closure, and that no letter leaves |
| MaxSubstringTests.EliminateLoops | Practicum_16.py:167-179 | when every kept state's closure gathers exactly `p` on `a` and nothing on other letters, every kept state moves to `p` on `a` and on nothing else |
| MaxSubstringTests.WalkLoop | Practicum_16.py:221-233 | on a machine where every state moves to `p` on `a` only, `recursive_traversal` from any state is the length of the text's leading run of `a`s |
| MaxSubstringTests.LoopLongest | Practicum_16.py:236-246 | on such a machine, `max_substring` is the longest run of `a`s in the text |
| MaxSubstringTests.StarOfOneLetter | Practicum_16.py:101-113 | `star` on a one-letter machine adds the `EPS` edges from the fresh state to the old initial state and from the terminals back to the fresh state |
| MaxSubstringTests.StarredLetterEliminated | Practicum_16.py:167-179 | `delete_epsilons` on a starred letter keeps the letter's target and the fresh state, and both move to the target on `a` and on nothing else |
| MaxSubstringTests.EliminateOneLetter | Practicum_16.py:167-179 | `delete_epsilons` leaves the single transition `n --a--> t` when that is all the closures of `n` and `t` gather |
| MaxSubstringTests.AltAEliminated | Practicum_16.py:81-94 | `alternate` of `StateMachine('a')` and `StateMachine(EPS)` leaves one `a` transition from the fresh state to the letter's target; both are terminal |
| MaxSubstringTests.AltACompiled | Practicum_16.py:146-148 | the parser builds `a1+` from `a` on `n`, `n + 1` and `1` on `n + 2`, and leaves the counter at `n + 4` |
| MaxSubstringTests.StarALongest | Practicum_16.py:284-288 | `max_substring` of the machine compiled for `a*`, on `aaaabaabba`, is 4 for any counter value |
| MaxSubstringTests.AltStarLongest | Practicum_16.py:296-300 | `max_substring` of the machine compiled for `a1+*`, on `aaaaba`, is 4 for any counter value |
| MaxSubstringTests.StarTest | Practicum_16.py:284-288 | `test_4`: parsing `a*` and running `max_substring` on `aaaabaabba` gives 4 |
| MaxSubstringTests.AltStarTest | Practicum_16.py:296-300 | `test_6`: parsing `a1+*` and running `max_substring` on `aaaaba` gives 4 |
| MaxSubstringTests.CopiedAltStarTest | Practicum_16.py:302-306 | `test_7`: the same on a copy made by the copy constructor gives 4 |

## Left out

- `main` is not modelled. It is a command-line wrapper that reads input and prints.
- `test_0` to `test_3` and `test_5` are not modelled. Each asserts a `max_substring` value on a machine with many states, too large to work out by hand. `test_4`, `test_6` and `test_7` are modelled in MaxSubstringTests.
- `print` and `sleep` in `adjacent` are not modelled. They only report a state outside the machine before raising; the model makes `state in states` a precondition of `Adjacent`.
- `OblivionState` is not modelled, because no code in the core uses it.
- The `way` parameter of `recursive_traversal` is not modelled. It only accumulates a path the function never reads.
- Sharing between machines is not modelled. The source's copy constructor and `concatenate` share the other machine's sets, and `add_triggers` shares its label maps. The model copies values and keeps the operands distinct objects (`other != this`), so aliasing effects are not captured. An operand is never reused after a combinator consumes it.
- StateMachines.StateMachine.Concatenate: the model requires the two operands' states to be disjoint, as fresh numbering makes them in the parser. `add_triggers` on overlapping tables drops a label that only `other` has at a shared state. `Incremental.MergeTriggers` models that behaviour, but the model never applies it to overlapping operands.
- StateMachines.StateMachine.Alternate: the model requires disjoint operand states and a fresh next number, as in the parser.
- StateMachines.StateMachine.Star: the model requires the machine to be well formed and the next number to be fresh, as holds for every machine the parser builds.
- Recursion in `transitive_close` and `dfs` becomes worklist loops (`Reachability.Reachable`). The set of states reached is the same; the visiting order and the `used`/`marked` dictionaries are not modelled.
- The order in which Python iterates over sets and dictionaries is not modelled: every loop picks an arbitrary remaining element, and the contracts hold for any order.
- Keys that `defaultdict` creates on lookup are not modelled, beyond keeping the table's keys within the states.
- The `KeyError` `add_triggers` can raise is not modelled. It happens when `other` lacks a label that `self` has at a shared state, which cannot occur on the disjoint operands the parser produces; the model treats a missing label as having no targets.
- The global counter `State.num_instances` is an explicit `StateCounter` object passed to the constructors and combinators. State objects are their numbers.
- Running time is not modelled, including the exponential, unmemoized search of `recursive_traversal`.
- Whether a text is in the language is not modelled. The matcher measures walks, not acceptance, as the source does.

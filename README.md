# Library search front end and `Nat` basics, modelled in Dafny

This project models two pieces of the Lean 4 compiler's stage-0 C output.

**`Lean.Elab.Tactic.LibrarySearch`** implements the tactics `exact?` and `apply?` and the term
elaborator `exact?%`. The search (`librarySearch`, `solveByElim`) and the elaboration services it
calls are outside the file, so the model takes them as an `Env`. An `Env` is a record of fixed
functions:
- `intros`, `getFVarId` and the search;
- `instantiateMVars` and `Expr.headBeta`;
- rendering a "Try this" suggestion, as a possible failure;
- the element-wise coercion `evalApply` applies to the `using` names.

What the file decides is modelled exactly:
- the query it sends: 10 percent of the heartbeat budget left over, `solveByElim` depth 6, the required locals as lemmas;
- the acceptance predicate for partial results: every `using` local must occur in the instantiated goal;
- which of the closing / partial / error outcomes it takes, and what each leaves behind: suggestions,
  the error log, admitted goals, the exception thrown.

The elaborator state that the driver changes step by step is the class `LibrarySearch.Elaborator`.
Each of its methods is proved equal to a specification function on the value `ElabState`. The
lemmas are proved about those functions. The suggestion loop `forIn'` is a `while` loop whose
invariant ties the remaining work to the specification.

**`Init.Data.Nat.Basic`** provides:
- the compiled recursor `Nat.recCompiled`/`Nat.recAux`, `Nat.casesAuxOn`, `Nat.repeat`;
- the tail-recursive loop `Nat.repeatTR.loop`, modelled as a `while` loop and proved equal to `Nat.repeat`;
- `Nat.blt`, `Nat.min`, `Nat.max` and the `Max Nat` instance;
- the match splitters of `Nat.beq` and `Nat.repeat`.

`ElabBase` holds the small parts of Lean's elaborator these depend on: exceptions, `Expr.occurs`,
the syntax accessors, the metavariable context and `getMainGoal`.

### Behaviour worth noting

- Every `using` local must occur in the instantiated goal of a partial result (`List.all … Expr.occurs`).
- `exact?` that cannot close the goal throws and never admits it.
- `apply?` is the mode that admits the goal after `intros`.
- `apply?` with partial results admits the goal without logging any error. It logs "apply? didn't
  find any relevant lemmas" only when there are no partial results (`ApplyModeOutcome`).

## Model

| member | source | states |
|---|---|---|
| `NatBasic.RecAuxEquations` | stage0/stdlib/Init/Data/Nat/Basic.c:62-129 | `recAux z s 0 = z` and `recAux z s (n+1) = s n (recAux z s n)`, `recAux` being `recCompiled` |
| `NatBasic.RecUnique` | stage0/stdlib/Init/Data/Nat/Basic.c:62-93 | any function satisfying the recursor's two equations agrees with `recCompiled` everywhere |
| `NatBasic.CasesAuxOnEquations` | stage0/stdlib/Init/Data/Nat/Basic.c:150-193 | `casesAuxOn 0 z s = z`, `casesAuxOn (n+1) z s = s n` |
| `NatBasic.CasesAuxOnIsNonRecursiveRec` | stage0/stdlib/Init/Data/Nat/Basic.c:150-193 | `casesAuxOn` is the recursor whose step ignores the recursive result |
| `NatBasic.RepeatIsRec` | stage0/stdlib/Init/Data/Nat/Basic.c:214-246 | `repeat f n a` is the recursor with base `a` and step `f`, so `repeat f 0 a = a`, `repeat f (n+1) a = f (repeat f n a)` |
| `NatBasic.RepeatShift` | stage0/stdlib/Init/Data/Nat/Basic.c:267-300 | the loop equation `loop f (n+1) a = loop f n (f a)` holds of `repeat` |
| `NatBasic.RepeatTRLoop` | stage0/stdlib/Init/Data/Nat/Basic.c:267-300 | the counting-down loop terminates and returns `repeat f n a` |
| `NatBasic.RepeatTR` | stage0/stdlib/Init/Data/Nat/Basic.c:301-316 | `repeatTR f n a = repeat f n a` for all `f`, `n`, `a` |
| `NatBasic.Blt` | stage0/stdlib/Init/Data/Nat/Basic.c:317-327 | `blt a b`, computed as `a + 1 <= b`, is true iff `a < b` |
| `NatBasic.Min` | stage0/stdlib/Init/Data/Nat/Basic.c:445-461 | `min a b` is at most both arguments and is one of them |
| `NatBasic.Max` | stage0/stdlib/Init/Data/Nat/Basic.c:507-523 | `max a b` is at least both arguments and is one of them |
| `NatBasic.InstMax` | stage0/stdlib/Init/Data/Nat/Basic.c:472-496 | the `Max Nat` instance's closure equals `Nat.max` |
| `NatBasic.MinMaxSplit` | stage0/stdlib/Init/Data/Nat/Basic.c:445-523 | `min` picks `a` and `max` picks `b` when `a <= b`, the reverse otherwise; `min + max = a + b` |
| `NatBasic.BeqSplitterCases` | stage0/stdlib/Init/Data/Nat/Basic.c:339-398 | the `beq` splitter sends `(0,0)`, `(0,m+1)`, `(n+1,0)`, `(n+1,m+1)` to the first to fourth branch, with the predecessors |
| `NatBasic.BeqBySplitter` | stage0/stdlib/Init/Data/Nat/Basic.c:339-398 | `Nat.beq` is its splitter applied to its own four right-hand sides |
| `NatBasic.BeqIffEq` | stage0/stdlib/Init/Data/Nat/Basic.c:339-398 | `Nat.beq n m` is true iff `n = m` |
| `NatBasic.RepeatSplitterCases` | stage0/stdlib/Init/Data/Nat/Basic.c:534-565 | the `repeat` splitter sends `(0,a)` to `h1 a` and `(n+1,a)` to `h2 n a` |
| `NatBasic.RepeatBySplitter` | stage0/stdlib/Init/Data/Nat/Basic.c:534-565 | `Nat.repeat` is its splitter applied to its own two right-hand sides |
| `ElabBase.OccursTrans` | stage0/stdlib/Lean/Elab/Tactic/LibrarySearch.c:330-337 | `Expr.occurs`, the subterm relation behind the acceptance predicate, is transitive |
| `ElabBase.SepElems` | stage0/stdlib/Lean/Elab/Tactic/LibrarySearch.c:1201-1262 | the names of a `using` clause are the children at even positions of the separated list |
| `ElabBase.SepElemsJoin` | stage0/stdlib/Lean/Elab/Tactic/LibrarySearch.c:1201-1262 | taking the even children of a comma-separated list gives back its elements |
| `ElabBase.FirstOpenGoal` | stage0/stdlib/Lean/Elab/Tactic/LibrarySearch.c:793-808 | `getMainGoal` finds the first unassigned goal, all goals before it being assigned, or fails with "no goals" when every goal is assigned |
| `LibrarySearch.AllOccur` | stage0/stdlib/Lean/Elab/Tactic/LibrarySearch.c:330-404 | the `List.all` check holds iff every required term occurs in the goal |
| `LibrarySearch.AcceptsIffAllOccur` | stage0/stdlib/Lean/Elab/Tactic/LibrarySearch.c:338-404 | a goal is accepted iff every required local occurs in it after instantiation |
| `LibrarySearch.NoUsingAcceptsEverything` | stage0/stdlib/Lean/Elab/Tactic/LibrarySearch.c:833-838 | without `using` the required list is empty and every goal is accepted |
| `LibrarySearch.QueriesUseFixedLimits` | stage0/stdlib/Lean/Elab/Tactic/LibrarySearch.c:405-537 | both queries leave 10 percent of the heartbeats over and use depth 6; the tactic query's lemmas are its requirement; the term query has none and accepts all |
| `LibrarySearch.ResolveAll` | stage0/stdlib/Lean/Elab/Tactic/LibrarySearch.c:503-530 | the `using` names resolve one to one to locals, or the first failing name's error is returned |
| `LibrarySearch.FirstRejected` | stage0/stdlib/Lean/Elab/Tactic/LibrarySearch.c:244-329 | the position where the suggestion loop stops: every earlier suggestion succeeds, the one there fails |
| `LibrarySearch.CoerceAll` | stage0/stdlib/Lean/Elab/Tactic/LibrarySearch.c:1614-1640 | the element-wise coercion of `evalApply` succeeds iff it succeeds on every name, and keeps them in order |
| `LibrarySearch.MainGoalStable` | stage0/stdlib/Lean/Elab/Tactic/LibrarySearch.c:793-820 | the second `getMainGoal` of `exact?` returns the same goal and changes nothing |
| `LibrarySearch.ExactQAfterIntros` | stage0/stdlib/Lean/Elab/Tactic/LibrarySearch.c:789-862 | `exact?` searches the goal after `intros`, with suggestions built from the main goal before `intros` and checked against the state saved before it |
| `LibrarySearch.ExactQEarlyErrors` | stage0/stdlib/Lean/Elab/Tactic/LibrarySearch.c:865-966 | with no open goal or a failing `intros`, `exact?` returns that error with nothing suggested, logged or admitted |
| `LibrarySearch.ReportEarlyErrors` | stage0/stdlib/Lean/Elab/Tactic/LibrarySearch.c:702-770 | an unresolvable name or a failing search is returned unchanged, with the state untouched |
| `LibrarySearch.ClosingTermYieldsOneSuggestion` | stage0/stdlib/Lean/Elab/Tactic/LibrarySearch.c:546-565 | a closing term adds exactly one suggestion for the original goal, head-beta reduced, checked against the saved state; nothing is logged or admitted |
| `LibrarySearch.CouldNotCloseHint` | stage0/stdlib/Lean/Elab/Tactic/LibrarySearch.c:414-499 | the error ends with " Try `apply?` to see partial suggestions." iff there are partial results |
| `LibrarySearch.RequireCloseThrows` | stage0/stdlib/Lean/Elab/Tactic/LibrarySearch.c:649-700 | with `requireClose` and no closing term, `exact?` throws that error; nothing is suggested, logged or admitted |
| `LibrarySearch.SuggestAllClosedForm` | stage0/stdlib/Lean/Elab/Tactic/LibrarySearch.c:225-329 | the loop adds one suggestion per partial result, in array order and each in that result's context, up to the first failure, which it returns |
| `LibrarySearch.ApplyModeOutcome` | stage0/stdlib/Lean/Elab/Tactic/LibrarySearch.c:566-648 | `apply?` adds the partial suggestions in order, logs "apply? didn't find any relevant lemmas" iff there are none, and admits the goal after `intros`; a failing suggestion is returned with nothing logged or admitted |
| `LibrarySearch.ExactQEffects` | stage0/stdlib/Lean/Elab/Tactic/LibrarySearch.c:500-966 | suggestions are only appended; with `requireClose` or on an error nothing is logged or admitted; otherwise at most one goal is admitted and one message logged |
| `LibrarySearch.ParseInvocationRoundTrip` | stage0/stdlib/Lean/Elab/Tactic/LibrarySearch.c:1170-1262 | reading the `using` clause of a printed invocation gives back its names, or none |
| `LibrarySearch.ParseUsingRejects` | stage0/stdlib/Lean/Elab/Tactic/LibrarySearch.c:1170-1199 | a clause is rejected iff it is neither absent nor a two-child null node, and always as unsupported syntax |
| `LibrarySearch.EvalExactDispatch` | stage0/stdlib/Lean/Elab/Tactic/LibrarySearch.c:1148-1293 | `evalExact` rejects other syntax unchanged and otherwise runs `exact?` with `requireClose = true` |
| `LibrarySearch.EvalApplyDispatch` | stage0/stdlib/Lean/Elab/Tactic/LibrarySearch.c:1488-1651 | `evalApply` rejects other syntax, or names the element-wise coercion rejects, with the state unchanged, and otherwise runs `exact?` with `requireClose = false` |
| `LibrarySearch.EvalOfInvocation` | stage0/stdlib/Lean/Elab/Tactic/LibrarySearch.c:1148-1651 | on parsed invocations, `exact? using hs` runs the driver with `hs` and `requireClose = true`, `apply? using hs` with `false` |
| `LibrarySearch.LeavesAreUnsupported` | stage0/stdlib/Lean/Elab/Tactic/LibrarySearch.c:1148-1160 | `exact?`, `apply?` and `exact?%` reject an atom, an identifier or `missing` as unsupported syntax with the state unchanged, since a leaf's kind is a one-component name and theirs have four |
| `LibrarySearch.TermEarlyErrors` | stage0/stdlib/Lean/Elab/Tactic/LibrarySearch.c:2111-2149 | `exact?%` rejects other syntax, and a missing expected type, before changing anything |
| `LibrarySearch.TermModeOutcome` | stage0/stdlib/Lean/Elab/Tactic/LibrarySearch.c:1786-2090 | `exact?%` either suggests the closing term under "Try this: " and returns it instantiated, or logs the message matching whether partials exist and returns a synthetic `sorry` of the expected type; it never admits |
| `LibrarySearch.Elaborator.GetMainGoal` | stage0/stdlib/Lean/Elab/Tactic/LibrarySearch.c:793-808 | the goal list loses its assigned prefix and its head is returned, as `GetMainGoalSpec` |
| `LibrarySearch.Elaborator.SuggestPartials` | stage0/stdlib/Lean/Elab/Tactic/LibrarySearch.c:170-329 | the index loop with `withMCtx` leaves the context as it found it and ends in the state `SuggestAllSpec` gives |
| `LibrarySearch.Elaborator.Report` | stage0/stdlib/Lean/Elab/Tactic/LibrarySearch.c:500-779 | the body of `exact?` after `intros` ends in the state and result `ReportSpec` gives |
| `LibrarySearch.Elaborator.ExactQ` | stage0/stdlib/Lean/Elab/Tactic/LibrarySearch.c:789-966 | `exact?` ends in the state and result `ExactQSpec` gives |
| `LibrarySearch.Elaborator.EvalExact` | stage0/stdlib/Lean/Elab/Tactic/LibrarySearch.c:1148-1293 | `evalExact` ends in the state and result `EvalExactSpec` gives |
| `LibrarySearch.Elaborator.EvalApply` | stage0/stdlib/Lean/Elab/Tactic/LibrarySearch.c:1488-1651 | `evalApply` ends in the state and result `EvalApplySpec` gives |
| `LibrarySearch.Elaborator.ElabExactTerm` | stage0/stdlib/Lean/Elab/Tactic/LibrarySearch.c:1869-2149 | `elabExact?Term` ends in the state and result `ElabExactTermSpec` gives |

## Left out

- The search and elaboration services are parameters, not behaviour. These are `librarySearch` with `solveByElim`, `MVarId.intros`, `getFVarId`, `instantiateMVars`, `Expr.headBeta` and suggestion rendering. Each is a fixed function of the model's inputs, so the model cannot express effects they have beyond the returned context.
- `instantiateMVars` is read-only in the model. In Lean it also caches instantiated assignments in the metavariable context.
- `reportOutOfHeartbeats` on the `apply?` path is omitted. It only reports on the heartbeat budget, and budgets, ranking and truncation live inside `librarySearch`.
- `admitGoal` is recorded by adding the goal to the `admitted` list. Its assignment of a `sorry` to the goal in the metavariable context is not modelled.
- `mkFreshExprMVar` and `mkLabeledSorry` take their name from the counter `nextId`. Lean's unique-name generator is not modelled, and the model does not promise that this name is unused in the metavariable context: the services may return any context.
- `Expr` keeps only bound and free variables, metavariables, constants, sorts, applications, lambdas and `sorry`; it has no `forallE`, `letE`, `mdata`, `proj` or `lit`, so `Occurs` walks only the kept constructors.
- A saved tactic state (`Snapshot`) keeps only the goal list and the metavariable context. Messages, the environment, info trees and caches are not part of it.
- Only the "expected type must be known" error of `withExpectedType` is modelled. Its postponement of elaboration is not modelled, and `withExpectedType` itself is not part of the file.
- The local context that `withContext` selects is an extra argument of the services that use it. It is not a separate piece of state.
- EvalApply: the Option-valued element map over the `using` names (LibrarySearch.c:1620) is the arbitrary service `coerceUsing`, because its element function is not defined in this file; `evalExact`'s visible counterpart (LibrarySearch.c:1045-1070) always succeeds with the names unchanged, and is not modelled.
- Reference counting, boxed wrappers, builtin registration, declaration ranges, module initialisation and the erased `instTrans*` instances of `Nat` are omitted.

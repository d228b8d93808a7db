/**
  The front end of library search in `Lean.Elab.Tactic.LibrarySearch`: the tactics
  `exact?` and `apply?` and the term elaborator `exact?%`.

  The search itself (`librarySearch` with `solveByElim`) and the elaboration
  services it calls (`MVarId.intros`, `getFVarId`, `instantiateMVars`,
  `Expr.headBeta`, rendering a "Try this" suggestion) are not part of the file;
  they are the fields of an `Env`, fixed functions of their inputs. The file
  decides what to ask the search, how to filter its partial results, and what to
  do with the answer: add suggestions, log an error, admit the goal, or throw.

  The ambient elaborator state that the driver updates step by step is the class
  `Elaborator`; each of its operations is specified by a function on the value
  `ElabState`, about which the lemmas at the end are proved.
 */
module LibrarySearch {
  import opened ElabBase

  // ---------------------------------------------------------------------------
  // Constants of the file

  /** The share of the heartbeat budget, in percent, that the search leaves over
      for the caller; every entry point passes the default. */
  const LeavePercentHeartbeats: nat := 10
  /** The depth that `solveByElim` is run to inside the search. */
  const SolveByElimDepth: nat := 6

  const ExactKind: Name := ["Lean", "Parser", "Tactic", "exact?"]
  const ApplyKind: Name := ["Lean", "Parser", "Tactic", "apply?"]
  const TermKind: Name := ["Lean", "Parser", "Syntax", "exact?"]

  const CouldNotClose: string := "`exact?` could not close the goal."
  const TryApplyHint: string := " Try `apply?` to see partial suggestions."
  const ApplyNothingFound: string := "apply? didn't find any relevant lemmas"
  const TryThisHeader: string := "Try this: "
  const TermCouldNotClose: string :=
    "`exact?%` could not close the goal. Try `by apply?` to see partial suggestions."
  const TermNothingFound: string := "`exact?%` didn't find any relevant lemmas"

  /** Thrown by `withExpectedType` when the term has no expected type. */
  const ExpectedTypeUnknown: Error := Exception("expected type must be known")

  // ---------------------------------------------------------------------------
  // What is exchanged with the search and the elaborator

  /** The acceptance predicate handed to the search for partial results. */
  datatype Filter =
    | RequireOccurs(required: seq<Expr>)   // `exact?`/`apply?`: every required term occurs
    | AcceptAll                            // `exact?%`: the constant `true`

  /** One call of `librarySearch`: the goal, the lemmas and depth for `solveByElim`,
      the acceptance predicate and the percentage of heartbeats to leave over. */
  datatype Query = Query(goal: GoalId, elimLemmas: seq<Expr>, elimDepth: nat,
                         filter: Filter, leavePercentHeartbeats: nat)

  /** A partial result: the goals it leaves open and the context it was found in. */
  datatype PartialResult = PartialResult(subgoals: seq<GoalId>, mctx: MCtx)

  /** What `librarySearch` returns: `None` when it closed the goal, otherwise the
      partial results; and the metavariable context afterwards. */
  datatype SearchResult = SearchResult(found: Option<seq<PartialResult>>, mctx: MCtx)

  /** What `MVarId.intros` returns: the new locals, the new goal, the new context. */
  datatype IntrosResult = IntrosResult(fvars: seq<FVarId>, goal: GoalId, mctx: MCtx)

  /** A "Try this" suggestion as handed to `addExactSuggestion` or `addTermSuggestion`. */
  datatype Suggestion =
    | ExactSuggestion(ref: Syntax, term: Expr, addSubgoalsMsg: bool,
                      checkState: Option<Snapshot>, tacticErrorAsInfo: bool)
    | TermSuggestion(ref: Syntax, term: Expr, header: string)

  /** The services the file calls and does not define. */
  datatype Env = Env(
    intros: (MCtx, GoalId) -> Result<IntrosResult>,
    fvarOf: (MCtx, GoalId, Syntax) -> Result<FVarId>,
    search: (Query, MCtx) -> Result<SearchResult>,
    instantiate: (MCtx, Expr) -> Expr,
    headBeta: Expr -> Expr,
    suggest: (Suggestion, MCtx) -> Option<Error>,
    coerceUsing: Syntax -> Option<Syntax>)   // `evalApply`'s element map over the names; `None` is unsupported syntax

  /** The part of the elaborator state the front end reads or changes: the goal
      list, the metavariable context, the suggestions shown, the error log, the
      goals admitted with `sorry`, and the counter that names new goals and `sorry`s. */
  datatype ElabState = ElabState(goals: seq<GoalId>, mctx: MCtx, suggestions: seq<Suggestion>,
                                 log: seq<string>, admitted: seq<GoalId>, nextId: nat)

  /** The state after an operation, with its value or the exception it threw. */
  datatype Step<T> = Step(state: ElabState, result: Result<T>)

  // ---------------------------------------------------------------------------
  // Pure parts

  /** `List.all required (fun h => h.occurs e)`. */
  function AllOccur(required: seq<Expr>, e: Expr): (r: bool)
    ensures r <==> forall i :: 0 <= i < |required| ==> Occurs(required[i], e)
    decreases |required|
  {
    if required == [] then true
    else Occurs(required[0], e) && AllOccur(required[1..], e)
  }

  /** The acceptance predicate run by the search on a candidate goal `g`: the goal
      is instantiated in the current context and every required term must occur. */
  predicate Accepts(env: Env, filter: Filter, mctx: MCtx, g: GoalId) {
    match filter
    case RequireOccurs(required) => AllOccur(required, env.instantiate(mctx, MVar(g)))
    case AcceptAll => true
  }

  /** The query of `exact?`/`apply?`: the required locals serve both as the lemmas
      for `solveByElim` and as the terms that must occur. */
  function TacticQuery(introdGoal: GoalId, required: seq<FVarId>): Query {
    var exprs := seq(|required|, i requires 0 <= i < |required| => FVar(required[i]));
    Query(introdGoal, exprs, SolveByElimDepth, RequireOccurs(exprs), LeavePercentHeartbeats)
  }

  /** The query of `exact?%`: no lemmas, no requirement. */
  function TermQuery(introdGoal: GoalId): Query {
    Query(introdGoal, [], SolveByElimDepth, AcceptAll, LeavePercentHeartbeats)
  }

  /** `getFVarIds`: every name resolved in the context of the goal, stopping at the
      first that does not resolve. */
  function ResolveAll(env: Env, mctx: MCtx, g: GoalId, names: seq<Syntax>): (r: Result<seq<FVarId>>)
    ensures r.Ok? ==> |r.value| == |names|
    ensures r.Ok? ==> forall i :: 0 <= i < |names| ==> env.fvarOf(mctx, g, names[i]) == Ok(r.value[i])
    ensures r.Err? ==> exists i :: 0 <= i < |names| && env.fvarOf(mctx, g, names[i]) == Err(r.error) &&
                                   forall j :: 0 <= j < i ==> env.fvarOf(mctx, g, names[j]).Ok?
    decreases |names|
  {
    if names == [] then Ok([])
    else match env.fvarOf(mctx, g, names[0])
      case Err(e) => Err(e)
      case Ok(x) =>
        match ResolveAll(env, mctx, g, names[1..])
        case Err(e) =>
          assert forall j :: 0 <= j < |names| - 1 ==> names[1..][j] == names[j + 1];
          Err(e)
        case Ok(xs) => Ok([x] + xs)
  }

  /** The error thrown by `exact?` when the goal was not closed. */
  function CouldNotCloseMessage(partials: seq<PartialResult>): string {
    CouldNotClose + (if |partials| == 0 then "" else TryApplyHint) + ""
  }

  /** The error logged by `exact?%` when the goal was not closed. */
  function TermFailureMessage(partials: seq<PartialResult>): string {
    if |partials| == 0 then TermNothingFound else TermCouldNotClose
  }

  /** The suggestion for a closing term: the original goal, instantiated and
      head-beta reduced, to be checked against the state saved before `intros`. */
  function ClosingSuggestion(env: Env, ref: Syntax, goal: GoalId, initial: Snapshot, mctx: MCtx): Suggestion {
    ExactSuggestion(ref, env.headBeta(env.instantiate(mctx, MVar(goal))), false, Some(initial), false)
  }

  /** The suggestion for one partial result, built inside that result's context,
      with the remaining subgoals mentioned and errors shown as information. */
  function PartialSuggestion(env: Env, goal: GoalId, initial: Snapshot, ref: Syntax,
                             p: PartialResult): Suggestion {
    ExactSuggestion(ref, env.headBeta(env.instantiate(p.mctx, MVar(goal))), true, Some(initial), true)
  }

  /** The error, if any, of adding the suggestion for `p` in its own context. */
  function PartialFailure(env: Env, goal: GoalId, initial: Snapshot, ref: Syntax,
                          p: PartialResult): Option<Error> {
    env.suggest(PartialSuggestion(env, goal, initial, ref, p), p.mctx)
  }

  /** The suggestions for all partial results, in their order. */
  function PartialSuggestions(env: Env, goal: GoalId, initial: Snapshot, ref: Syntax,
                              ps: seq<PartialResult>): seq<Suggestion> {
    seq(|ps|, i requires 0 <= i < |ps| => PartialSuggestion(env, goal, initial, ref, ps[i]))
  }

  /** The position of the first partial result whose suggestion fails, `|ps|` if none does. */
  function FirstRejected(env: Env, goal: GoalId, initial: Snapshot, ref: Syntax,
                         ps: seq<PartialResult>): (k: nat)
    ensures k <= |ps|
    ensures forall j :: 0 <= j < k ==> PartialFailure(env, goal, initial, ref, ps[j]).None?
    ensures k < |ps| ==> PartialFailure(env, goal, initial, ref, ps[k]).Some?
    decreases |ps|
  {
    if ps == [] then 0
    else if PartialFailure(env, goal, initial, ref, ps[0]).Some? then 0
    else 1 + FirstRejected(env, goal, initial, ref, ps[1..])
  }

  // ---------------------------------------------------------------------------
  // Syntax of the invocations

  /** The optional `using` clause of `exact?`/`apply?`: absent, or a null node with
      the keyword and the comma-separated names. Anything else is unsupported. */
  function ParseUsing(stx: Syntax): Result<Option<seq<Syntax>>> {
    var clause := GetArg(stx, 1);
    if IsNone(clause) then Ok(None)
    else if !MatchesNull(clause, 2) then Err(UnsupportedSyntax)
    else Ok(Some(SepElems(GetArgs(GetArg(clause, 1)))))
  }

  /** The syntax `kind` `keyword` [`using` n₁, …, nₖ] that the parser produces. */
  function Invocation(kind: Name, keyword: string, using: Option<seq<Syntax>>): Syntax {
    var clause := match using
      case None => Node(NullKind, [])
      case Some(names) => Node(NullKind, [Atom(" using "), Node(NullKind, SepJoin(names))]);
    Node(kind, [Atom(keyword), clause])
  }

  /** The element-wise coercion `evalApply` applies to the names, failing as a whole
      if any element fails. */
  function CoerceAll(f: Syntax -> Option<Syntax>, xs: seq<Syntax>): (r: Option<seq<Syntax>>)
    ensures r.Some? <==> forall i :: 0 <= i < |xs| ==> f(xs[i]).Some?
    ensures r.Some? ==> |r.value| == |xs| && forall i :: 0 <= i < |xs| ==> f(xs[i]) == Some(r.value[i])
    decreases |xs|
  {
    if xs == [] then Some([])
    else match f(xs[0])
      case None => None
      case Some(y) =>
        match CoerceAll(f, xs[1..])
        case None =>
          assert forall i :: 0 <= i < |xs| - 1 ==> xs[1..][i] == xs[i + 1];
          None
        case Some(ys) => Some([y] + ys)
  }

  // ---------------------------------------------------------------------------
  // Specifications of the operations, on states

  /** `getMainGoal`: the first goal not yet assigned; the goals before it are dropped. */
  function GetMainGoalSpec(s: ElabState): Step<GoalId> {
    match FirstOpenGoal(s.goals, s.mctx.assignment)
    case Err(e) => Step(s, Err(e))
    case Ok(i) => Step(s.(goals := s.goals[i..]), Ok(s.goals[i]))
  }

  /** The `forIn'` loop of `apply?`: one suggestion per partial result, in order,
      each inside that result's context, which is restored afterwards; the first
      failure ends the loop and is returned. */
  function SuggestAllSpec(env: Env, s: ElabState, goal: GoalId, initial: Snapshot, ref: Syntax,
                          ps: seq<PartialResult>): Step<()>
    decreases |ps|
  {
    if ps == [] then Step(s, Ok(()))
    else match PartialFailure(env, goal, initial, ref, ps[0])
      case Some(e) => Step(s, Err(e))
      case None =>
        var sg := PartialSuggestion(env, goal, initial, ref, ps[0]);
        SuggestAllSpec(env, s.(suggestions := s.suggestions + [sg]), goal, initial, ref, ps[1..])
  }

  /** The body of `exact?` after `intros` (its `lam__3`): resolve the required names,
      search, then act on the answer. `goal` is the main goal before `intros`,
      `introdGoal` the one after, `initial` the state saved before `intros`. */
  function ReportSpec(env: Env, s: ElabState, ref: Syntax, names: seq<Syntax>, introdGoal: GoalId,
                      goal: GoalId, initial: Snapshot, requireClose: bool): Step<()>
  {
    match ResolveAll(env, s.mctx, introdGoal, names)
    case Err(e) => Step(s, Err(e))
    case Ok(ids) =>
      match env.search(TacticQuery(introdGoal, ids), s.mctx)
      case Err(e) => Step(s, Err(e))
      case Ok(sr) =>
        var s1 := s.(mctx := sr.mctx);
        match sr.found
        case None =>
          var sg := ClosingSuggestion(env, ref, goal, initial, s1.mctx);
          (match env.suggest(sg, s1.mctx)
           case Some(e) => Step(s1, Err(e))
           case None => Step(s1.(suggestions := s1.suggestions + [sg]), Ok(())))
        case Some(ps) =>
          if requireClose then Step(s1, Err(Exception(CouldNotCloseMessage(ps))))
          else
            var looped := SuggestAllSpec(env, s1, goal, initial, ref, ps);
            if looped.result.Err? then looped
            else
              var s2 := looped.state;
              var s3 := if |ps| == 0 then s2.(log := s2.log + [ApplyNothingFound]) else s2;
              Step(s3.(admitted := s3.admitted + [introdGoal]), Ok(()))
  }

  /** `exact? ref required requireClose`. */
  function ExactQSpec(env: Env, s: ElabState, ref: Syntax, required: Option<seq<Syntax>>,
                      requireClose: bool): Step<()>
  {
    match GetMainGoalSpec(s)
    case Step(s1, Err(e)) => Step(s1, Err(e))
    case Step(s1, Ok(goal)) =>
      var initial := Snapshot(s1.goals, s1.mctx);
      match GetMainGoalSpec(s1)
      case Step(s2, Err(e)) => Step(s2, Err(e))
      case Step(s2, Ok(g)) =>
        match env.intros(s2.mctx, g)
        case Err(e) => Step(s2, Err(e))
        case Ok(ir) =>
          ReportSpec(env, s2.(mctx := ir.mctx), ref, required.GetOr([]), ir.goal, goal, initial, requireClose)
  }

  /** `evalExact`: the `exact?` tactic, which must close the goal. */
  function EvalExactSpec(env: Env, s: ElabState, ref: Syntax, stx: Syntax): Step<()> {
    if !IsOfKind(stx, ExactKind) then Step(s, Err(UnsupportedSyntax))
    else match ParseUsing(stx)
      case Err(e) => Step(s, Err(e))
      case Ok(required) => ExactQSpec(env, s, ref, required, true)
  }

  /** `evalApply`: the `apply?` tactic, which may leave partial suggestions. */
  function EvalApplySpec(env: Env, s: ElabState, ref: Syntax, stx: Syntax): Step<()> {
    if !IsOfKind(stx, ApplyKind) then Step(s, Err(UnsupportedSyntax))
    else match ParseUsing(stx)
      case Err(e) => Step(s, Err(e))
      case Ok(None) => ExactQSpec(env, s, ref, None, false)
      case Ok(Some(names)) =>
        match CoerceAll(env.coerceUsing, names)
        case None => Step(s, Err(UnsupportedSyntax))
        case Some(coerced) => ExactQSpec(env, s, ref, Some(coerced), false)
  }

  /** `elabExact?Term`: search for a term of the expected type; on success suggest it
      and return it, otherwise log an error and return a labelled `sorry`. */
  function ElabExactTermSpec(env: Env, s: ElabState, stx: Syntax, expectedType: Option<Expr>): Step<Expr> {
    if !IsOfKind(stx, TermKind) then Step(s, Err(UnsupportedSyntax))
    else match expectedType
      case None => Step(s, Err(ExpectedTypeUnknown))
      case Some(ty) =>
        var goal := s.nextId;
        var s1 := s.(mctx := s.mctx.(decls := s.mctx.decls[goal := ty]), nextId := s.nextId + 1);
        match env.intros(s1.mctx, goal)
        case Err(e) => Step(s1, Err(e))
        case Ok(ir) =>
          match env.search(TermQuery(ir.goal), ir.mctx)
          case Err(e) => Step(s1.(mctx := ir.mctx), Err(e))
          case Ok(sr) =>
            var s2 := s1.(mctx := sr.mctx);
            match sr.found
            case None =>
              var sg := TermSuggestion(stx, env.headBeta(env.instantiate(s2.mctx, MVar(goal))), TryThisHeader);
              (match env.suggest(sg, s2.mctx)
               case Some(e) => Step(s2, Err(e))
               case None => Step(s2.(suggestions := s2.suggestions + [sg]),
                                 Ok(env.instantiate(s2.mctx, MVar(goal)))))
            case Some(ps) =>
              Step(s2.(log := s2.log + [TermFailureMessage(ps)], nextId := s2.nextId + 1),
                   Ok(Sorry(ty, true, s2.nextId)))
  }

  // ---------------------------------------------------------------------------
  // The elaborator, updated in place

  class Elaborator {
    var goals: seq<GoalId>
    var mctx: MCtx
    var suggestions: seq<Suggestion>
    var log: seq<string>
    var admitted: seq<GoalId>
    var nextId: nat

    function State(): ElabState
      reads this
    {
      ElabState(goals, mctx, suggestions, log, admitted, nextId)
    }

    constructor (s: ElabState)
      ensures State() == s
    {
      goals, mctx, suggestions, log, admitted, nextId :=
        s.goals, s.mctx, s.suggestions, s.log, s.admitted, s.nextId;
    }

    method GetMainGoal() returns (r: Result<GoalId>)
      modifies this
      ensures Step(State(), r) == GetMainGoalSpec(old(State()))
    {
      var i := FirstOpenGoal(goals, mctx.assignment);
      if i.Err? {
        return Err(i.error);
      }
      r := Ok(goals[i.value]);
      goals := goals[i.value..];
    }

    /** The suggestion loop; `withMCtx` installs each result's context and puts the
        current one back whether or not the suggestion succeeds. */
    method SuggestPartials(env: Env, goal: GoalId, initial: Snapshot, ref: Syntax,
                           ps: seq<PartialResult>) returns (r: Result<()>)
      modifies this
      ensures Step(State(), r) == SuggestAllSpec(env, old(State()), goal, initial, ref, ps)
    {
      var i := 0;
      while i < |ps|
        invariant 0 <= i <= |ps|
        invariant SuggestAllSpec(env, old(State()), goal, initial, ref, ps)
               == SuggestAllSpec(env, State(), goal, initial, ref, ps[i..])
      {
        var saved := mctx;
        mctx := ps[i].mctx;
        var term := env.headBeta(env.instantiate(mctx, MVar(goal)));
        var sg := ExactSuggestion(ref, term, true, Some(initial), true);
        var failure := env.suggest(sg, mctx);
        mctx := saved;
        if failure.Some? {
          return Err(failure.value);
        }
        suggestions := suggestions + [sg];
        assert ps[i..][1..] == ps[i + 1..];
        i := i + 1;
      }
      r := Ok(());
    }

    /** `exact?`'s `lam__3`. */
    method Report(env: Env, ref: Syntax, names: seq<Syntax>, introdGoal: GoalId,
                  goal: GoalId, initial: Snapshot, requireClose: bool) returns (r: Result<()>)
      modifies this
      ensures Step(State(), r) == ReportSpec(env, old(State()), ref, names, introdGoal, goal, initial, requireClose)
    {
      var ids := ResolveAll(env, mctx, introdGoal, names);
      if ids.Err? {
        return Err(ids.error);
      }
      var answer := env.search(TacticQuery(introdGoal, ids.value), mctx);
      if answer.Err? {
        return Err(answer.error);
      }
      mctx := answer.value.mctx;
      match answer.value.found
      case None =>
        var sg := ClosingSuggestion(env, ref, goal, initial, mctx);
        var failure := env.suggest(sg, mctx);
        if failure.Some? {
          return Err(failure.value);
        }
        suggestions := suggestions + [sg];
        r := Ok(());
      case Some(ps) =>
        if requireClose {
          return Err(Exception(CouldNotCloseMessage(ps)));
        }
        r := SuggestPartials(env, goal, initial, ref, ps);
        if r.Err? {
          return;
        }
        if |ps| == 0 {
          log := log + [ApplyNothingFound];
        }
        admitted := admitted + [introdGoal];
        r := Ok(());
    }

    method ExactQ(env: Env, ref: Syntax, required: Option<seq<Syntax>>, requireClose: bool)
      returns (r: Result<()>)
      modifies this
      ensures Step(State(), r) == ExactQSpec(env, old(State()), ref, required, requireClose)
    {
      var main := GetMainGoal();
      if main.Err? {
        return Err(main.error);
      }
      var initial := Snapshot(goals, mctx);
      var again := GetMainGoal();
      if again.Err? {
        return Err(again.error);
      }
      var intro := env.intros(mctx, again.value);
      if intro.Err? {
        return Err(intro.error);
      }
      mctx := intro.value.mctx;
      r := Report(env, ref, required.GetOr([]), intro.value.goal, main.value, initial, requireClose);
    }

    method EvalExact(env: Env, ref: Syntax, stx: Syntax) returns (r: Result<()>)
      modifies this
      ensures Step(State(), r) == EvalExactSpec(env, old(State()), ref, stx)
    {
      if !IsOfKind(stx, ExactKind) {
        return Err(UnsupportedSyntax);
      }
      var required := ParseUsing(stx);
      if required.Err? {
        return Err(required.error);
      }
      r := ExactQ(env, ref, required.value, true);
    }

    method EvalApply(env: Env, ref: Syntax, stx: Syntax) returns (r: Result<()>)
      modifies this
      ensures Step(State(), r) == EvalApplySpec(env, old(State()), ref, stx)
    {
      if !IsOfKind(stx, ApplyKind) {
        return Err(UnsupportedSyntax);
      }
      var required := ParseUsing(stx);
      if required.Err? {
        return Err(required.error);
      }
      match required.value
      case None =>
        r := ExactQ(env, ref, None, false);
      case Some(names) =>
        var coerced := CoerceAll(env.coerceUsing, names);
        if coerced.None? {
          return Err(UnsupportedSyntax);
        }
        r := ExactQ(env, ref, Some(coerced.value), false);
    }

    method ElabExactTerm(env: Env, stx: Syntax, expectedType: Option<Expr>) returns (r: Result<Expr>)
      modifies this
      ensures Step(State(), r) == ElabExactTermSpec(env, old(State()), stx, expectedType)
    {
      if !IsOfKind(stx, TermKind) {
        return Err(UnsupportedSyntax);
      }
      if expectedType.None? {
        return Err(ExpectedTypeUnknown);
      }
      var ty := expectedType.value;
      // mkFreshExprMVar
      var goal := nextId;
      mctx := mctx.(decls := mctx.decls[goal := ty]);
      nextId := nextId + 1;
      var intro := env.intros(mctx, goal);
      if intro.Err? {
        return Err(intro.error);
      }
      mctx := intro.value.mctx;
      var answer := env.search(TermQuery(intro.value.goal), mctx);
      if answer.Err? {
        return Err(answer.error);
      }
      mctx := answer.value.mctx;
      match answer.value.found
      case None =>
        var sg := TermSuggestion(stx, env.headBeta(env.instantiate(mctx, MVar(goal))), TryThisHeader);
        var failure := env.suggest(sg, mctx);
        if failure.Some? {
          return Err(failure.value);
        }
        suggestions := suggestions + [sg];
        r := Ok(env.instantiate(mctx, MVar(goal)));
      case Some(ps) =>
        log := log + [TermFailureMessage(ps)];
        // mkLabeledSorry
        r := Ok(Sorry(ty, true, nextId));
        nextId := nextId + 1;
    }
  }

  // ---------------------------------------------------------------------------
  // Properties

  /** The acceptance predicate of `exact?`/`apply?` holds of a goal exactly when
      every required local occurs in the goal once instantiated. */
  lemma AcceptsIffAllOccur(env: Env, introdGoal: GoalId, ids: seq<FVarId>, mctx: MCtx, g: GoalId)
    ensures Accepts(env, TacticQuery(introdGoal, ids).filter, mctx, g) <==>
            forall i :: 0 <= i < |ids| ==> Occurs(FVar(ids[i]), env.instantiate(mctx, MVar(g)))
  {
    var exprs := TacticQuery(introdGoal, ids).elimLemmas;
    assert forall i :: 0 <= i < |ids| ==> exprs[i] == FVar(ids[i]);
  }

  /** Without a `using` clause nothing is required: the names resolve to no locals
      and every goal is accepted. */
  lemma NoUsingAcceptsEverything(env: Env, mctx: MCtx, introdGoal: GoalId)
    ensures ResolveAll(env, mctx, introdGoal, None.GetOr([])) == Ok([])
    ensures forall m: MCtx, g: GoalId :: Accepts(env, TacticQuery(introdGoal, []).filter, m, g)
  {
  }

  /** Both kinds of query leave 10 percent of the heartbeats over and run `solveByElim`
      to depth 6; the
      tactic query uses the required locals as lemmas and as the requirement, the
      term query has neither and accepts everything. */
  lemma QueriesUseFixedLimits(env: Env, introdGoal: GoalId, ids: seq<FVarId>)
    ensures TacticQuery(introdGoal, ids).leavePercentHeartbeats == 10 && TermQuery(introdGoal).leavePercentHeartbeats == 10
    ensures TacticQuery(introdGoal, ids).elimDepth == 6 && TermQuery(introdGoal).elimDepth == 6
    ensures TacticQuery(introdGoal, ids).goal == introdGoal && TermQuery(introdGoal).goal == introdGoal
    ensures TacticQuery(introdGoal, ids).filter == RequireOccurs(TacticQuery(introdGoal, ids).elimLemmas)
    ensures |TacticQuery(introdGoal, ids).elimLemmas| == |ids|
    ensures TermQuery(introdGoal).elimLemmas == []
    ensures forall m: MCtx, g: GoalId :: Accepts(env, TermQuery(introdGoal).filter, m, g)
  {
  }

  /** `getMainGoal` run a second time returns the same goal and changes nothing, so
      the state `exact?` saves lies between two identical calls. */
  lemma MainGoalStable(s: ElabState)
    ensures GetMainGoalSpec(s).result.Ok? ==>
      var s1 := GetMainGoalSpec(s).state;
      GetMainGoalSpec(s1) == Step(s1, GetMainGoalSpec(s).result) && s1.goals[0] == GetMainGoalSpec(s).result.value
    ensures GetMainGoalSpec(s).result.Err? ==> GetMainGoalSpec(s) == Step(s, Err(NoGoalsError))
  {
  }

  /** Once a main goal exists and `intros` succeeds, `exact?` searches from the goal
      `intros` produced, while its suggestions are built from the main goal before
      `intros` and checked against the state saved before `intros`. */
  lemma ExactQAfterIntros(env: Env, s: ElabState, ref: Syntax, required: Option<seq<Syntax>>,
                          requireClose: bool, i: nat, ir: IntrosResult)
    requires FirstOpenGoal(s.goals, s.mctx.assignment) == Ok(i)
    requires env.intros(s.mctx, s.goals[i]) == Ok(ir)
    ensures ExactQSpec(env, s, ref, required, requireClose)
         == ReportSpec(env, s.(goals := s.goals[i..], mctx := ir.mctx), ref, required.GetOr([]),
                       ir.goal, s.goals[i], Snapshot(s.goals[i..], s.mctx), requireClose)
  {
  }

  /** Errors before the search leave no trace: with no open goal, or when `intros`
      fails, `exact?` returns that error and has only dropped the assigned goals. */
  lemma ExactQEarlyErrors(env: Env, s: ElabState, ref: Syntax, required: Option<seq<Syntax>>,
                          requireClose: bool)
    ensures FirstOpenGoal(s.goals, s.mctx.assignment).Err? ==>
      ExactQSpec(env, s, ref, required, requireClose) == Step(s, Err(NoGoalsError))
    ensures var m := FirstOpenGoal(s.goals, s.mctx.assignment);
      m.Ok? && env.intros(s.mctx, s.goals[m.value]).Err? ==>
      ExactQSpec(env, s, ref, required, requireClose)
        == Step(s.(goals := s.goals[m.value..]), Err(env.intros(s.mctx, s.goals[m.value]).error))
  {
  }

  /** An unresolvable `using` name or a failing search is returned unchanged, before
      anything is suggested, logged or admitted. */
  lemma ReportEarlyErrors(env: Env, s: ElabState, ref: Syntax, names: seq<Syntax>, introdGoal: GoalId,
                          goal: GoalId, initial: Snapshot, requireClose: bool)
    ensures ResolveAll(env, s.mctx, introdGoal, names).Err? ==>
      ReportSpec(env, s, ref, names, introdGoal, goal, initial, requireClose)
        == Step(s, Err(ResolveAll(env, s.mctx, introdGoal, names).error))
    ensures var ids := ResolveAll(env, s.mctx, introdGoal, names);
      ids.Ok? && env.search(TacticQuery(introdGoal, ids.value), s.mctx).Err? ==>
      ReportSpec(env, s, ref, names, introdGoal, goal, initial, requireClose)
        == Step(s, Err(env.search(TacticQuery(introdGoal, ids.value), s.mctx).error))
  {
  }

  /** A closing term yields exactly one suggestion, for the original goal, and
      nothing is logged or admitted, in either mode. */
  lemma ClosingTermYieldsOneSuggestion(env: Env, s: ElabState, ref: Syntax, names: seq<Syntax>,
                                       introdGoal: GoalId, goal: GoalId, initial: Snapshot,
                                       requireClose: bool, ids: seq<FVarId>, sr: SearchResult)
    requires ResolveAll(env, s.mctx, introdGoal, names) == Ok(ids)
    requires env.search(TacticQuery(introdGoal, ids), s.mctx) == Ok(sr) && sr.found.None?
    ensures var r := ReportSpec(env, s, ref, names, introdGoal, goal, initial, requireClose);
      var sg := ClosingSuggestion(env, ref, goal, initial, sr.mctx);
      r.state == s.(mctx := sr.mctx, suggestions := r.state.suggestions) &&
      (env.suggest(sg, sr.mctx).None? ==> r.result == Ok(()) && r.state.suggestions == s.suggestions + [sg]) &&
      (env.suggest(sg, sr.mctx).Some? ==>
         r.result == Err(env.suggest(sg, sr.mctx).value) && r.state.suggestions == s.suggestions)
  {
  }

  /** The error of `exact?` when the goal stays open mentions `apply?` exactly when
      there are partial results. */
  lemma CouldNotCloseHint(partials: seq<PartialResult>)
    ensures |partials| > 0 ==> CouldNotCloseMessage(partials) == CouldNotClose + TryApplyHint
    ensures |partials| == 0 ==> CouldNotCloseMessage(partials) == CouldNotClose
    ensures CouldNotCloseMessage(partials) == CouldNotClose <==> |partials| == 0
  {
  }

  /** With `requireClose`, an open goal is an error: nothing is suggested, logged
      or admitted. */
  lemma RequireCloseThrows(env: Env, s: ElabState, ref: Syntax, names: seq<Syntax>,
                           introdGoal: GoalId, goal: GoalId, initial: Snapshot,
                           ids: seq<FVarId>, sr: SearchResult)
    requires ResolveAll(env, s.mctx, introdGoal, names) == Ok(ids)
    requires env.search(TacticQuery(introdGoal, ids), s.mctx) == Ok(sr) && sr.found.Some?
    ensures ReportSpec(env, s, ref, names, introdGoal, goal, initial, true)
         == Step(s.(mctx := sr.mctx), Err(Exception(CouldNotCloseMessage(sr.found.value))))
  {
  }

  /** The suggestion loop adds the suggestions of the partial results in order up to
      the first that fails, and returns that failure if there is one. */
  lemma {:induction false} SuggestAllClosedForm(env: Env, s: ElabState, goal: GoalId, initial: Snapshot,
                                                ref: Syntax, ps: seq<PartialResult>)
    ensures var k := FirstRejected(env, goal, initial, ref, ps);
      SuggestAllSpec(env, s, goal, initial, ref, ps)
        == Step(s.(suggestions := s.suggestions + PartialSuggestions(env, goal, initial, ref, ps)[..k]),
                if k < |ps| then Err(PartialFailure(env, goal, initial, ref, ps[k]).value) else Ok(()))
    decreases |ps|
  {
    if ps != [] && PartialFailure(env, goal, initial, ref, ps[0]).None? {
      var sg := PartialSuggestion(env, goal, initial, ref, ps[0]);
      var s1 := s.(suggestions := s.suggestions + [sg]);
      SuggestAllClosedForm(env, s1, goal, initial, ref, ps[1..]);
      var k := FirstRejected(env, goal, initial, ref, ps);
      var k1 := FirstRejected(env, goal, initial, ref, ps[1..]);
      assert k == k1 + 1;
      var all := PartialSuggestions(env, goal, initial, ref, ps);
      var rest := PartialSuggestions(env, goal, initial, ref, ps[1..]);
      PartialSuggestionsCons(env, goal, initial, ref, ps);
      assert all[..k] == [sg] + rest[..k1];
      assert s1.suggestions + rest[..k1] == s.suggestions + all[..k];
      if k1 < |ps| - 1 {
        assert ps[1..][k1] == ps[k];
      }
    }
  }

  lemma PartialSuggestionsCons(env: Env, goal: GoalId, initial: Snapshot, ref: Syntax, ps: seq<PartialResult>)
    requires ps != []
    ensures PartialSuggestions(env, goal, initial, ref, ps)
         == [PartialSuggestion(env, goal, initial, ref, ps[0])] + PartialSuggestions(env, goal, initial, ref, ps[1..])
  {
  }

  /** `apply?` without a closing term: one suggestion per partial result in order,
      then "apply? didn't find any relevant lemmas" logged exactly when there were
      none, and the goal after `intros` admitted; a failing suggestion stops the
      loop and is returned, with nothing logged or admitted. */
  lemma ApplyModeOutcome(env: Env, s: ElabState, ref: Syntax, names: seq<Syntax>,
                         introdGoal: GoalId, goal: GoalId, initial: Snapshot,
                         ids: seq<FVarId>, sr: SearchResult)
    requires ResolveAll(env, s.mctx, introdGoal, names) == Ok(ids)
    requires env.search(TacticQuery(introdGoal, ids), s.mctx) == Ok(sr) && sr.found.Some?
    ensures var ps := sr.found.value;
      var k := FirstRejected(env, goal, initial, ref, ps);
      var r := ReportSpec(env, s, ref, names, introdGoal, goal, initial, false);
      r.state.suggestions == s.suggestions + PartialSuggestions(env, goal, initial, ref, ps)[..k] &&
      r.state.goals == s.goals && r.state.mctx == sr.mctx && r.state.nextId == s.nextId &&
      (k == |ps| ==>
         r.result == Ok(()) &&
         r.state.log == s.log + (if |ps| == 0 then [ApplyNothingFound] else []) &&
         r.state.admitted == s.admitted + [introdGoal]) &&
      (k < |ps| ==>
         r.result == Err(PartialFailure(env, goal, initial, ref, ps[k]).value) &&
         r.state.log == s.log && r.state.admitted == s.admitted)
  {
    SuggestAllClosedForm(env, s.(mctx := sr.mctx), goal, initial, ref, sr.found.value);
  }

  /** Over the whole of `exact?`: suggestions are only ever appended; with
      `requireClose` nothing is logged or admitted; a thrown error comes with no log
      entry and no admission; and otherwise at most the one goal is admitted and at
      most the one message logged. */
  lemma ExactQEffects(env: Env, s: ElabState, ref: Syntax, required: Option<seq<Syntax>>, requireClose: bool)
    ensures var r := ExactQSpec(env, s, ref, required, requireClose);
      s.suggestions <= r.state.suggestions &&
      (requireClose || r.result.Err? ==> r.state.log == s.log && r.state.admitted == s.admitted) &&
      (r.state.log == s.log || r.state.log == s.log + [ApplyNothingFound]) &&
      (r.state.admitted == s.admitted || |r.state.admitted| == |s.admitted| + 1)
  {
    match FirstOpenGoal(s.goals, s.mctx.assignment)
    case Err(_) =>
    case Ok(i) =>
      match env.intros(s.mctx, s.goals[i])
      case Err(_) =>
        ExactQEarlyErrors(env, s, ref, required, requireClose);
      case Ok(ir) =>
        ExactQAfterIntros(env, s, ref, required, requireClose, i, ir);
        var s2 := s.(goals := s.goals[i..], mctx := ir.mctx);
        var names := required.GetOr([]);
        match ResolveAll(env, s2.mctx, ir.goal, names)
        case Err(_) =>
        case Ok(ids) =>
          match env.search(TacticQuery(ir.goal, ids), s2.mctx)
          case Err(_) =>
          case Ok(sr) =>
            if sr.found.Some? && !requireClose {
              ApplyModeOutcome(env, s2, ref, names, ir.goal, s.goals[i],
                               Snapshot(s.goals[i..], s.mctx), ids, sr);
            }
  }

  /** Parsing gives back the `using` clause that the invocation was printed with. */
  lemma ParseInvocationRoundTrip(kind: Name, keyword: string, using: Option<seq<Syntax>>)
    ensures IsOfKind(Invocation(kind, keyword, using), kind)
    ensures ParseUsing(Invocation(kind, keyword, using)) == Ok(using)
  {
    if using.Some? {
      SepElemsJoin(using.value);
    }
  }

  /** Every `using` clause that parsing rejects is rejected as unsupported syntax. */
  lemma ParseUsingRejects(stx: Syntax)
    ensures ParseUsing(stx).Err? <==> !IsNone(GetArg(stx, 1)) && !MatchesNull(GetArg(stx, 1), 2)
    ensures ParseUsing(stx).Err? ==> ParseUsing(stx).error == UnsupportedSyntax
  {
  }

  /** `evalExact` runs the driver with `requireClose` set; syntax of another kind or
      with a malformed `using` clause is unsupported and changes nothing. */
  lemma EvalExactDispatch(env: Env, s: ElabState, ref: Syntax, stx: Syntax)
    ensures !IsOfKind(stx, ExactKind) || ParseUsing(stx).Err? ==>
      EvalExactSpec(env, s, ref, stx) == Step(s, Err(UnsupportedSyntax))
    ensures IsOfKind(stx, ExactKind) && ParseUsing(stx).Ok? ==>
      EvalExactSpec(env, s, ref, stx) == ExactQSpec(env, s, ref, ParseUsing(stx).value, true)
  {
  }

  /** `evalApply` runs the driver with `requireClose` unset, on the same terms. */
  lemma EvalApplyDispatch(env: Env, s: ElabState, ref: Syntax, stx: Syntax)
    ensures !IsOfKind(stx, ApplyKind) || ParseUsing(stx).Err? ==>
      EvalApplySpec(env, s, ref, stx) == Step(s, Err(UnsupportedSyntax))
    ensures IsOfKind(stx, ApplyKind) && ParseUsing(stx) == Ok(None) ==>
      EvalApplySpec(env, s, ref, stx) == ExactQSpec(env, s, ref, None, false)
    ensures IsOfKind(stx, ApplyKind) && ParseUsing(stx).Ok? && ParseUsing(stx).value.Some? ==>
      var names := ParseUsing(stx).value.value;
      EvalApplySpec(env, s, ref, stx) ==
        if forall i :: 0 <= i < |names| ==> env.coerceUsing(names[i]).Some?
        then ExactQSpec(env, s, ref, CoerceAll(env.coerceUsing, names), false)
        else Step(s, Err(UnsupportedSyntax))
  {
  }

  /** The two tactics on the syntax the parser produces: `exact? using hs` runs the
      driver with the names `hs` and `requireClose` set, `apply? using hs` with it
      unset (when the element-wise coercion keeps every name as it is). */
  lemma EvalOfInvocation(env: Env, s: ElabState, ref: Syntax, using: Option<seq<Syntax>>)
    ensures EvalExactSpec(env, s, ref, Invocation(ExactKind, "exact?", using))
         == ExactQSpec(env, s, ref, using, true)
    ensures (forall i :: 0 <= i < |using.GetOr([])| ==> env.coerceUsing(using.GetOr([])[i]) == Some(using.GetOr([])[i])) ==>
      EvalApplySpec(env, s, ref, Invocation(ApplyKind, "apply?", using)) == ExactQSpec(env, s, ref, using, false)
  {
    ParseInvocationRoundTrip(ExactKind, "exact?", using);
    ParseInvocationRoundTrip(ApplyKind, "apply?", using);
    if using.Some? {
      var names := using.value;
      assert using.GetOr([]) == names;
      var c := CoerceAll(env.coerceUsing, names);
      if forall i :: 0 <= i < |names| ==> env.coerceUsing(names[i]) == Some(names[i]) {
        assert c.Some?;
        assert forall i :: 0 <= i < |names| ==> c.value[i] == names[i];
        assert c.value == names;
        var inv := Invocation(ApplyKind, "apply?", using);
        assert ParseUsing(inv) == Ok(Some(names));
        assert EvalApplySpec(env, s, ref, inv) == ExactQSpec(env, s, ref, Some(c.value), false);
      }
    }
  }

  /** None of the three entry points accepts a leaf: the kinds they test for have
      four components, and a leaf's kind has one, whatever the atom's text. */
  lemma LeavesAreUnsupported(env: Env, s: ElabState, ref: Syntax, stx: Syntax, expectedType: Option<Expr>)
    requires !stx.Node?
    ensures EvalExactSpec(env, s, ref, stx) == Step(s, Err(UnsupportedSyntax))
    ensures EvalApplySpec(env, s, ref, stx) == Step(s, Err(UnsupportedSyntax))
    ensures ElabExactTermSpec(env, s, stx, expectedType) == Step(s, Err(UnsupportedSyntax))
  {
  }

  /** `exact?%` rejects other syntax and a missing expected type before doing anything. */
  lemma TermEarlyErrors(env: Env, s: ElabState, stx: Syntax, expectedType: Option<Expr>)
    ensures !IsOfKind(stx, TermKind) ==>
      ElabExactTermSpec(env, s, stx, expectedType) == Step(s, Err(UnsupportedSyntax))
    ensures IsOfKind(stx, TermKind) && expectedType.None? ==>
      ElabExactTermSpec(env, s, stx, expectedType) == Step(s, Err(ExpectedTypeUnknown))
  {
  }

  /** `exact?%` after the search: a closing term is suggested under "Try this: " and
      returned instantiated; otherwise the matching error is logged and a
      synthetic `sorry` of the expected type is returned. No goal is admitted. */
  lemma TermModeOutcome(env: Env, s: ElabState, stx: Syntax, ty: Expr, ir: IntrosResult, sr: SearchResult)
    requires IsOfKind(stx, TermKind)
    requires env.intros(s.mctx.(decls := s.mctx.decls[s.nextId := ty]), s.nextId) == Ok(ir)
    requires env.search(TermQuery(ir.goal), ir.mctx) == Ok(sr)
    ensures var r := ElabExactTermSpec(env, s, stx, Some(ty));
      var sg := TermSuggestion(stx, env.headBeta(env.instantiate(sr.mctx, MVar(s.nextId))), TryThisHeader);
      r.state.goals == s.goals && r.state.admitted == s.admitted && r.state.mctx == sr.mctx &&
      (sr.found.None? && env.suggest(sg, sr.mctx).None? ==>
         r.result == Ok(env.instantiate(sr.mctx, MVar(s.nextId))) &&
         r.state.suggestions == s.suggestions + [sg] && r.state.log == s.log) &&
      (sr.found.None? && env.suggest(sg, sr.mctx).Some? ==>
         r.result == Err(env.suggest(sg, sr.mctx).value) &&
         r.state.suggestions == s.suggestions && r.state.log == s.log) &&
      (sr.found.Some? ==>
         r.result == Ok(Sorry(ty, true, s.nextId + 1)) && r.state.suggestions == s.suggestions &&
         r.state.log == s.log + [if |sr.found.value| == 0 then TermNothingFound else TermCouldNotClose])
  {
  }
}

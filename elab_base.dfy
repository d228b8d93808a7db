/**
  The pieces of Lean's elaborator that the library-search front end touches:
  exceptions and results, a cut-down `Expr` with `Expr.occurs`, the syntax-tree
  accessors used to take a tactic invocation apart, the metavariable context,
  saved states, and `getMainGoal`. They stand in for Lean's own definitions, which
  live outside the modelled file; only what the front end relies on is kept.
 */
module ElabBase {

  datatype Option<+T> = None | Some(value: T) {
    function GetOr(default: T): T {
      match this
      case Some(v) => v
      case None => default
    }
  }

  /** A thrown exception: the dedicated "unsupported syntax" signal, or an error message. */
  datatype Error = UnsupportedSyntax | Exception(msg: string)

  datatype Result<+T> = Ok(value: T) | Err(error: Error)

  type GoalId = nat
  type FVarId = nat

  /** Terms, with just enough structure for `Expr.occurs` to mean something. */
  datatype Expr =
    | BVar(index: nat)
    | FVar(fvarId: FVarId)
    | MVar(mvarId: GoalId)
    | Const(name: string)
    | Sort(level: nat)
    | App(fn: Expr, arg: Expr)
    | Lam(binderType: Expr, body: Expr)
    | Sorry(sorryType: Expr, synthetic: bool, tag: nat)

  /** `Expr.occurs sub e`: `sub` is a subterm of `e` (`e` included). */
  predicate Occurs(sub: Expr, e: Expr)
    decreases e
  {
    sub == e ||
    match e
    case App(f, a) => Occurs(sub, f) || Occurs(sub, a)
    case Lam(t, b) => Occurs(sub, t) || Occurs(sub, b)
    case Sorry(t, _, _) => Occurs(sub, t)
    case _ => false
  }

  /** Being a subterm is transitive. */
  lemma {:induction false} OccursTrans(a: Expr, b: Expr, c: Expr)
    requires Occurs(a, b) && Occurs(b, c)
    ensures Occurs(a, c)
    decreases c
  {
    if b != c {
      match c
      case App(f, x) =>
        if Occurs(b, f) { OccursTrans(a, b, f); } else { OccursTrans(a, b, x); }
      case Lam(t, body) =>
        if Occurs(b, t) { OccursTrans(a, b, t); } else { OccursTrans(a, b, body); }
      case Sorry(t, _, _) =>
        OccursTrans(a, b, t);
    }
  }

  /** A hierarchical name such as `Lean.Parser.Tactic.exact?`, as its components. */
  type Name = seq<string>

  /** Syntax trees: `Syntax.missing`, atoms, identifiers and nodes whose kind is a name. */
  datatype Syntax =
    | Missing
    | Atom(val: string)
    | Ident(name: string)
    | Node(kind: Name, args: seq<Syntax>)

  const NullKind: Name := ["null"]

  /** `Syntax.getKind`: a node's own kind; for the leaves, a one-component name
      (`missing`, the atom's text, `ident`). */
  function Kind(stx: Syntax): (r: Name)
    ensures !stx.Node? ==> |r| == 1
  {
    match stx
    case Missing => ["missing"]
    case Atom(v) => [v]
    case Ident(_) => ["ident"]
    case Node(k, _) => k
  }

  /** `Syntax.isOfKind`: the kinds are equal as names, component by component. */
  predicate IsOfKind(stx: Syntax, kind: Name) {
    Kind(stx) == kind
  }

  /** `Syntax.getArg`: the `i`-th child, or `missing` when there is none. */
  function GetArg(stx: Syntax, i: nat): Syntax {
    match stx
    case Node(_, args) => if i < |args| then args[i] else Missing
    case _ => Missing
  }

  /** `Syntax.getArgs`: the children of a node, no children otherwise. */
  function GetArgs(stx: Syntax): seq<Syntax> {
    match stx
    case Node(_, args) => args
    case _ => []
  }

  /** `Syntax.isNone`: an empty null node, or `missing`. */
  predicate IsNone(stx: Syntax) {
    match stx
    case Node(k, args) => k == NullKind && |args| == 0
    case Missing => true
    case _ => false
  }

  /** `Syntax.matchesNull stx n`: a null node with exactly `n` children. */
  predicate MatchesNull(stx: Syntax, n: nat) {
    stx.Node? && stx.kind == NullKind && |stx.args| == n
  }

  /** The elements of a separated list `a , b , c`: the children at even positions. */
  function SepElems(args: seq<Syntax>): (r: seq<Syntax>)
    ensures |r| == (|args| + 1) / 2
    ensures forall i :: 0 <= i < |r| ==> r[i] == args[2 * i]
    decreases |args|
  {
    if |args| <= 1 then args else [args[0]] + SepElems(args[2..])
  }

  /** The separated list with the given elements, a comma between neighbours. */
  function SepJoin(elems: seq<Syntax>): (r: seq<Syntax>)
    decreases |elems|
  {
    if |elems| <= 1 then elems else [elems[0], Atom(",")] + SepJoin(elems[1..])
  }

  /** Taking the elements of a joined list gives back the elements. */
  lemma {:induction false} SepElemsJoin(elems: seq<Syntax>)
    ensures SepElems(SepJoin(elems)) == elems
    decreases |elems|
  {
    if |elems| > 1 {
      SepElemsJoin(elems[1..]);
      var j := SepJoin(elems);
      assert j[2..] == SepJoin(elems[1..]);
      assert elems == [elems[0]] + elems[1..];
    }
  }

  /** The metavariable context: declared goals with their types, and assignments. */
  datatype MCtx = MCtx(decls: map<GoalId, Expr>, assignment: map<GoalId, Expr>)

  /** The part of a saved tactic state (`Tactic.saveState`) that the model keeps:
      the goal list and the metavariable context. */
  datatype Snapshot = Snapshot(goals: seq<GoalId>, mctx: MCtx)

  /** The search inside `getMainGoal`: the position of the first goal that is not
      yet assigned, or the "no goals" error when every goal is assigned. */
  function FirstOpenGoal(goals: seq<GoalId>, asg: map<GoalId, Expr>): (r: Result<nat>)
    ensures r.Ok? ==> r.value < |goals| && goals[r.value] !in asg
    ensures r.Ok? ==> forall j :: 0 <= j < r.value ==> goals[j] in asg
    ensures r.Err? ==> r.error == NoGoalsError && forall j :: 0 <= j < |goals| ==> goals[j] in asg
    decreases |goals|
  {
    if goals == [] then Err(NoGoalsError)
    else if goals[0] !in asg then Ok(0)
    else match FirstOpenGoal(goals[1..], asg)
      case Err(e) => Err(e)
      case Ok(i) => Ok(i + 1)
  }

  const NoGoalsError: Error := Exception("no goals to be proved")
}

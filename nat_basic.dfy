/**
  The natural-number recursion combinators and comparisons of `Init.Data.Nat.Basic`:
  the compiled recursor `Nat.recCompiled` (used by `Nat.recAux`), `Nat.casesAuxOn`,
  `Nat.repeat` and its tail-recursive twin `Nat.repeatTR`, `Nat.blt`, `Nat.min`,
  `Nat.max` with the `Max Nat` instance, and the match splitters that the
  equation compiler generated for `Nat.beq` and `Nat.repeat`.

  Lean's naturals are unbounded, and so are Dafny's `nat`. Lean's recursor has a
  dependent motive; here the motive is a plain type parameter `M`.
 */
module NatBasic {

  /** `Nat.recCompiled`: the recursor as compiled code. `succ` receives the
      predecessor and the result for the predecessor. */
  function RecCompiled<M>(zero: M, succ: (nat, M) -> M, n: nat): M
    decreases n
  {
    if n == 0 then zero else succ(n - 1, RecCompiled(zero, succ, n - 1))
  }

  /** `Nat.recAux`: only delegates to the compiled recursor. */
  function RecAux<M>(zero: M, succ: (nat, M) -> M, n: nat): M
  {
    RecCompiled(zero, succ, n)
  }

  /** The two computation rules of `Nat.recAux`. */
  lemma RecAuxEquations<M>(zero: M, succ: (nat, M) -> M, n: nat)
    ensures RecAux(zero, succ, 0) == zero
    ensures RecAux(zero, succ, n + 1) == succ(n, RecAux(zero, succ, n))
  {
  }

  /** The recursor is the only function that satisfies its two computation rules:
      any `g` with `g(0) == zero` and `g(k) == succ(k - 1, g(k - 1))` agrees with it. */
  lemma {:induction false} RecUnique<M>(zero: M, succ: (nat, M) -> M, g: nat -> M, n: nat)
    requires g(0) == zero
    requires forall k: nat :: 0 < k ==> g(k) == succ(k - 1, g(k - 1))
    ensures g(n) == RecCompiled(zero, succ, n)
  {
    if n > 0 {
      RecUnique(zero, succ, g, n - 1);
    }
  }

  /** `Nat.casesAuxOn`: case analysis without recursion. */
  function CasesAuxOn<M>(n: nat, zero: M, succ: nat -> M): M
  {
    if n == 0 then zero else succ(n - 1)
  }

  /** The two equations of `Nat.casesAuxOn`, in constructor form. */
  lemma CasesAuxOnEquations<M>(n: nat, zero: M, succ: nat -> M)
    ensures CasesAuxOn(0, zero, succ) == zero
    ensures CasesAuxOn(n + 1, zero, succ) == succ(n)
  {
  }

  /** Case analysis is the recursor whose step ignores the recursive result. */
  lemma CasesAuxOnIsNonRecursiveRec<M>(n: nat, zero: M, succ: nat -> M)
    ensures CasesAuxOn(n, zero, succ) == RecCompiled(zero, (k: nat, _: M) => succ(k), n)
  {
  }

  /** `Nat.repeat f n a`: `f` applied `n` times to `a`, outermost application last. */
  function Repeat<A>(f: A -> A, n: nat, a: A): A
    decreases n
  {
    if n == 0 then a else f(Repeat(f, n - 1, a))
  }

  /** `Nat.repeat` is the recursor instantiated with a step that ignores the counter. */
  lemma {:induction false} RepeatIsRec<A>(f: A -> A, n: nat, a: A)
    ensures Repeat(f, n, a) == RecCompiled(a, (k: nat, x: A) => f(x), n)
  {
    if n > 0 {
      RepeatIsRec(f, n - 1, a);
    }
  }

  /** The equation of `Nat.repeatTR.loop` holds of `Nat.repeat`:
      `loop f (n+1) a = loop f n (f a)`, so one more step applied first is the
      same as one more step applied last. */
  lemma {:induction false} RepeatShift<A>(f: A -> A, n: nat, a: A)
    ensures Repeat(f, n + 1, a) == Repeat(f, n, f(a))
  {
    if n > 0 {
      RepeatShift(f, n - 1, a);
    }
  }

  /** `Nat.repeatTR.loop`: the tail-recursive loop, compiled to a jump that
      replaces the counter by its predecessor and the accumulator by `f` of it.
      It runs exactly `n` rounds and yields `Nat.repeat f n a`. */
  method RepeatTRLoop<A>(f: A -> A, n: nat, a: A) returns (r: A)
    ensures r == Repeat(f, n, a)
  {
    var count: nat := n;
    var acc := a;
    while count != 0
      invariant count <= n
      invariant acc == Repeat(f, n - count, a)
      decreases count
    {
      acc := f(acc);
      count := count - 1;
    }
    r := acc;
  }

  /** `Nat.repeatTR`: delegates to the loop, so it agrees with `Nat.repeat`. */
  method RepeatTR<A>(f: A -> A, n: nat, a: A) returns (r: A)
    ensures r == Repeat(f, n, a)
  {
    r := RepeatTRLoop(f, n, a);
  }

  /** `Nat.blt`: decided as `a + 1 <= b`. */
  function Blt(a: nat, b: nat): (r: bool)
    ensures r <==> a < b
  {
    a + 1 <= b
  }

  /** `Nat.min`: the first argument when it is at most the second. */
  function Min(a: nat, b: nat): (r: nat)
    ensures r <= a && r <= b
    ensures r == a || r == b
  {
    if a <= b then a else b
  }

  /** `Nat.max`: the second argument when the first is at most it. */
  function Max(a: nat, b: nat): (r: nat)
    ensures a <= r && b <= r
    ensures r == a || r == b
  {
    if a <= b then b else a
  }

  /** The closure installed as `instMax : Max Nat`. */
  function InstMax(a: nat, b: nat): (r: nat)
    ensures r == Max(a, b)
  {
    if !(a <= b) then a else b
  }

  /** Ties are broken the same way by both: on equal arguments, the first for
      `min` and the second for `max`; otherwise each picks its own extreme. */
  lemma MinMaxSplit(a: nat, b: nat)
    ensures Min(a, b) + Max(a, b) == a + b
    ensures a <= b ==> Min(a, b) == a && Max(a, b) == b
    ensures b < a ==> Min(a, b) == b && Max(a, b) == a
  {
  }

  /** The splitter of the match in `Nat.beq`: exactly one of four branches, each
      given the predecessors of the arguments that are successors. */
  function BeqSplitter<M>(n: nat, m: nat, bothZero: M, zeroSucc: nat -> M,
                          succZero: nat -> M, bothSucc: (nat, nat) -> M): M
  {
    if n == 0 then
      (if m == 0 then bothZero else zeroSucc(m - 1))
    else
      (if m == 0 then succZero(n - 1) else bothSucc(n - 1, m - 1))
  }

  /** The four equations of the `Nat.beq` splitter, in constructor form. */
  lemma BeqSplitterCases<M>(n: nat, m: nat, bothZero: M, zeroSucc: nat -> M,
                            succZero: nat -> M, bothSucc: (nat, nat) -> M)
    ensures BeqSplitter(0, 0, bothZero, zeroSucc, succZero, bothSucc) == bothZero
    ensures BeqSplitter(0, m + 1, bothZero, zeroSucc, succZero, bothSucc) == zeroSucc(m)
    ensures BeqSplitter(n + 1, 0, bothZero, zeroSucc, succZero, bothSucc) == succZero(n)
    ensures BeqSplitter(n + 1, m + 1, bothZero, zeroSucc, succZero, bothSucc) == bothSucc(n, m)
  {
  }

  /** `Nat.beq`, the boolean equality whose match the splitter above decomposes.
      `Nat.beq` itself is defined in Lean's prelude, not in `Init.Data.Nat.Basic`;
      it is stated here so that the splitter can be related to it. */
  function Beq(n: nat, m: nat): bool
    decreases n
  {
    if n == 0 then m == 0
    else if m == 0 then false
    else Beq(n - 1, m - 1)
  }

  /** `Nat.beq` is one step of its splitter with its own four right-hand sides. */
  lemma BeqBySplitter(n: nat, m: nat)
    ensures Beq(n, m) == BeqSplitter(n, m, true, (k: nat) => false, (k: nat) => false,
                                     (i: nat, j: nat) => Beq(i, j))
  {
  }

  /** `Nat.beq` decides equality. */
  lemma {:induction false} BeqIffEq(n: nat, m: nat)
    ensures Beq(n, m) <==> n == m
    decreases n
  {
    if n > 0 && m > 0 {
      BeqIffEq(n - 1, m - 1);
    }
  }

  /** The splitter of the match in `Nat.repeat`: `(0, a)` goes to `base a`,
      `(n + 1, a)` to `step n a`. */
  function RepeatSplitter<A, M>(n: nat, a: A, base: A -> M, step: (nat, A) -> M): M
  {
    if n == 0 then base(a) else step(n - 1, a)
  }

  /** The two equations of the `Nat.repeat` splitter, in constructor form. */
  lemma RepeatSplitterCases<A, M>(n: nat, a: A, base: A -> M, step: (nat, A) -> M)
    ensures RepeatSplitter(0, a, base, step) == base(a)
    ensures RepeatSplitter(n + 1, a, base, step) == step(n, a)
  {
  }

  /** `Nat.repeat` is one step of its splitter with its own two right-hand sides. */
  lemma RepeatBySplitter<A>(f: A -> A, n: nat, a: A)
    ensures Repeat(f, n, a) == RepeatSplitter(n, a, (x: A) => x, (k: nat, x: A) => f(Repeat(f, k, x)))
  {
  }
}

/**
  How many passes the solver of `bond_math.cpp` can need. A pass either halves the bracket
  or takes a short step; between two halvings the short steps keep shrinking, so only so
  many of them fit. Nothing is assumed of the function but a sign change.
 */
module BrentProgress {
  import opened Reals
  import opened Brent

  /** `xtol` doubled `k` times. */
  function Scale(xtol: real, k: nat): real {
    if k == 0 then xtol else 2.0 * Scale(xtol, k - 1)
  }

  /** The ends and the previous best point lie in the initial bracket. */
  predicate Inside(s: State, a0: real, b0: real) {
    Between(s.ends.a, a0, b0) && Between(s.ends.b, a0, b0) && Between(s.c, a0, b0)
  }

  function Width(s: State): real {
    Abs(s.ends.b - s.ends.a)
  }

  /** The better end is the left one: the guard, which assumes it is the right one, then always bisects. */
  predicate Reversed(s: State) {
    s.ends.b < s.ends.a
  }

  lemma ReversedBisects(s: State, e: real, xtol: real)
    requires s.ends.fa != s.ends.fb && Reversed(s) && !Point(s, e, xtol).NaN?
    ensures Bisects(s, e, xtol)
  {
  }

  lemma BisectionHalves(f: real -> real, s: State, e: real, xtol: real)
    requires s.ends.fa != s.ends.fb && Bisects(s, e, xtol)
    ensures var p := Point(s, e, xtol);
      p.Finite? && 2.0 * Width(Moved(f, s, p.value, true)) == Width(s)
  {
    hide NeedsBisection, Interpolate;
  }

  /** A short step: shorter than half an earlier one, which was not below `xtol`. */
  lemma ShortStep(s: State, e: real, xtol: real)
    requires s.ends.fa != s.ends.fb && !Bisects(s, e, xtol) && Point(s, e, xtol).Finite?
    ensures var p := Point(s, e, xtol).value;
      var gap := if s.mflag then Abs(s.ends.b - s.c) else Abs(s.c - s.d);
      && (3.0 * s.ends.a + s.ends.b) * 0.25 <= p <= s.ends.b
      && 2.0 * Abs(p - s.ends.b) < gap && xtol <= gap
  {
    hide Interpolate;
  }

  /** After a short step the better end has moved no further than the step, or the ends are reversed. */
  lemma ShortMove(f: real -> real, s: State, p: real)
    requires s.ends.a < s.ends.b && (3.0 * s.ends.a + s.ends.b) * 0.25 <= p <= s.ends.b
    ensures var t := Moved(f, s, p, false);
      && Width(t) <= Width(s)
      && (Reversed(t) || Abs(t.ends.b - s.ends.b) <= Abs(p - s.ends.b))
  {
  }

  /** No more than `m` short steps fit before the next bisection. */
  ghost predicate StepsLeft(s: State, xtol: real, most: nat, i: nat, j: nat, m: nat) {
    && (s.mflag ==> m >= 2 * most)
    && (!s.mflag && !Reversed(s) ==>
        Abs(s.c - s.d) < Scale(xtol, i) && Abs(s.ends.b - s.c) < Scale(xtol, j) && i + j <= m)
  }

  /** Passes for `k` bisections, each with up to `2 * most` short steps. */
  function Budget(k: nat, most: nat): nat {
    if k == 0 then 0 else Budget(k - 1, most) + 2 * most + 1
  }

  /** A short step uses up one of the steps left. */
  lemma ShortStepCounts(f: real -> real, s: State, e: real, xtol: real, most: nat, i: nat, j: nat, m: nat, a0: real, b0: real)
    returns (i': nat, j': nat)
    requires s.ends.fa != s.ends.fb && !Bisects(s, e, xtol) && Point(s, e, xtol).Finite?
    requires xtol > 0.0 && Width(s) > xtol && Inside(s, a0, b0) && Abs(b0 - a0) < Scale(xtol, most)
    requires StepsLeft(s, xtol, most, i, j, m)
    ensures var t := Moved(f, s, Point(s, e, xtol).value, false);
      m > 0 && StepsLeft(t, xtol, most, i', j', m - 1) && Width(t) <= Width(s)
  {
    hide Point, Bisects, Narrow;
    ShortStep(s, e, xtol);
    var p := Point(s, e, xtol).value;
    assert s.ends.a < s.ends.b;
    ShortMove(f, s, p);
    if s.mflag {
      assert Abs(s.ends.b - s.c) < Scale(xtol, most);
      i', j' := most, most - 1;
    } else {
      i', j' := j, i - 1;
    }
  }

  /** With passes for every bisection and short step that can come, the search does not run out. */
  lemma {:induction false} SearchProgress(f: real -> real, s: State, e: real, xtol: real, ytol: real, n: nat,
                                          most: nat, k: nat, i: nat, j: nat, m: nat, a0: real, b0: real)
    requires OnBracket(f, s) && xtol > 0.0
    requires Inside(s, a0, b0) && Abs(b0 - a0) < Scale(xtol, most)
    requires Width(s) < Scale(xtol, k) && StepsLeft(s, xtol, most, i, j, m)
    requires n >= Budget(k, most) + m
    ensures !Search(f, s, e, xtol, ytol, n).OutOfPasses?
    decreases n
  {
    hide Point, Bisects, Narrow, StepsLeft, Abs;
    if !Converged(s.ends, xtol, ytol) && n > 0 {
      PassKeepsBracket(f, s, e, xtol);
      var p := Point(s, e, xtol);
      if !p.NaN? {
        var t := Moved(f, s, p.value, Bisects(s, e, xtol));
        StaysInside(f, s, p.value, Bisects(s, e, xtol), a0, b0);
        if Bisects(s, e, xtol) {
          BisectionHalves(f, s, e, xtol);
          FreshSteps(t, xtol, most);
          SearchProgress(f, t, e, xtol, ytol, n - 1, most, k - 1, 0, 0, 2 * most, a0, b0);
        } else {
          var i', j' := ShortStepCounts(f, s, e, xtol, most, i, j, m, a0, b0);
          SearchProgress(f, t, e, xtol, ytol, n - 1, most, k, i', j', m - 1, a0, b0);
        }
      }
    }
  }

  lemma FreshSteps(t: State, xtol: real, most: nat)
    requires t.mflag
    ensures StepsLeft(t, xtol, most, 0, 0, 2 * most)
  {
  }

  lemma StaysInside(f: real -> real, s: State, p: real, bisected: bool, a0: real, b0: real)
    requires Inside(s, a0, b0) && Between(p, s.ends.a, s.ends.b)
    ensures Inside(Moved(f, s, p, bisected), a0, b0)
  {
  }

  lemma {:induction false} BudgetSize(k: nat, most: nat)
    ensures Budget(k, most) == k * (2 * most + 1)
  {
    if k > 0 {
      BudgetSize(k - 1, most);
      assert k * (2 * most + 1) == (k - 1) * (2 * most + 1) + (2 * most + 1);
    }
  }

  // ---------- Whether a candidate can be undefined ----------

  ghost predicate Injective(f: real -> real, a0: real, b0: real) {
    forall x, y :: Between(x, a0, b0) && Between(y, a0, b0) && f(x) == f(y) ==> x == y
  }

  lemma MonotoneIsInjective(f: real -> real, a0: real, b0: real)
    requires StrictlyMonotone(f, if a0 < b0 then a0 else b0, if a0 < b0 then b0 else a0)
    ensures Injective(f, a0, b0)
  {
    forall x, y | Between(x, a0, b0) && Between(y, a0, b0) && f(x) == f(y)
      ensures x == y
    {
      assert x < y || y < x || x == y;
    }
  }

  /** 0 is the worse end and the remembered point, and the guard has no reason of its own to bisect. */
  predicate StallsAtZero(s: State, xtol: real) {
    && s.ends.a == 0.0 == s.c && Abs(s.ends.fb) < Abs(s.ends.fa)
    && (s.mflag || Abs(s.d) >= xtol)
  }

  /** Of an injective function two residuals coincide only at one point, so only 0 can stall a pass. */
  lemma StallsAtZeroIff(f: real -> real, s: State, e: real, xtol: real, ytol: real, a0: real, b0: real)
    requires OnBracket(f, s) && !Converged(s.ends, xtol, ytol) && Abs(e) == Abs(b0 - a0)
    requires Inside(s, a0, b0) && s.fc == f(s.c) && Injective(f, a0, b0)
    ensures Stalls(s, e, xtol) <==> StallsAtZero(s, xtol)
  {
    SignRule(s.ends.a, s.c);
    assert Width(s) <= Abs(e);
    if s.ends.fa == s.fc {
      assert s.ends.a == s.c;
    }
  }

  ghost predicate SomePassAtZero(f: real -> real, s: State, e: real, xtol: real, ytol: real, n: nat)
    requires OnBracket(f, s)
  {
    exists t :: Passes(f, s, e, xtol, ytol, n, t) && StallsAtZero(t, xtol)
  }

  /** Every pass stays inside the initial bracket and remembers a residual of the function. */
  lemma {:induction false} PassesInside(f: real -> real, s: State, e: real, xtol: real, ytol: real, n: nat, t: State, a0: real, b0: real)
    requires OnBracket(f, s) && s.fc == f(s.c) && Inside(s, a0, b0)
    requires Passes(f, s, e, xtol, ytol, n, t)
    ensures OnBracket(f, t) && t.fc == f(t.c) && Inside(t, a0, b0) && !Converged(t.ends, xtol, ytol)
    decreases n
  {
    hide Point, Bisects, Abs;
    if t != s {
      PassKeepsBracket(f, s, e, xtol);
      var p := Point(s, e, xtol);
      StaysInside(f, s, p.value, Bisects(s, e, xtol), a0, b0);
      PassesInside(f, Moved(f, s, p.value, Bisects(s, e, xtol)), e, xtol, ytol, n - 1, t, a0, b0);
    }
  }

  /** For an injective function: a search ends undefined exactly when some pass stalls at 0. */
  lemma UndefinedAtZeroIff(f: real -> real, a0: real, b0: real, xtol: real, ytol: real, n: nat)
    requires f(a0) * f(b0) < 0.0 && Injective(f, a0, b0)
    ensures var s := Initial(f, a0, b0); var e := s.ends.b - s.ends.a;
      && OnBracket(f, s)
      && (Search(f, s, e, xtol, ytol, n).Undefined? <==> SomePassAtZero(f, s, e, xtol, ytol, n))
      && (SomePassAtZero(f, s, e, xtol, ytol, n) ==> Between(0.0, a0, b0))
  {
    InitialOnBracket(f, a0, b0);
    var s := Initial(f, a0, b0);
    var e := s.ends.b - s.ends.a;
    assert s.fc == f(s.c) && Inside(s, a0, b0) && Abs(e) == Abs(b0 - a0);
    UndefinedIff(f, s, e, xtol, ytol, n);
    hide Search, Passes, Injective, Initial, Converged;
    forall t | Passes(f, s, e, xtol, ytol, n, t)
      ensures Stalls(t, e, xtol) <==> StallsAtZero(t, xtol)
      ensures StallsAtZero(t, xtol) ==> Between(0.0, a0, b0)
    {
      PassesInside(f, s, e, xtol, ytol, n, t, a0, b0);
      StallsAtZeroIff(f, t, e, xtol, ytol, a0, b0);
    }
    hide Stalls, StallsAtZero;
  }

  /**
    A bracket narrower than `xtol` doubled `most` times is solved within `most * (2 * most + 3)`
    passes, exactly unless one of them stalls; a strictly monotone function stalls only at 0.
   */
  lemma BrentConverges(f: real -> real, a0: real, b0: real, xtol: real, ytol: real, maxIter: nat, most: nat)
    requires f(a0) * f(b0) < 0.0 && xtol > 0.0
    requires Abs(b0 - a0) < Scale(xtol, most) && maxIter >= most * (2 * most + 3)
    ensures var s := Initial(f, a0, b0); var e := s.ends.b - s.ends.a;
      OnBracket(f, s) &&
      var r := Search(f, s, e, xtol, ytol, maxIter);
      && (r.Found? ==> Answers(f, a0, b0, r.x, xtol, ytol))
      && (r.Found? <==> !SomePassStalls(f, s, e, xtol, ytol, maxIter))
      && (StrictlyMonotone(f, if a0 < b0 then a0 else b0, if a0 < b0 then b0 else a0) ==>
          (r.Found? <==> !SomePassAtZero(f, s, e, xtol, ytol, maxIter)) && (!Between(0.0, a0, b0) ==> r.Found?))
  {
    hide Search, Scale, StrictlyMonotone, Answers, StepsLeft, SomePassStalls, SomePassAtZero;
    InitialOnBracket(f, a0, b0);
    var s := Initial(f, a0, b0);
    var e := s.ends.b - s.ends.a;
    assert Width(s) == Abs(b0 - a0);
    BudgetSize(most, most);
    assert most * (2 * most + 3) == most * (2 * most + 1) + 2 * most;
    FreshSteps(s, xtol, most);
    SearchProgress(f, s, e, xtol, ytol, maxIter, most, most, 0, 0, 2 * most, a0, b0);
    SearchSound(f, s, e, xtol, ytol, maxIter, a0, b0);
    UndefinedIff(f, s, e, xtol, ytol, maxIter);
    if StrictlyMonotone(f, if a0 < b0 then a0 else b0, if a0 < b0 then b0 else a0) {
      MonotoneIsInjective(f, a0, b0);
      UndefinedAtZeroIff(f, a0, b0, xtol, ytol, maxIter);
    }
  }
}

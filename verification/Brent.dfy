/**
  The bracketed root solver `brent_solve` of `bond_math.cpp`.

  Arithmetic is exact, except that the interpolated candidate may be infinite or
  not-a-number: the inverse quadratic divides by zero whenever `fa == fc`, as it does on the
  first pass, where `c == a`. Comparisons with such a candidate follow IEEE 754.
 */
module Brent {
  import opened Reals

  // ---------- The interpolated candidate ----------

  datatype Candidate = Finite(value: real) | PosInf | NegInf | NaN

  function Sum(x: Candidate, y: Candidate): Candidate {
    match (x, y)
    case (Finite(u), Finite(v)) => Finite(u + v)
    case (NaN, _) => NaN
    case (_, NaN) => NaN
    case (PosInf, NegInf) => NaN
    case (NegInf, PosInf) => NaN
    case (Finite(_), _) => y
    case (_, _) => x
  }

  /** `num` divided by a zero whose sign is that of `sign`. */
  function OverZero(num: real, sign: real): Candidate {
    if num == 0.0 then NaN
    else if (num > 0.0) == (sign > 0.0) then PosInf
    else NegInf
  }

  function InverseQuadratic(a: real, b: real, c: real, fa: real, fb: real, fc: real): Candidate
    requires fa != fb && fb != fc
  {
    SignRule(fb - fa, fb - fc);
    SignRule(fa - fb, fa - fc);
    SignRule(fc - fa, fc - fb);
    var second := b * fa * fc / ((fb - fa) * (fb - fc));
    if fa == fc then
      Sum(Sum(OverZero(a * fb * fc, fa - fb), Finite(second)), OverZero(c * fa * fb, fc - fb))
    else
      Finite(a * fb * fc / ((fa - fb) * (fa - fc)) + second + c * fa * fb / ((fc - fa) * (fc - fb)))
  }

  function Interpolate(a: real, b: real, c: real, fa: real, fb: real, fc: real, e: real, xtol: real): Candidate
    requires fa != fb
  {
    if Abs(e) >= xtol && Abs(fc) > Abs(fb) then InverseQuadratic(a, b, c, fa, fb, fc)
    else Finite(b - fb * (b - a) / (fb - fa))
  }

  /** On a straight line the secant candidate is the root. */
  lemma SecantExact(slope: real, root: real, a: real, b: real, e: real, c: real, fc: real, xtol: real)
    requires slope != 0.0 && a != b
    requires var fb := slope * (b - root); !(Abs(e) >= xtol && Abs(fc) > Abs(fb))
    ensures var fa, fb := slope * (a - root), slope * (b - root);
      fa != fb && Interpolate(a, b, c, fa, fb, fc, e, xtol) == Finite(root)
  {
    var fa, fb := slope * (a - root), slope * (b - root);
    assert fb - fa == slope * (b - a);
    SignRule(slope, b - a);
    var q := fb * (b - a) / (fb - fa);
    assert q * (fb - fa) == (b - root) * (fb - fa) by {
      assert fb * (b - a) == (b - root) * (slope * (b - a));
    }
    hide Abs;
    SameQuotient(q, b - root, fb - fa);
  }

  lemma SameQuotient(x: real, y: real, k: real)
    requires k != 0.0 && x * k == y * k
    ensures x == y
  {
    assert (x - y) * k == 0.0;
    SignRule(x - y, k);
  }

  /** Where the point is a quadratic function of the residual, inverse quadratic interpolation is exact. */
  lemma InverseQuadraticExact(root: real, u: real, v: real, a: real, b: real, c: real, fa: real, fb: real, fc: real)
    requires fa != fb && fb != fc && fa != fc
    requires a == root + u * fa + v * (fa * fa) && b == root + u * fb + v * (fb * fb) && c == root + u * fc + v * (fc * fc)
    ensures InverseQuadratic(a, b, c, fa, fb, fc) == Finite(root)
  {
    Lagrange(root, u, v, a, b, c, fa, fb, fc);
    hide InverseQuadratic, OnOneDenominator;
    InverseQuadraticFrom(a, b, c, fa, fb, fc, root);
  }

  lemma InverseQuadraticFrom(a: real, b: real, c: real, p: real, q: real, r: real, root: real)
    requires p != q && q != r && p != r
    requires OnOneDenominator(a * q * r, b * p * r, c * p * q, p - q, q - r, p - r, root)
    ensures InverseQuadratic(a, b, c, p, q, r) == Finite(root)
  {
    hide OnOneDenominator, ThreeQuotients;
    QuotientSum(a * q * r, b * p * r, c * p * q, p - q, q - r, p - r, root);
    hide InverseQuadratic;
    InverseQuadraticTerms(a, b, c, p, q, r);
  }

  predicate OnOneDenominator(n1: real, n2: real, n3: real, x: real, y: real, z: real, root: real) {
    n1 * y + n2 * -z + n3 * x == root * (x * y * z)
  }

  function ThreeQuotients(n1: real, n2: real, n3: real, x: real, y: real, z: real): real
    requires x != 0.0 && y != 0.0 && z != 0.0
  {
    SignRule(x, z);
    SignRule(-x, y);
    SignRule(-z, -y);
    n1 / (x * z) + n2 / (-x * y) + n3 / (-z * -y)
  }

  /** Three fractions over the pairwise products, on one denominator. */
  lemma QuotientSum(n1: real, n2: real, n3: real, x: real, y: real, z: real, root: real)
    requires x != 0.0 && y != 0.0 && z != 0.0 && OnOneDenominator(n1, n2, n3, x, y, z, root)
    ensures ThreeQuotients(n1, n2, n3, x, y, z) == root
  {
    SignRule(x, z);
    SignRule(-x, y);
    SignRule(-z, -y);
    SignRule(x, y);
    SignRule(x * y, z);
    var d := x * y * z;
    assert d == (x * z) * y && d == (-x * y) * -z && d == (-z * -y) * x;
    var t1, t2, t3 := n1 / (x * z), n2 / (-x * y), n3 / (-z * -y);
    LagrangeTerm(n1, x * z, y, d);
    LagrangeTerm(n2, -x * y, -z, d);
    LagrangeTerm(n3, -z * -y, x, d);
    LagrangeSplit(t1, t2, t3, d);
    SameQuotient(t1 + t2 + t3, root, d);
  }

  lemma InverseQuadraticTerms(a: real, b: real, c: real, fa: real, fb: real, fc: real)
    requires fa != fb && fb != fc && fa != fc
    ensures InverseQuadratic(a, b, c, fa, fb, fc)
         == Finite(ThreeQuotients(a * fb * fc, b * fa * fc, c * fa * fb, fa - fb, fb - fc, fa - fc))
  {
    SignRule(fa - fb, fa - fc);
    SignRule(fb - fa, fb - fc);
    SignRule(fc - fa, fc - fb);
    assert -(fa - fb) == fb - fa && -(fa - fc) == fc - fa && -(fb - fc) == fc - fb;
  }

  lemma LagrangeTerm(num: real, den: real, rest: real, d: real)
    requires den != 0.0 && d == den * rest
    ensures num / den * d == num * rest
  {
    assert num / den * den == num;
  }

  /** Lagrange's formula at residual zero recovers the constant term of a quadratic. */
  lemma Lagrange(root: real, u: real, v: real, a: real, b: real, c: real, p: real, q: real, r: real)
    requires a == root + u * p + v * (p * p) && b == root + u * q + v * (q * q) && c == root + u * r + v * (r * r)
    ensures OnOneDenominator(a * q * r, b * p * r, c * p * q, p - q, q - r, p - r, root)
  {
    LagrangeConstant(root, p, q, r);
    LagrangeLinear(u, p, q, r);
    LagrangeSquare(v, p, q, r);
    LagrangeSplit(root, u * p, v * (p * p), q * r * (q - r));
    LagrangeSplit(root, u * q, v * (q * q), p * r * -(p - r));
    LagrangeSplit(root, u * r, v * (r * r), p * q * (p - q));
    Regroup(a, q, r, q - r);
    Regroup(b, p, r, -(p - r));
    Regroup(c, p, q, p - q);
  }

  lemma Regroup(x: real, y: real, z: real, w: real)
    ensures x * y * z * w == x * (y * z * w)
  {
  }

  lemma LagrangeSplit(x: real, y: real, z: real, w: real)
    ensures (x + y + z) * w == x * w + y * w + z * w
  {
  }

  lemma LagrangeConstant(k: real, p: real, q: real, r: real)
    ensures k * (q * r * (q - r)) + k * (p * r * -(p - r)) + k * (p * q * (p - q)) == k * ((p - q) * (q - r) * (p - r))
  {
    assert q * r * (q - r) + p * r * -(p - r) + p * q * (p - q) == (p - q) * (q - r) * (p - r);
  }

  lemma LagrangeLinear(k: real, p: real, q: real, r: real)
    ensures k * p * (q * r * (q - r)) + k * q * (p * r * -(p - r)) + k * r * (p * q * (p - q)) == 0.0
  {
    var m := k * (p * q * r);
    assert k * p * (q * r * (q - r)) == m * (q - r);
    assert k * q * (p * r * -(p - r)) == m * -(p - r);
    assert k * r * (p * q * (p - q)) == m * (p - q);
    assert m * (q - r) + m * -(p - r) + m * (p - q) == m * ((q - r) - (p - r) + (p - q));
  }

  lemma LagrangeSquare(k: real, p: real, q: real, r: real)
    ensures k * (p * p) * (q * r * (q - r)) + k * (q * q) * (p * r * -(p - r)) + k * (r * r) * (p * q * (p - q)) == 0.0
  {
    var m := k * (p * q * r);
    assert k * (p * p) * (q * r * (q - r)) == m * (p * (q - r));
    assert k * (q * q) * (p * r * -(p - r)) == m * (q * -(p - r));
    assert k * (r * r) * (p * q * (p - q)) == m * (r * (p - q));
    assert p * (q - r) + q * -(p - r) + r * (p - q) == 0.0;
    LagrangeSplit(p * (q - r), q * -(p - r), r * (p - q), m);
  }

  predicate Below(s: Candidate, x: real) {
    s.NegInf? || (s.Finite? && s.value < x)
  }

  predicate Above(s: Candidate, x: real) {
    s.PosInf? || (s.Finite? && s.value > x)
  }

  predicate AtLeastApart(s: Candidate, x: real, distance: real) {
    s.PosInf? || s.NegInf? || (s.Finite? && Abs(s.value - x) >= distance)
  }

  predicate NeedsBisection(s: Candidate, a: real, b: real, c: real, d: real, mflag: bool, xtol: real) {
    || (Below(s, (3.0 * a + b) * 0.25) || Above(s, b))
    || (mflag && AtLeastApart(s, b, 0.5 * Abs(b - c)))
    || (!mflag && AtLeastApart(s, b, 0.5 * Abs(c - d)))
    || (mflag && Abs(b - c) < xtol)
    || (!mflag && Abs(c - d) < xtol)
  }

  function Guarded(s: Candidate, a: real, b: real, c: real, d: real, mflag: bool, xtol: real): Candidate {
    if NeedsBisection(s, a, b, c, d, mflag, xtol) then Finite((a + b) * 0.5) else s
  }

  predicate Between(x: real, a: real, b: real) {
    a <= x <= b || b <= x <= a
  }

  /** Whatever was interpolated, the guard leaves a point of the bracket, or not-a-number. */
  lemma GuardAbsorbs(s: Candidate, a: real, b: real, c: real, d: real, mflag: bool, xtol: real)
    ensures var g := Guarded(s, a, b, c, d, mflag, xtol);
      (g.NaN? && s.NaN?) || (g.Finite? && Between(g.value, a, b))
  {
  }

  // ---------- The bracket ----------

  /** What holds of the two end points on every pass; `b` is the better one. */
  ghost predicate Bracket(f: real -> real, a: real, b: real, fa: real, fb: real) {
    && fa == f(a) && fb == f(b)
    && (fa * fb < 0.0 || fb == 0.0)
    && Abs(fb) <= Abs(fa)
  }

  datatype Ends = Ends(a: real, fa: real, b: real, fb: real)

  function Ordered(e: Ends): Ends {
    if Abs(e.fa) < Abs(e.fb) then Ends(e.b, e.fb, e.a, e.fa) else e
  }

  /** The two ends, the better one last; a tie is left as it is. */
  lemma OrderedEnds(e: Ends)
    ensures var o := Ordered(e);
      && (o == e || o == Ends(e.b, e.fb, e.a, e.fa)) && Abs(o.fb) <= Abs(o.fa)
      && (Abs(e.fb) <= Abs(e.fa) ==> o == e)
  {
  }

  /** The update after evaluating `s`: keep the side with the sign change, better end last. */
  function Narrow(e: Ends, s: real, fs: real): Ends {
    Ordered(if e.fa * fs < 0.0 then Ends(e.a, e.fa, s, fs) else Ends(s, fs, e.b, e.fb))
  }

  /** Any point of the bracket narrows it to a nested bracket with the same guarantees. */
  lemma NarrowKeepsBracket(f: real -> real, e: Ends, s: real)
    requires Bracket(f, e.a, e.b, e.fa, e.fb) && e.fb != 0.0 && Between(s, e.a, e.b)
    ensures var n := Narrow(e, s, f(s));
      && Bracket(f, n.a, n.b, n.fa, n.fb)
      && Between(n.a, e.a, e.b) && Between(n.b, e.a, e.b)
      && (n.a == s || n.b == s)
  {
    var fs := f(s);
    SignRule(e.fa, fs);
    SignRule(e.fa, e.fb);
    if e.fa * fs >= 0.0 {
      SignRule(fs, e.fb);
      SignRule(e.fb, fs);
    } else {
      SignRule(fs, e.fa);
    }
  }

  predicate Converged(e: Ends, xtol: real, ytol: real) {
    e.fb == 0.0 || Abs(e.b - e.a) <= xtol || Abs(e.fb) <= ytol
  }

  // ---------- The solver ----------

  /** A sign change no further than `xtol` from `x`, inside the initial bracket. */
  ghost predicate SignChangeNear(f: real -> real, a0: real, b0: real, x: real, xtol: real) {
    exists z :: Between(z, a0, b0) && Abs(x - z) <= xtol && f(x) * f(z) < 0.0
  }

  /** Everything a pass reads and updates. */
  datatype State = State(ends: Ends, c: real, fc: real, d: real, mflag: bool)

  datatype Ending = Found(x: real) | Undefined | OutOfPasses(x: real)

  ghost predicate OnBracket(f: real -> real, s: State) {
    Bracket(f, s.ends.a, s.ends.b, s.ends.fa, s.ends.fb)
  }

  function Initial(f: real -> real, a0: real, b0: real): State {
    var e := Ordered(Ends(a0, f(a0), b0, f(b0)));
    State(e, e.a, e.fa, e.b - e.a, true)
  }

  lemma InitialOnBracket(f: real -> real, a0: real, b0: real)
    requires f(a0) * f(b0) < 0.0
    ensures var s := Initial(f, a0, b0);
      OnBracket(f, s) && s.ends.fa * s.ends.fb < 0.0
      && Between(s.ends.a, a0, b0) && Between(s.ends.b, a0, b0)
  {
  }

  function Proposal(s: State, e: real, xtol: real): Candidate
    requires s.ends.fa != s.ends.fb
  {
    Interpolate(s.ends.a, s.ends.b, s.c, s.ends.fa, s.ends.fb, s.fc, e, xtol)
  }

  predicate Bisects(s: State, e: real, xtol: real)
    requires s.ends.fa != s.ends.fb
  {
    NeedsBisection(Proposal(s, e, xtol), s.ends.a, s.ends.b, s.c, s.d, s.mflag, xtol)
  }

  function Point(s: State, e: real, xtol: real): Candidate
    requires s.ends.fa != s.ends.fb
  {
    Guarded(Proposal(s, e, xtol), s.ends.a, s.ends.b, s.c, s.d, s.mflag, xtol)
  }

  /** The state after a pass that evaluated `p`. */
  function Moved(f: real -> real, s: State, p: real, bisected: bool): State {
    State(Narrow(s.ends, p, f(p)), s.ends.b, s.ends.fb, s.c, bisected)
  }

  /** An unconverged bracket has ends of opposite sign, and its pass ends on a nested bracket. */
  lemma PassKeepsBracket(f: real -> real, s: State, e: real, xtol: real)
    requires OnBracket(f, s) && s.ends.fb != 0.0
    ensures s.ends.fa != s.ends.fb
    ensures var p := Point(s, e, xtol);
      p.NaN? || (p.Finite? && Between(p.value, s.ends.a, s.ends.b)
                 && var t := Moved(f, s, p.value, Bisects(s, e, xtol));
                    OnBracket(f, t)
                    && Between(t.ends.a, s.ends.a, s.ends.b) && Between(t.ends.b, s.ends.a, s.ends.b))
  {
    SignRule(s.ends.fa, s.ends.fb);
    var p := Point(s, e, xtol);
    GuardAbsorbs(Proposal(s, e, xtol), s.ends.a, s.ends.b, s.c, s.d, s.mflag, xtol);
    if p.Finite? {
      NarrowKeepsBracket(f, s.ends, p.value);
    }
    hide Interpolate, NeedsBisection, Ordered, Narrow;
  }

  /**
    A finite candidate is kept exactly when it lies in the quarter of the bracket next to the
    better end, right of the other, and moves less than half the earlier step, which was not
    below `xtol`; otherwise the midpoint is taken.
   */
  lemma KeptIff(s: State, x: real, xtol: real)
    ensures var g := Guarded(Finite(x), s.ends.a, s.ends.b, s.c, s.d, s.mflag, xtol);
      if 3.0 * s.ends.a + s.ends.b <= 4.0 * x <= 4.0 * s.ends.b && 2.0 * Abs(x - s.ends.b) < Gap(s) && xtol <= Gap(s)
      then g == Finite(x) else g == Finite((s.ends.a + s.ends.b) / 2.0)
  {
  }

  /** How the search ends from a given state with `n` passes left. */
  function Search(f: real -> real, s: State, e: real, xtol: real, ytol: real, n: nat): Ending
    requires OnBracket(f, s)
    decreases n
  {
    if n == 0 then
      if Abs(s.ends.b - s.ends.a) <= xtol || Abs(s.ends.fb) <= ytol then Found(s.ends.b) else OutOfPasses(s.ends.b)
    else if Converged(s.ends, xtol, ytol) then Found(s.ends.b)
    else
      PassKeepsBracket(f, s, e, xtol);
      var p := Point(s, e, xtol);
      if p.NaN? then Undefined
      else Search(f, Moved(f, s, p.value, Bisects(s, e, xtol)), e, xtol, ytol, n - 1)
  }

  /** The search stops at once, with the better end, on a narrow bracket, a small residual, or a root. */
  lemma StopsAtOnce(f: real -> real, s: State, e: real, xtol: real, ytol: real, n: nat)
    requires OnBracket(f, s)
    requires Abs(s.ends.b - s.ends.a) <= xtol || Abs(s.ends.fb) <= ytol || (s.ends.fb == 0.0 && n > 0)
    ensures Search(f, s, e, xtol, ytol, n) == Found(s.ends.b)
  {
  }

  /** What an answer is worth: a root, a small residual, or a sign change within `xtol`. */
  ghost predicate Answers(f: real -> real, a0: real, b0: real, x: real, xtol: real, ytol: real) {
    && Between(x, a0, b0)
    && (f(x) == 0.0 || Abs(f(x)) <= ytol || SignChangeNear(f, a0, b0, x, xtol))
  }

  /** Whatever the candidates were, a search inside a bracket finds only answers of that bracket. */
  lemma {:induction false} SearchSound(f: real -> real, s: State, e: real, xtol: real, ytol: real, n: nat, a0: real, b0: real)
    requires OnBracket(f, s) && Between(s.ends.a, a0, b0) && Between(s.ends.b, a0, b0)
    ensures var r := Search(f, s, e, xtol, ytol, n);
      && (r.Found? ==> Answers(f, a0, b0, r.x, xtol, ytol))
      && (r.OutOfPasses? ==> Between(r.x, a0, b0))
    decreases n
  {
    hide Interpolate, NeedsBisection, Point, Bisects, Moved, SignChangeNear, Abs;
    if n == 0 || Converged(s.ends, xtol, ytol) {
      if Converged(s.ends, xtol, ytol) {
        NearbySignChange(f, a0, b0, s.ends, xtol, ytol);
      }
    } else {
      PassKeepsBracket(f, s, e, xtol);
      var p := Point(s, e, xtol);
      if !p.NaN? {
        var t := Moved(f, s, p.value, Bisects(s, e, xtol));
        NestedTwice(a0, b0, s.ends, t.ends);
        SearchSound(f, t, e, xtol, ytol, n - 1, a0, b0);
      }
    }
  }

  // ---------- When a pass stalls ----------

  /** The earlier step that the guard measures a candidate against. */
  function Gap(s: State): real {
    if s.mflag then Abs(s.ends.b - s.c) else Abs(s.c - s.d)
  }

  /**
    The inverse quadratic is chosen where two residuals coincide, at points on either side
    of 0 or at 0 itself, and the guard does not bisect on its own account.
   */
  predicate Stalls(s: State, e: real, xtol: real) {
    && Abs(e) >= xtol && Abs(s.fc) > Abs(s.ends.fb)
    && s.ends.fa == s.fc && s.ends.a * s.c <= 0.0
    && Gap(s) >= xtol
  }

  /** On every pass of every search, the guarded candidate is not-a-number exactly then. */
  lemma StallsExactly(f: real -> real, s: State, e: real, xtol: real)
    requires OnBracket(f, s) && s.ends.fb != 0.0
    ensures s.ends.fa != s.ends.fb
    ensures Point(s, e, xtol).NaN? <==> Stalls(s, e, xtol)
  {
    SignRule(s.ends.fa, s.ends.fb);
    ProposalUndefinedIff(s, e, xtol);
    GuardAbsorbs(Proposal(s, e, xtol), s.ends.a, s.ends.b, s.c, s.d, s.mflag, xtol);
    GuardPassesNaN(s, xtol);
    hide Guarded, Proposal, Gap, Abs;
  }

  /** The guard lets not-a-number pass unless the earlier step was short. */
  lemma GuardPassesNaN(s: State, xtol: real)
    ensures Guarded(NaN, s.ends.a, s.ends.b, s.c, s.d, s.mflag, xtol).NaN? <==> Gap(s) >= xtol
  {
  }

  lemma ProposalUndefinedIff(s: State, e: real, xtol: real)
    requires s.ends.fa != s.ends.fb && s.ends.fb != 0.0
    ensures Proposal(s, e, xtol).NaN?
            <==> Abs(e) >= xtol && Abs(s.fc) > Abs(s.ends.fb) && s.ends.fa == s.fc && s.ends.a * s.c <= 0.0
  {
    if Abs(e) >= xtol && Abs(s.fc) > Abs(s.ends.fb) {
      if s.ends.fa == s.fc {
        SingularTerms(s.ends.a, s.ends.b, s.c, s.fc, s.ends.fb);
      } else {
        RegularTerms(s.ends.a, s.ends.b, s.c, s.ends.fa, s.ends.fb, s.fc);
      }
      hide InverseQuadratic;
    }
  }

  lemma RegularTerms(a: real, b: real, c: real, fa: real, fb: real, fc: real)
    requires fa != fb && fb != fc && fa != fc
    ensures InverseQuadratic(a, b, c, fa, fb, fc).Finite?
  {
  }

  /** Two infinite terms of equal sign add up; one that is 0/0, or two of opposite sign, do not. */
  lemma SingularTerms(a: real, b: real, c: real, fc: real, fb: real)
    requires fb != 0.0 && fc != 0.0 && fb != fc
    ensures InverseQuadratic(a, b, c, fc, fb, fc).NaN? <==> a * c <= 0.0
  {
    var k := fb * fc;
    SignRule(fb, fc);
    SignRule(a, k);
    SignRule(c, k);
    SignRule(a, c);
    assert a * fb * fc == a * k;
    assert c * fc * fb == c * k;
  }

  /** `t` is the state of one of the first `n` passes, a pass that has not converged. */
  ghost predicate Passes(f: real -> real, s: State, e: real, xtol: real, ytol: real, n: nat, t: State)
    requires OnBracket(f, s)
    decreases n
  {
    n > 0 && !Converged(s.ends, xtol, ytol) &&
    (PassKeepsBracket(f, s, e, xtol);
     var p := Point(s, e, xtol);
     t == s || (!p.NaN? && Passes(f, Moved(f, s, p.value, Bisects(s, e, xtol)), e, xtol, ytol, n - 1, t)))
  }

  ghost predicate SomePassStalls(f: real -> real, s: State, e: real, xtol: real, ytol: real, n: nat)
    requires OnBracket(f, s)
  {
    exists t :: Passes(f, s, e, xtol, ytol, n, t) && Stalls(t, e, xtol)
  }

  /** A search is left without an answer to give exactly when one of its passes stalls. */
  lemma {:induction false} UndefinedIff(f: real -> real, s: State, e: real, xtol: real, ytol: real, n: nat)
    requires OnBracket(f, s)
    ensures Search(f, s, e, xtol, ytol, n).Undefined? <==> SomePassStalls(f, s, e, xtol, ytol, n)
    decreases n
  {
    hide Point, Bisects, Moved, Stalls, Abs;
    if n > 0 && !Converged(s.ends, xtol, ytol) {
      PassKeepsBracket(f, s, e, xtol);
      StallsExactly(f, s, e, xtol);
      var p := Point(s, e, xtol);
      assert Passes(f, s, e, xtol, ytol, n, s);
      if !p.NaN? {
        var next := Moved(f, s, p.value, Bisects(s, e, xtol));
        UndefinedIff(f, next, e, xtol, ytol, n - 1);
        assert forall t :: Passes(f, next, e, xtol, ytol, n - 1, t) ==> Passes(f, s, e, xtol, ytol, n, t);
      }
    }
  }

  /** The first pass stalls exactly when the end with the larger residual is 0. */
  lemma FirstPassStallsIff(f: real -> real, a0: real, b0: real, xtol: real, ytol: real, n: nat)
    requires f(a0) * f(b0) < 0.0 && xtol >= 0.0 && n > 0
    requires !Converged(Initial(f, a0, b0).ends, xtol, ytol)
    ensures var s := Initial(f, a0, b0); var e := s.ends.b - s.ends.a;
      && OnBracket(f, s)
      && (Stalls(s, e, xtol) <==> s.ends.a == 0.0 && Abs(s.ends.fa) != Abs(s.ends.fb))
      && (Stalls(s, e, xtol) ==> Search(f, s, e, xtol, ytol, n) == Undefined)
  {
    InitialOnBracket(f, a0, b0);
    var s := Initial(f, a0, b0);
    SignRule(s.ends.a, s.ends.a);
    StallsExactly(f, s, s.ends.b - s.ends.a, xtol);
    hide Point, Ordered;
  }

  const TINY: real := 0.000000000001

  /** A solvable problem, 2x - 2 on [0, 1.5], on which the first pass stalls. */
  lemma StallExample(n: nat)
    requires n > 0
    ensures var f := (x: real) => 2.0 * x - 2.0; var s := Initial(f, 0.0, 1.5);
      f(0.0) * f(1.5) < 0.0 && f(1.0) == 0.0 && OnBracket(f, s)
      && Search(f, s, s.ends.b - s.ends.a, TINY, TINY, n) == Undefined
  {
    var f := (x: real) => 2.0 * x - 2.0;
    FirstPassStallsIff(f, 0.0, 1.5, TINY, TINY, n);
  }

  /** Another, x - 0.4 on [-1, 1]: the first two passes bisect, to 0 and 0.5, and the third stalls. */
  lemma LateStallExample(n: nat)
    requires n > 2
    ensures var f := (x: real) => x - 0.4; var s := Initial(f, -1.0, 1.0); var e := s.ends.b - s.ends.a;
      f(-1.0) * f(1.0) < 0.0 && f(0.4) == 0.0 && OnBracket(f, s)
      && !Stalls(s, e, TINY) && Search(f, s, e, TINY, TINY, n) == Undefined
  {
    var f := (x: real) => x - 0.4;
    var s := Initial(f, -1.0, 1.0);
    var e := s.ends.b - s.ends.a;
    InitialOnBracket(f, -1.0, 1.0);
    assert s == State(Ends(-1.0, -1.4, 1.0, 0.6), -1.0, -1.4, 2.0, true);
    var t := State(Ends(1.0, 0.6, 0.0, -0.4), 1.0, 0.6, -1.0, true);
    var u := State(Ends(0.0, -0.4, 0.5, 0.1), 0.0, -0.4, 1.0, true);
    assert Bisects(s, e, TINY) && Point(s, e, TINY) == Finite(0.0);
    assert Moved(f, s, 0.0, true) == t;
    assert Bisects(t, e, TINY) && Point(t, e, TINY) == Finite(0.5);
    assert Moved(f, t, 0.5, true) == u;
    assert OnBracket(f, t) && OnBracket(f, u);
    assert Stalls(u, e, TINY);
    StallsExactly(f, u, e, TINY);
    hide Point, Bisects, Moved, OnBracket;
    assert Search(f, u, e, TINY, TINY, n - 2) == Undefined;
    assert Search(f, t, e, TINY, TINY, n - 1) == Undefined;
  }

  // ---------- The loop ----------

  /** The loop of the source performs the search, and reports success exactly when it found an answer. */
  method BrentSolve(f: real -> real, a0: real, b0: real, xtol: real, ytol: real, maxIter: nat)
    returns (x: real, ok: bool)
    ensures f(a0) * f(b0) >= 0.0 ==> !ok && x == 0.0
    ensures f(a0) * f(b0) < 0.0 ==>
      var s := Initial(f, a0, b0);
      OnBracket(f, s) &&
      match Search(f, s, s.ends.b - s.ends.a, xtol, ytol, maxIter)
      case Found(y) => ok && x == y
      case Undefined => !ok && x == 0.0
      case OutOfPasses(y) => !ok && x == y
    ensures ok ==> Answers(f, a0, b0, x, xtol, ytol)
  {
    hide Interpolate, NeedsBisection, Guarded, Ordered, Narrow, Answers, Abs;
    ok := false;
    var ends := Ends(a0, f(a0), b0, f(b0));
    if ends.fa * ends.fb >= 0.0 { return 0.0, false; }
    ends := Ordered(ends);
    InitialOnBracket(f, a0, b0);
    var c, fc := ends.a, ends.fa;
    var d := ends.b - ends.a;
    var e := d;
    var mflag := true;
    ghost var start := Initial(f, a0, b0);
    SearchSound(f, start, e, xtol, ytol, maxIter, a0, b0);
    var iter := 0;
    while iter < maxIter
      invariant 0 <= iter <= maxIter
      invariant OnBracket(f, State(ends, c, fc, d, mflag))
      invariant Search(f, State(ends, c, fc, d, mflag), e, xtol, ytol, maxIter - iter)
             == Search(f, start, e, xtol, ytol, maxIter)
    {
      if Converged(ends, xtol, ytol) {
        return ends.b, true;
      }
      PassKeepsBracket(f, State(ends, c, fc, d, mflag), e, xtol);
      var candidate := Interpolate(ends.a, ends.b, c, ends.fa, ends.fb, fc, e, xtol);
      var s := Guarded(candidate, ends.a, ends.b, c, d, mflag, xtol);
      mflag := NeedsBisection(candidate, ends.a, ends.b, c, d, mflag, xtol);
      if s.NaN? { return 0.0, false; }
      d := c;
      c := ends.b;
      fc := ends.fb;
      ends := Narrow(ends, s.value, f(s.value));
      iter := iter + 1;
    }
    if Abs(ends.b - ends.a) <= xtol || Abs(ends.fb) <= ytol {
      return ends.b, true;
    }
    return ends.b, false;
  }

  lemma NestedTwice(a0: real, b0: real, e: Ends, n: Ends)
    requires Between(e.a, a0, b0) && Between(e.b, a0, b0)
    requires Between(n.a, e.a, e.b) && Between(n.b, e.a, e.b)
    ensures Between(n.a, a0, b0) && Between(n.b, a0, b0)
  {
  }

  lemma NearbySignChange(f: real -> real, a0: real, b0: real, e: Ends, xtol: real, ytol: real)
    requires Bracket(f, e.a, e.b, e.fa, e.fb) && Converged(e, xtol, ytol) && Between(e.a, a0, b0)
    ensures f(e.b) == 0.0 || Abs(f(e.b)) <= ytol || SignChangeNear(f, a0, b0, e.b, xtol)
  {
    if e.fb != 0.0 && Abs(e.fb) > ytol {
      assert Abs(e.b - e.a) <= xtol && f(e.b) * f(e.a) < 0.0;
    }
  }

  ghost predicate StrictlyMonotone(f: real -> real, lo: real, hi: real) {
    (forall x, y :: lo <= x < y <= hi ==> f(y) < f(x)) || (forall x, y :: lo <= x < y <= hi ==> f(x) < f(y))
  }

  /** The root of a strictly monotone function is never lost: it lies in every bracket. */
  lemma BracketHoldsRoot(f: real -> real, lo: real, hi: real, root: real, a: real, b: real)
    requires StrictlyMonotone(f, lo, hi) && f(root) == 0.0
    requires lo <= root <= hi && lo <= a <= hi && lo <= b <= hi
    requires Bracket(f, a, b, f(a), f(b)) || f(a) * f(b) < 0.0
    ensures Between(root, a, b)
  {
    SignRule(f(a), f(b));
    assert root < b || b < root || root == b;
    assert root < a || a < root || root == a;
  }

  /** So a converged answer without a small residual is within `xtol` of the root. */
  lemma ConvergedNearRoot(f: real -> real, lo: real, hi: real, root: real, x: real, xtol: real)
    requires StrictlyMonotone(f, lo, hi) && f(root) == 0.0
    requires lo <= root <= hi && lo <= x <= hi && xtol >= 0.0
    requires f(x) == 0.0 || SignChangeNear(f, lo, hi, x, xtol)
    ensures Abs(x - root) <= xtol
  {
    if f(x) == 0.0 {
      assert root < x || x < root || root == x;
    } else {
      var z :| Between(z, lo, hi) && Abs(x - z) <= xtol && f(x) * f(z) < 0.0;
      BracketHoldsRoot(f, lo, hi, root, x, z);
    }
  }
}

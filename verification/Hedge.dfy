/** Integer DV01 hedging with treasury futures: `hedge_math.cpp`. */
module Hedge {
  import opened Options
  import opened Reals

  datatype Measures = Measures(futuresDv01: real, raw: real, contracts: int, residual: real, effectiveness: real)

  const CONTRACT_NOTIONAL: real := 1000000.0
  const FACE_QUOTE: real := 100.0
  const INT64_LIMIT: int := 0x8000_0000_0000_0000

  predicate SupportedProduct(product: nat) {
    1 <= product <= 4
  }

  function AbsInt(n: int): int {
    if n < 0 then -(n + 1) + 1 else n
  }

  /** DV01 left after `n` contracts of DV01 `f` each. */
  function Residual(target: real, f: real, n: int): real {
    target + n as real * f
  }

  function Risk(target: real, f: real, n: int): real {
    Abs(Residual(target, f, n))
  }

  function Tolerance(target: real): (r: real)
    ensures r > 0.0
  {
    0.000000000001 * (if Abs(target) > 1.0 then Abs(target) else 1.0)
  }

  predicate BetterCandidate(candidate: int, candidateRisk: real, incumbent: int, incumbentRisk: real, tolerance: real) {
    if candidateRisk + tolerance < incumbentRisk then true
    else if Abs(candidateRisk - incumbentRisk) > tolerance then false
    else AbsInt(candidate) < AbsInt(incumbent)
         || (AbsInt(candidate) == AbsInt(incumbent) && candidate < incumbent)
  }

  function Pick(target: real, f: real, candidate: int, incumbent: int): int {
    if BetterCandidate(candidate, Risk(target, f, candidate), incumbent, Risk(target, f, incumbent), Tolerance(target))
    then candidate else incumbent
  }

  /** The recommendation: floor, ceiling and zero compared in that order. */
  function Recommend(target: real, f: real): int
    requires f > 0.0
  {
    var raw := -target / f;
    Pick(target, f, 0, Pick(target, f, Ceiling(raw), raw.Floor))
  }

  function ContractDv01(ctdDv01: real, factor: real): real
    requires factor > 0.0
  {
    ctdDv01 * (CONTRACT_NOTIONAL / FACE_QUOTE) / factor
  }

  /** The raw hedge fits a signed 64-bit integer on both sides. */
  predicate Fits(raw: real) {
    -0x8000_0000_0000_0000 <= raw.Floor && Ceiling(raw) <= 0x7FFF_FFFF_FFFF_FFFF
  }

  predicate Accepts(product: nat, target: real, ctdDv01: real, factor: real) {
    1 <= product <= 4 && target != 0.0 && ctdDv01 > 0.0 && factor > 0.0
    && ContractDv01(ctdDv01, factor) > 0.0 && Fits(-target / ContractDv01(ctdDv01, factor))
  }

  /** What the figures mean: a contract of 1,000,000 against a DV01 per 100, and what is left of the target. */
  ghost predicate Measured(target: real, ctdDv01: real, factor: real, m: Measures) {
    && m.futuresDv01 * factor * 100.0 == ctdDv01 * 1000000.0
    && m.raw * m.futuresDv01 == -target
    && m.residual == target + m.contracts as real * m.futuresDv01
    && m.effectiveness * Abs(target) == Abs(target) - Abs(m.residual)
  }

  /** A relative slack of 1e-12, absolute below 1. */
  function Slack(target: real): real {
    if Abs(target) > 1.0 then 0.000000000001 * Abs(target) else 0.000000000001
  }

  /** No other number of contracts does better by more than twice the slack, and trading none loses more than the slack. */
  ghost predicate NoBetterHedge(target: real, m: Measures) {
    && (forall n: int :: Abs(m.residual) <= Risk(target, m.futuresDv01, n) + 2.0 * Slack(target))
    && (m.contracts != 0 ==> Abs(m.residual) + Slack(target) < Abs(target))
  }

  lemma MeasuresMean(target: real, ctdDv01: real, factor: real, m: Measures)
    requires target != 0.0 && factor > 0.0 && ContractDv01(ctdDv01, factor) > 0.0
    requires var f := ContractDv01(ctdDv01, factor);
      && m.futuresDv01 == f && m.raw == -target / f && m.contracts == Recommend(target, f)
      && m.residual == Residual(target, f, Recommend(target, f))
      && m.effectiveness == 1.0 - Risk(target, f, Recommend(target, f)) / Abs(target)
    ensures Measured(target, ctdDv01, factor, m)
  {
    hide Recommend;
    assert ContractDv01(ctdDv01, factor) * factor == ctdDv01 * 10000.0;
    Share(Abs(m.residual), Abs(target));
  }

  lemma HedgeIsBest(target: real, f: real, m: Measures)
    requires f > 0.0 && m.futuresDv01 == f && m.contracts == Recommend(target, f)
    requires m.residual == Residual(target, f, Recommend(target, f))
    ensures NoBetterHedge(target, m)
  {
    hide Recommend, Residual, Abs;
    assert Tolerance(target) == Slack(target);
    hide Tolerance, Slack;
    forall n: int
      ensures Abs(m.residual) <= Risk(target, f, n) + 2.0 * Slack(target)
    {
      RecommendationOptimal(target, f, n);
    }
    if m.contracts != 0 { NonzeroHedgePays(target, f); }
  }

  lemma Share(x: real, size: real)
    requires size > 0.0
    ensures (1.0 - x / size) * size == size - x
  {
  }

  /**
    The candidate loop returns the recommendation; the clamp on effectiveness never changes
    the value, because the recommendation never carries more risk than no hedge at all.
   */
  method Calculate(product: nat, target: real, ctdDv01: real, factor: real) returns (m: Option<Measures>)
    ensures m.Some? <==> Accepts(product, target, ctdDv01, factor)
    ensures m.Some? ==>
      var f := ContractDv01(ctdDv01, factor);
      && m.value.futuresDv01 == f && m.value.raw == -target / f
      && m.value.contracts == Recommend(target, f)
      && m.value.residual == Residual(target, f, Recommend(target, f))
      && m.value.effectiveness == 1.0 - Risk(target, f, Recommend(target, f)) / Abs(target)
      && 0.0 <= m.value.effectiveness <= 1.0
    ensures m.Some? ==> Measured(target, ctdDv01, factor, m.value) && NoBetterHedge(target, m.value)
  {
    hide BetterCandidate, Risk, Residual, Tolerance, Measured, NoBetterHedge;
    if !SupportedProduct(product) || target == 0.0 || ctdDv01 <= 0.0 || factor <= 0.0 { return None; }
    var f := ContractDv01(ctdDv01, factor);
    if f <= 0.0 { return None; }
    var raw := -target / f;
    if raw < -INT64_LIMIT as real || raw >= INT64_LIMIT as real { return None; }
    if raw.Floor < -INT64_LIMIT || Ceiling(raw) >= INT64_LIMIT { return None; }
    var candidates := [raw.Floor, Ceiling(raw), 0];
    var best := candidates[0];
    var bestResidual := Residual(target, f, best);
    var bestRisk := Risk(target, f, best);
    var tolerance := Tolerance(target);
    var index := 1;
    while index < 3
      invariant 1 <= index <= 3
      invariant best == if index == 1 then raw.Floor
                        else if index == 2 then Pick(target, f, Ceiling(raw), raw.Floor)
                        else Recommend(target, f)
      invariant bestResidual == Residual(target, f, best) && bestRisk == Risk(target, f, best)
    {
      var candidate := candidates[index];
      var risk := Risk(target, f, candidate);
      if BetterCandidate(candidate, risk, best, bestRisk, tolerance) {
        best := candidate;
        bestResidual := Residual(target, f, candidate);
        bestRisk := risk;
      }
      index := index + 1;
    }
    var effectiveness := 1.0 - bestRisk / Abs(target);
    NoWorseThanNothing(target, f);
    EffectivenessInRange(bestRisk, Abs(target));
    effectiveness := if effectiveness < 0.0 then 0.0 else if effectiveness > 1.0 then 1.0 else effectiveness;
    m := Some(Measures(f, raw, best, bestResidual, effectiveness));
    MeasuresMean(target, ctdDv01, factor, m.value);
    HedgeIsBest(target, f, m.value);
  }

  lemma EffectivenessInRange(risk: real, size: real)
    requires 0.0 <= risk <= size && size > 0.0
    ensures 0.0 <= 1.0 - risk / size <= 1.0
  {
    QuotientMonotone(risk, size, size);
    QuotientMonotone(0.0, risk, size);
  }

  /** Every integer lies on one side of the raw hedge, no closer than its floor or its ceiling. */
  lemma NearestNeighbours(target: real, f: real, n: int)
    requires f > 0.0
    ensures var raw := -target / f;
      Risk(target, f, raw.Floor) <= Risk(target, f, n) || Risk(target, f, Ceiling(raw)) <= Risk(target, f, n)
  {
    var raw := -target / f;
    assert raw * f == -target;
    if n <= raw.Floor {
      BelowRaw(target, f, raw, n, raw.Floor);
    } else {
      AboveRaw(target, f, raw, Ceiling(raw), n);
    }
  }

  lemma BelowRaw(target: real, f: real, raw: real, n: int, m: int)
    requires f > 0.0 && raw * f == -target && n <= m && m as real <= raw
    ensures Risk(target, f, m) <= Risk(target, f, n)
  {
    ResidualOrder(target, f, n, m);
    ResidualSign(target, f, raw, m);
    hide Residual, Abs;
    AbsFalls(Residual(target, f, n), Residual(target, f, m));
  }

  lemma AboveRaw(target: real, f: real, raw: real, m: int, n: int)
    requires f > 0.0 && raw * f == -target && raw <= m as real && m <= n
    ensures Risk(target, f, m) <= Risk(target, f, n)
  {
    ResidualOrder(target, f, m, n);
    ResidualSign(target, f, raw, m);
    hide Residual, Abs;
    AbsFalls(Residual(target, f, m), Residual(target, f, n));
  }

  lemma ResidualOrder(target: real, f: real, n: int, m: int)
    requires f > 0.0 && n <= m
    ensures Residual(target, f, n) <= Residual(target, f, m)
  {
    BoundProduct(n as real, m as real, f);
  }

  lemma ResidualSign(target: real, f: real, raw: real, m: int)
    requires f > 0.0 && raw * f == -target
    ensures m as real <= raw ==> Residual(target, f, m) <= 0.0
    ensures raw <= m as real ==> 0.0 <= Residual(target, f, m)
  {
    if m as real <= raw { BoundProduct(m as real, raw, f); }
    if raw <= m as real { BoundProduct(raw, m as real, f); }
  }

  lemma AbsFalls(x: real, y: real)
    ensures x <= y <= 0.0 ==> Abs(y) <= Abs(x)
    ensures 0.0 <= x <= y ==> Abs(x) <= Abs(y)
  {
  }

  /** No integer number of contracts leaves less risk by more than twice the tolerance. */
  lemma RecommendationOptimal(target: real, f: real, n: int)
    requires f > 0.0
    ensures Risk(target, f, Recommend(target, f)) <= Risk(target, f, n) + 2.0 * Tolerance(target)
  {
    hide Risk, Tolerance;
    NearestNeighbours(target, f, n);
  }

  /** A hedge is recommended only if it cuts the risk by more than the tolerance. */
  lemma NonzeroHedgePays(target: real, f: real)
    requires f > 0.0 && Recommend(target, f) != 0
    ensures Risk(target, f, Recommend(target, f)) + Tolerance(target) < Abs(target)
  {
    hide Risk, Tolerance;
    NoHedge(target, f);
  }

  lemma NoHedge(target: real, f: real)
    ensures Risk(target, f, 0) == Abs(target)
  {
    assert 0.0 * f == 0.0;
  }

  lemma NoWorseThanNothing(target: real, f: real)
    requires f > 0.0
    ensures 0.0 <= Risk(target, f, Recommend(target, f)) <= Abs(target)
  {
    NoHedge(target, f);
    if Recommend(target, f) != 0 {
      NonzeroHedgePays(target, f);
    }
    hide BetterCandidate, Residual;
  }

  // ---------- Symmetry ----------

  lemma MirrorRisk(target: real, f: real, n: int)
    ensures Risk(-target, f, -n) == Risk(target, f, n)
  {
    assert Residual(-target, f, -n) == -Residual(target, f, n);
  }

  lemma MirrorNeighbours(raw: real)
    ensures (-raw).Floor == -Ceiling(raw) && Ceiling(-raw) == -(raw.Floor)
  {
  }

  /** Comparison does not depend on order when the candidates differ in size. */
  lemma MirrorPick(target: real, f: real, a: int, b: int)
    requires AbsInt(a) != AbsInt(b) || a == b
    ensures Pick(-target, f, -a, -b) == -Pick(target, f, a, b)
    ensures Pick(-target, f, -b, -a) == -Pick(target, f, a, b)
  {
    MirrorRisk(target, f, a);
    MirrorRisk(target, f, b);
    MirrorTolerance(target);
    hide Risk, Tolerance;
  }

  lemma MirrorTolerance(target: real)
    ensures Tolerance(-target) == Tolerance(target)
  {
  }

  /** Negating the exposure negates the recommendation. */
  lemma MirrorRecommendation(target: real, f: real)
    requires f > 0.0
    ensures Recommend(-target, f) == -Recommend(target, f)
  {
    hide Risk, Tolerance, BetterCandidate, Pick;
    var raw := -target / f;
    assert -(-target) / f == -raw;
    MirrorNeighbours(raw);
    MirrorPick(target, f, Ceiling(raw), raw.Floor);
    MirrorPick(target, f, 0, Pick(target, f, Ceiling(raw), raw.Floor));
  }

  /** The mirrored request is accepted too, unless the raw hedge sits at the most negative integer. */
  lemma MirrorAcceptance(product: nat, target: real, ctdDv01: real, factor: real)
    requires Accepts(product, target, ctdDv01, factor)
    ensures Accepts(product, -target, ctdDv01, factor)
            <==> (-target / ContractDv01(ctdDv01, factor)).Floor != -INT64_LIMIT
  {
    var f := ContractDv01(ctdDv01, factor);
    hide ContractDv01;
    var raw := -target / f;
    assert -(-target) / f == -raw;
    MirrorNeighbours(raw);
  }
}

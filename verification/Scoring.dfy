/** The MosActive v2 formula and its rounding (scoring_v2.py). Amounts of points are
    integers counted in units of 0.0001, the scale every stored Decimal has. */
module Scoring {
  import opened Common

  const UNITS_PER_POINT: real := 10000.0

  /** The exact Decimal stored as `units`. */
  function Exact(units: int): real {
    units as real / UNITS_PER_POINT
  }

  /** `quantize(Decimal("0.0001"), ROUND_HALF_UP)`: ties go away from zero. */
  function Quantize(x: real): int {
    if x >= 0.0 then (x * UNITS_PER_POINT + 0.5).Floor else -((-x * UNITS_PER_POINT + 0.5).Floor)
  }

  datatype ScoringInput = ScoringInput(
    role: real, level: real, boost: real, statuses: seq<real>, newcomer: real, result: Option<int>)

  /** The amounts recorded in the calculation snapshot. */
  datatype Calculation = Calculation(multiplicativeSubtotal: int, resultBonus: int, finalPoints: int)

  function Product(factors: seq<real>): real {
    if factors == [] then 1.0 else Product(factors[..|factors| - 1]) * factors[|factors| - 1]
  }

  function Combined(v: ScoringInput, statusProduct: real): real {
    (v.role * v.level * v.boost) * statusProduct * v.newcomer
  }

  function ExactSubtotal(v: ScoringInput): real {
    Combined(v.(statuses := []), Product(v.statuses))
  }

  function BonusUnits(v: ScoringInput): int {
    if v.result.Some? then v.result.value else 0
  }

  /** The unrounded formula: product of every multiplier plus the result bonus. */
  function ExactTotal(v: ScoringInput): real {
    ExactSubtotal(v) + Exact(BonusUnits(v))
  }

  function CalculationOf(v: ScoringInput): Calculation {
    Calculation(Quantize(ExactSubtotal(v)), Quantize(Exact(BonusUnits(v))), Quantize(ExactTotal(v)))
  }

  /** The accumulating loop of the calculator. */
  method Subtotal(v: ScoringInput) returns (score: real)
    ensures score == ExactSubtotal(v)
  {
    var base := v.role * v.level * v.boost;
    score := base;
    for i := 0 to |v.statuses|
      invariant score == base * Product(v.statuses[..i])
    {
      assert v.statuses[..i + 1] == v.statuses[..i] + [v.statuses[i]];
      ProductAppend(v.statuses[..i], v.statuses[i]);
      MulAssociates(base, Product(v.statuses[..i]), v.statuses[i]);
      score := score * v.statuses[i];
    }
    assert v.statuses[..|v.statuses|] == v.statuses;
    score := score * v.newcomer;
  }

  method Calculate(v: ScoringInput) returns (r: Calculation)
    ensures r == CalculationOf(v)
  {
    var score := Subtotal(v);
    var bonus := if v.result.Some? then Exact(v.result.value) else 0.0;
    var total := Quantize(score + bonus);
    r := Calculation(Quantize(score), Quantize(bonus), total);
  }

  lemma ProductAppend(factors: seq<real>, f: real)
    ensures Product(factors + [f]) == Product(factors) * f
  {
    assert (factors + [f])[..|factors|] == factors;
  }

  // ---- The rounding ----------------------------------------------------------

  /** A quantized value is within half a unit of the exact one, and it is the only
      integer that is, except at a tie. */
  lemma QuantizeNearest(x: real, n: int)
    ensures -0.5 <= Quantize(x) as real - x * UNITS_PER_POINT <= 0.5
    ensures -0.5 < n as real - x * UNITS_PER_POINT < 0.5 ==> n == Quantize(x)
  {
  }

  /** A stored amount is not changed by quantizing it again. */
  lemma QuantizeExact(n: int)
    ensures Quantize(Exact(n)) == n
  {
    assert Exact(n) * UNITS_PER_POINT == n as real;
  }

  /** A reversal's text is the negated text of its award. */
  lemma QuantizeNegates(x: real)
    ensures Quantize(-x) == -Quantize(x)
  {
  }

  /** `x` lies exactly between two adjacent stored amounts. */
  predicate Tie(x: real) {
    x * UNITS_PER_POINT - (x * UNITS_PER_POINT).Floor as real == 0.5
  }

  /** Adding a stored amount before or after rounding is the same, except when the
      unrounded value is a tie and the addition carries it across zero. */
  lemma ShiftCommutes(x: real, n: int)
    ensures Quantize(x + Exact(n)) == Quantize(x) + n
       <==> !(Tie(x) && (x >= 0.0) != (x + Exact(n) >= 0.0))
  {
    var y := x * UNITS_PER_POINT;
    assert (x + Exact(n)) * UNITS_PER_POINT == y + n as real;
    assert (y + n as real + 0.5).Floor == (y + 0.5).Floor + n;
    assert (-(y + n as real) + 0.5).Floor == (-y + 0.5).Floor - n;
    HalfUpBothWays(y);
  }

  lemma HalfUpBothWays(y: real)
    ensures (y + 0.5).Floor == -((-y + 0.5).Floor) <==> y - y.Floor as real != 0.5
  {
    var f := y.Floor;
    if y - f as real < 0.5 {
      assert (y + 0.5).Floor == f;
    } else {
      assert (y + 0.5).Floor == f + 1;
    }
    if y - f as real <= 0.5 {
      assert (-y + 0.5).Floor == -f;
    } else {
      assert (-y + 0.5).Floor == -f - 1;
    }
  }

  // ---- The formula -----------------------------------------------------------

  /** The awarded total differs from the exact formula by at most half of 0.0001. */
  lemma FinalPointsNearFormula(v: ScoringInput)
    ensures -0.5 / UNITS_PER_POINT <= Exact(CalculationOf(v).finalPoints) - ExactTotal(v) <= 0.5 / UNITS_PER_POINT
  {
    QuantizeNearest(ExactTotal(v), 0);
  }

  /** The recorded total is the sum of the recorded parts exactly when the exact
      subtotal is not a tie that the bonus carries across zero. */
  lemma RecordedPartsAddUp(v: ScoringInput)
    ensures var r := CalculationOf(v);
      r.finalPoints == r.multiplicativeSubtotal + r.resultBonus
      <==> !(Tie(ExactSubtotal(v)) && (ExactSubtotal(v) >= 0.0) != (ExactTotal(v) >= 0.0))
  {
    ShiftCommutes(ExactSubtotal(v), BonusUnits(v));
    QuantizeExact(BonusUnits(v));
  }

  predicate NonNegative(v: ScoringInput) {
    && v.role >= 0.0 && v.level >= 0.0 && v.boost >= 0.0 && v.newcomer >= 0.0 && BonusUnits(v) >= 0
    && forall i :: 0 <= i < |v.statuses| ==> v.statuses[i] >= 0.0
  }

  lemma {:induction false} ProductNonNegative(factors: seq<real>)
    requires forall i :: 0 <= i < |factors| ==> factors[i] >= 0.0
    ensures Product(factors) >= 0.0
  {
    if factors != [] {
      var front, last := factors[..|factors| - 1], factors[|factors| - 1];
      ProductNonNegative(front);
      MulNonNegative(Product(front), last);
    }
  }

  lemma MulNonNegative(a: real, b: real)
    requires a >= 0.0 && b >= 0.0
    ensures a * b >= 0.0
  {
  }

  /** Every policy value the schema admits is non-negative, so published snapshots
      always add up and no award is negative. */
  lemma NonNegativeInputsAddUp(v: ScoringInput)
    requires NonNegative(v)
    ensures var r := CalculationOf(v);
      r.finalPoints == r.multiplicativeSubtotal + r.resultBonus && 0 <= r.resultBonus <= r.finalPoints
  {
    ProductNonNegative(v.statuses);
    MulNonNegative(v.role, v.level);
    MulNonNegative(v.role * v.level, v.boost);
    MulNonNegative(v.role * v.level * v.boost, Product(v.statuses));
    MulNonNegative(v.role * v.level * v.boost * Product(v.statuses), v.newcomer);
    assert Exact(BonusUnits(v)) >= 0.0;
    RecordedPartsAddUp(v);
    QuantizeExact(BonusUnits(v));
    assert Quantize(ExactSubtotal(v)) >= 0;
  }

  // ---- Order independence ----------------------------------------------------

  lemma {:induction false} ProductConcat(a: seq<real>, b: seq<real>)
    ensures Product(a + b) == Product(a) * Product(b)
  {
    if b == [] {
      assert a + b == a;
    } else {
      var front, last := b[..|b| - 1], b[|b| - 1];
      assert b == front + [last] && a + b == (a + front) + [last];
      ProductAppend(a + front, last);
      ProductConcat(a, front);
      ProductAppend(front, last);
      MulAssociates(Product(a), Product(front), last);
    }
  }

  lemma MulAssociates(a: real, b: real, c: real)
    ensures (a * b) * c == a * (b * c)
  {
  }

  lemma MulSwapsTail(a: real, b: real, c: real)
    ensures (a * b) * c == (a * c) * b
  {
  }

  lemma ProductMoves(pre: seq<real>, x: real, post: seq<real>)
    ensures Product(pre + [x] + post) == Product(pre + post) * x
  {
    ProductOfThree(pre, x, post);
    ProductConcat(pre, post);
    MulSwapsTail(Product(pre), x, Product(post));
  }

  lemma ProductOfThree(pre: seq<real>, x: real, post: seq<real>)
    ensures Product(pre + [x] + post) == (Product(pre) * x) * Product(post)
  {
    ProductConcat(pre + [x], post);
    ProductAppend(pre, x);
  }

  /** Multipliers may be listed in any order. */
  lemma Locate(a: seq<real>, b: seq<real>) returns (i: nat)
    requires multiset(a) == multiset(b) && a != []
    ensures i < |b| && b[i] == a[|a| - 1]
  {
    assert a[|a| - 1] in multiset(b);
    i :| 0 <= i < |b| && b[i] == a[|a| - 1];
  }

  lemma {:induction false} ProductPermutes(a: seq<real>, b: seq<real>)
    requires multiset(a) == multiset(b)
    ensures Product(a) == Product(b)
    decreases |a|
  {
    if a == [] {
      assert |b| == |multiset(b)| == |multiset(a)| == 0;
    } else {
      var front, last := a[..|a| - 1], a[|a| - 1];
      assert a == front + [last];
      var i := Locate(a, b);
      Extract(front, last, b, i);
      ProductPermutes(front, b[..i] + b[i + 1..]);
      ProductMoves(b[..i], last, b[i + 1..]);
    }
  }

  lemma Extract(front: seq<real>, last: real, b: seq<real>, i: nat)
    requires multiset(front + [last]) == multiset(b) && i < |b| && b[i] == last
    ensures b == b[..i] + [last] + b[i + 1..]
    ensures multiset(front) == multiset(b[..i] + b[i + 1..])
  {
    assert b == b[..i] + [last] + b[i + 1..];
    assert multiset(b) == multiset(b[..i]) + multiset{last} + multiset(b[i + 1..]);
    assert multiset(front) == multiset(b) - multiset{last};
  }

  /** Neither the total nor any recorded part depends on the order of the statuses. */
  lemma StatusOrderIrrelevant(v: ScoringInput, statuses: seq<real>)
    requires multiset(statuses) == multiset(v.statuses)
    ensures CalculationOf(v.(statuses := statuses)) == CalculationOf(v)
  {
    ProductPermutes(statuses, v.statuses);
  }
}

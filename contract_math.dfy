/**
 * The yearly fee/tax recurrence behind the contract comparator.
 *
 * Each simulated year the previous value grows by the annual return, loses the
 * security fee and then the bank fee, and only then receives the yearly
 * contribution. Selling in a given year pays capital-gains tax on the part of
 * the value above the amount invested. Money is `real`: floating-point
 * rounding is not modelled.
 */
module ContractMath {

  /** The numeric terms of one contract: all the simulation reads. */
  datatype Terms = Terms(
    initial: real,
    annualReturn: real,
    securityFee: real,
    bankFee: real,
    contribution: real)

  /**
   * The contract dictionary the contract forms build (label, amounts, rates,
   * horizon). Every key is always present, so a missing key is not modelled.
   */
  datatype Contract = Contract(
    labelText: string,  // the "label" key (`label` is a Dafny keyword)
    initial: real,
    annualReturn: real,
    yearlyInvestment: real,
    securityFee: real,
    bankFee: real,
    capgainsTax: real,
    years: int)

  function TermsOf(c: Contract): Terms {
    Terms(c.initial, c.annualReturn, c.securityFee, c.bankFee, c.yearlyInvestment)
  }

  /** How allocating and seeding the yearly array can fail. */
  datatype SimError =
    | NegativeDimensions   // years < -1: numpy refuses an array of negative length
    | IndexOutOfBounds     // years == -1: the array is empty, so there is no values[0]

  /** Result of a simulation: the yearly values and the total invested, or the error raised. */
  datatype Simulation =
    | Simulated(values: array<real>, invested: real)
    | Failed(error: SimError)

  function Max(a: real, b: real): real { if a >= b then a else b }

  function Min(a: real, b: real): real { if a <= b then a else b }

  /** Net multiplier of one year: the return, then the security fee, then the bank fee. */
  function NetFactor(t: Terms): real {
    (1.0 + t.annualReturn) * (1.0 - t.securityFee) * (1.0 - t.bankFee)
  }

  /** Value at the end of a year that started at `prev`: return, security fee, bank fee, then the contribution. */
  function YearEnd(t: Terms, prev: real): real {
    prev * (1.0 + t.annualReturn) * (1.0 - t.securityFee) * (1.0 - t.bankFee) + t.contribution
  }

  /** The return, the security fee and the bank fee taken one after the other make up `YearEnd` less the contribution. */
  lemma FeesInOrder(t: Terms, prev: real, grown: real, afterSecurityFee: real, afterBankFee: real)
    requires grown == prev * (1.0 + t.annualReturn)
    requires afterSecurityFee == grown * (1.0 - t.securityFee)
    requires afterBankFee == afterSecurityFee * (1.0 - t.bankFee)
    ensures YearEnd(t, prev) == afterBankFee + t.contribution
  {
  }

  /** Value at the end of year `y`: year 0 is the initial amount. */
  function ValueAt(t: Terms, y: nat): real {
    if y == 0 then t.initial else YearEnd(t, ValueAt(t, y - 1))
  }

  /** The whole yearly curve, years 0 to `years`. */
  function Values(t: Terms, years: nat): (r: seq<real>)
    ensures |r| == years + 1 && r[0] == t.initial
    ensures forall y :: 0 <= y <= years ==> r[y] == ValueAt(t, y)
  {
    seq(years + 1, y requires 0 <= y => ValueAt(t, y))
  }

  /** Amount paid in by the end of year `y`. */
  function Invested(t: Terms, y: nat): real {
    t.initial + (y as real) * t.contribution
  }

  lemma InvestedStep(t: Terms, y: nat)
    requires y >= 1
    ensures Invested(t, y) == Invested(t, y - 1) + t.contribution
  {
  }

  function Pow(f: real, n: nat): real {
    if n == 0 then 1.0 else f * Pow(f, n - 1)
  }

  /** 1 + f + ... + f^(n-1), term by term. */
  function GeomSum(f: real, n: nat): real {
    if n == 0 then 0.0 else GeomSum(f, n - 1) + Pow(f, n - 1)
  }

  lemma {:induction false} GeomSumShift(f: real, n: nat)
    requires n >= 1
    ensures GeomSum(f, n) == 1.0 + f * GeomSum(f, n - 1)
  {
    if n > 1 {
      GeomSumShift(f, n - 1);
      assert Pow(f, n - 1) == f * Pow(f, n - 2);
      FactorOut(f, GeomSum(f, n - 2), Pow(f, n - 2));
    }
  }

  /** One simulated year multiplies by the net factor and then adds the contribution. */
  lemma StepByNetFactor(t: Terms, y: nat)
    requires y >= 1
    ensures ValueAt(t, y) == ValueAt(t, y - 1) * NetFactor(t) + t.contribution
  {
    Regroup(ValueAt(t, y - 1), 1.0 + t.annualReturn, 1.0 - t.securityFee, 1.0 - t.bankFee);
  }

  /** Generic compounding: start at `i`, multiply by `f` and add `c` each year. */
  function Compound(i: real, f: real, c: real, y: nat): real {
    if y == 0 then i else Compound(i, f, c, y - 1) * f + c
  }

  lemma {:induction false} CompoundClosedForm(i: real, f: real, c: real, y: nat)
    ensures Compound(i, f, c, y) == i * Pow(f, y) + c * GeomSum(f, y)
  {
    if y > 0 {
      CompoundClosedForm(i, f, c, y - 1);
      CompoundStep(i, f, c, y);
    }
  }

  /** One year of `CompoundClosedForm`: the closed form is kept by one more step. */
  lemma CompoundStep(i: real, f: real, c: real, y: nat)
    requires y > 0
    requires Compound(i, f, c, y - 1) == i * Pow(f, y - 1) + c * GeomSum(f, y - 1)
    ensures Compound(i, f, c, y) == i * Pow(f, y) + c * GeomSum(f, y)
  {
    GeomSumShift(f, y);
    ClosedFormAlgebra(Compound(i, f, c, y - 1), i, c, f, Pow(f, y - 1), GeomSum(f, y - 1), Pow(f, y), GeomSum(f, y));
  }

  /** The simulated curve is compounding by the net factor. */
  lemma {:induction false} ValueAtCompounds(t: Terms, y: nat)
    ensures ValueAt(t, y) == Compound(t.initial, NetFactor(t), t.contribution, y)
  {
    if y > 0 {
      ValueAtCompounds(t, y - 1);
      StepByNetFactor(t, y);
    }
  }

  /**
   * Closed form of the recurrence: the initial amount compounds for `y`
   * years and the contribution of year k compounds for `y - k` years.
   */
  lemma ClosedForm(t: Terms, y: nat)
    ensures ValueAt(t, y) == t.initial * Pow(NetFactor(t), y) + t.contribution * GeomSum(NetFactor(t), y)
  {
    ValueAtCompounds(t, y);
    CompoundClosedForm(t.initial, NetFactor(t), t.contribution, y);
  }

  /** With no yearly contribution the initial amount just compounds, and nothing more is invested. */
  lemma {:induction false} ZeroContributionCompounds(t: Terms, y: nat)
    requires t.contribution == 0.0
    ensures ValueAt(t, y) == t.initial * Pow(NetFactor(t), y)
    ensures Invested(t, y) == t.initial
  {
    ClosedForm(t, y);
  }

  lemma NetFactorNonNegative(t: Terms)
    requires t.annualReturn >= -1.0 && t.securityFee <= 1.0 && t.bankFee <= 1.0
    ensures NetFactor(t) >= 0.0
  {
    var a, b, c := 1.0 + t.annualReturn, 1.0 - t.securityFee, 1.0 - t.bankFee;
    ProductMonotone(0.0, a, 0.0, b);
    ProductMonotone(0.0, a * b, 0.0, c);
  }

  /** Non-negative amounts and rates a form accepts keep every yearly value non-negative. */
  lemma {:induction false} ValuesStayNonNegative(t: Terms, y: nat)
    requires t.initial >= 0.0 && t.contribution >= 0.0
    requires t.annualReturn >= -1.0 && t.securityFee <= 1.0 && t.bankFee <= 1.0
    ensures ValueAt(t, y) >= 0.0
  {
    if y > 0 {
      ValuesStayNonNegative(t, y - 1);
      StepByNetFactor(t, y);
      NetFactorNonNegative(t);
      ProductMonotone(0.0, ValueAt(t, y - 1), 0.0, NetFactor(t));
    }
  }

  /**
   * Comparing two contracts with the same deposits: the one whose yearly net
   * factor (return after both fees) is larger is worth at least as much in
   * every year.
   */
  lemma {:induction false} LargerNetFactorGrowsMore(t: Terms, u: Terms, y: nat)
    requires t.initial == u.initial && t.initial >= 0.0
    requires t.contribution == u.contribution && t.contribution >= 0.0
    requires 0.0 <= NetFactor(u) <= NetFactor(t)
    ensures 0.0 <= ValueAt(u, y) <= ValueAt(t, y)
  {
    if y > 0 {
      LargerNetFactorGrowsMore(t, u, y - 1);
      StepByNetFactor(t, y);
      StepByNetFactor(u, y);
      ProductMonotone(ValueAt(u, y - 1), ValueAt(t, y - 1), NetFactor(u), NetFactor(t));
    }
  }

  // Facts of real arithmetic, stated over plain variables so that the
  // solver meets them apart from the functions above.

  lemma Regroup(v: real, a: real, b: real, c: real)
    ensures v * a * b * c == v * (a * b * c)
  {
  }

  lemma FactorOut(f: real, g: real, p: real)
    ensures 1.0 + f * g + f * p == 1.0 + f * (g + p)
  {
  }

  lemma ClosedFormAlgebra(v: real, i: real, c: real, f: real, p: real, g: real, p': real, g': real)
    requires v == i * p + c * g && p' == f * p && g' == 1.0 + f * g
    ensures v * f + c == i * p' + c * g'
  {
  }

  /** `k * x` and `k * y` for `x <= y` and a non-negative `k`, as values the solver can compare linearly. */
  lemma ScaledPair(k: real, x: real, y: real) returns (kx: real, ky: real)
    requires 0.0 <= k && x <= y
    ensures kx == k * x && ky == k * y && kx <= ky
  {
    kx, ky := k * x, k * y;
    ScaleMonotone(x, y, k);
  }

  lemma ScaleMonotone(a: real, b: real, k: real)
    requires a <= b && 0.0 <= k
    ensures a * k <= b * k && k * a <= k * b
  {
  }

  lemma ProductMonotone(x: real, y: real, a: real, b: real)
    requires 0.0 <= x <= y && 0.0 <= a <= b
    ensures 0.0 <= x * a <= y * b
  {
    assert x * a <= y * a;
    assert y * a <= y * b;
  }

  /**
   * Value kept when holdings worth `v` are sold against the cost basis
   * `invested`: only the gain above the basis is taxed, and a loss is not.
   */
  function AfterTaxValue(v: real, invested: real, tax: real): (r: real)
    ensures v <= invested ==> r == v
    ensures v > invested ==> r == invested + (1.0 - tax) * (v - invested)
  {
    var gains := Max(0.0, v - invested);
    var taxes := gains * tax;
    KeepsUntaxedShare(v, invested, tax);
    v - taxes
  }

  lemma KeepsUntaxedShare(v: real, invested: real, tax: real)
    ensures v - (v - invested) * tax == invested + (1.0 - tax) * (v - invested)
  {
    var g := v - invested;
    calc {
      invested + (1.0 - tax) * g;
      invested + g - tax * g;
      v - g * tax;
    }
  }

  /** `share` of a non-negative amount, as a value the solver can reason about linearly. */
  lemma Portion(amount: real, share: real) returns (part: real)
    requires 0.0 <= amount && 0.0 <= share <= 1.0
    ensures part == share * amount
    ensures 0.0 <= part <= amount
  {
    part := share * amount;
    assert share * amount <= 1.0 * amount;
  }

  /**
   * With a tax rate between 0 and 100%, what is kept after tax lies between
   * the smaller of the value and the basis, and the value itself.
   */
  lemma AfterTaxBounds(v: real, invested: real, tax: real)
    requires 0.0 <= tax <= 1.0
    ensures Min(v, invested) <= AfterTaxValue(v, invested, tax) <= v
  {
    if v > invested {
      var kept := Portion(v - invested, 1.0 - tax);
      assert AfterTaxValue(v, invested, tax) == invested + kept;
    }
  }

  /** Selling larger holdings never leaves less after tax, for any rate up to 100%. */
  lemma AfterTaxMonotoneInValue(v: real, w: real, invested: real, tax: real)
    requires tax <= 1.0 && v <= w
    ensures AfterTaxValue(v, invested, tax) <= AfterTaxValue(w, invested, tax)
  {
    if v > invested {
      var kv, kw := ScaledPair(1.0 - tax, v - invested, w - invested);
      assert AfterTaxValue(v, invested, tax) == invested + kv;
      assert AfterTaxValue(w, invested, tax) == invested + kw;
    } else if w > invested {
      var k0, kw := ScaledPair(1.0 - tax, 0.0, w - invested);
      assert AfterTaxValue(w, invested, tax) == invested + kw;
    }
  }

  /** A larger cost basis leaves less gain to tax, so never less after tax. */
  lemma AfterTaxAntitoneInBasis(v: real, b1: real, b2: real, tax: real)
    requires 0.0 <= tax && b1 <= b2
    ensures AfterTaxValue(v, b1, tax) <= AfterTaxValue(v, b2, tax)
  {
    var g1, g2 := Max(0.0, v - b1), Max(0.0, v - b2);
    ScaleMonotone(g2, g1, tax);
    assert AfterTaxValue(v, b1, tax) == v - g1 * tax;
    assert AfterTaxValue(v, b2, tax) == v - g2 * tax;
  }

  /** `AfterTaxBounds` for every entry of a curve. */
  lemma AfterTaxBoundsAll(values: seq<real>, invested: real, tax: real)
    requires 0.0 <= tax <= 1.0
    ensures forall i :: 0 <= i < |values| ==>
      Min(values[i], invested) <= AfterTaxValue(values[i], invested, tax) <= values[i]
  {
    forall i | 0 <= i < |values| {
      AfterTaxBounds(values[i], invested, tax);
    }
  }

  /** With no contribution, every year of the curve is the initial amount compounded. */
  lemma ZeroContributionCurve(t: Terms, years: nat)
    requires t.contribution == 0.0
    ensures Invested(t, years) == t.initial
    ensures forall y :: 0 <= y <= years ==> Values(t, years)[y] == t.initial * Pow(NetFactor(t), y)
  {
    forall y | 0 <= y <= years {
      ZeroContributionCompounds(t, y);
    }
  }

  /**
   * The yearly loop shared by the three copies of `simulate_contract`: fills
   * a fresh array year by year and accumulates the amount invested, adding the
   * contribution only when it is non-zero.
   */
  method SimulateYears(t: Terms, years: int) returns (outcome: Simulation)
    ensures years < -1 <==> outcome == Failed(NegativeDimensions)
    ensures years == -1 <==> outcome == Failed(IndexOutOfBounds)
    ensures years >= 0 <==> outcome.Simulated?
    ensures outcome.Simulated? ==>
      fresh(outcome.values) &&
      outcome.values[..] == Values(t, years) &&
      outcome.invested == Invested(t, years)
  {
    if years < -1 {
      return Failed(NegativeDimensions);
    }
    var values := new real[years + 1];
    if years == -1 {
      return Failed(IndexOutOfBounds);
    }
    values[0] := t.initial;
    var invested := t.initial;
    for y := 1 to years + 1
      invariant forall k :: 0 <= k < y ==> values[k] == ValueAt(t, k)
      invariant invested == Invested(t, y - 1)
    {
      var prev := values[y - 1];
      var grown := prev * (1.0 + t.annualReturn);
      var afterSecurityFee := grown * (1.0 - t.securityFee);
      var v := afterSecurityFee * (1.0 - t.bankFee);
      FeesInOrder(t, prev, grown, afterSecurityFee, v);
      if t.contribution != 0.0 {
        v := v + t.contribution;
        invested := invested + t.contribution;
      }
      InvestedStep(t, y);
      values[y] := v;
    }
    assert values[..] == Values(t, years);
    outcome := Simulated(values, invested);
  }

  /**
   * The simulated curve read the way the source builds it: it starts at the
   * initial amount, and each year is `YearEnd` of the year before.
   */
  lemma CurveSteps(t: Terms, years: nat, values: seq<real>)
    requires values == Values(t, years)
    ensures |values| == years + 1 && values[0] == t.initial
    ensures forall y :: 1 <= y <= years ==> values[y] == YearEnd(t, values[y - 1])
  {
    forall y | 1 <= y <= years
      ensures values[y] == YearEnd(t, values[y - 1])
    {
      assert values[y] == ValueAt(t, y) && values[y - 1] == ValueAt(t, y - 1);
    }
  }

  /**
   * After-tax curve in which selling in year `y` is taxed against the amount
   * paid in by year `y` (not by the last year).
   */
  function AfterTaxByYear(t: Terms, years: nat, tax: real): (r: seq<real>)
    ensures |r| == years + 1
    ensures forall y :: 0 <= y <= years ==> r[y] == AfterTaxValue(ValueAt(t, y), Invested(t, y), tax)
  {
    seq(years + 1, y requires 0 <= y => AfterTaxValue(ValueAt(t, y), Invested(t, y), tax))
  }
}

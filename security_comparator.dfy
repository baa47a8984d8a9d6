/**
 * The fee/tax comparator's positional-argument simulation and its after-tax
 * curve (dashboard/security_comparator.py).
 */
module SecurityComparator {
  import opened ContractMath

  /**
   * Simulates `years` years of a contract. The result holds `years + 1`
   * yearly values starting at `initial`; each later year is `YearEnd` of the
   * previous one (the return, the security fee, the bank fee, and only then
   * the contribution). `invested` is the initial amount plus one contribution per
   * year. A negative horizon fails as numpy does.
   */
  method SimulateContract(initial: real, annualReturn: real, years: int, securityFee: real, bankFee: real,
                          yearlyContribution: real := 0.0)
    returns (outcome: Simulation)
    ensures years < -1 <==> outcome == Failed(NegativeDimensions)
    ensures years == -1 <==> outcome == Failed(IndexOutOfBounds)
    ensures years >= 0 <==> outcome.Simulated?
    ensures outcome.Simulated? ==> fresh(outcome.values)
    ensures outcome.Simulated? ==>
      var t := Terms(initial, annualReturn, securityFee, bankFee, yearlyContribution);
      outcome.values.Length == years + 1 &&
      outcome.values[0] == initial &&
      (forall y :: 1 <= y <= years ==>
        outcome.values[y] == YearEnd(t, outcome.values[y - 1])) &&
      outcome.invested == initial + (years as real) * yearlyContribution
    ensures outcome.Simulated? && yearlyContribution == 0.0 ==>
      var t := Terms(initial, annualReturn, securityFee, bankFee, yearlyContribution);
      outcome.invested == initial &&
      forall y :: 0 <= y <= years ==> outcome.values[y] == initial * Pow(NetFactor(t), y)
  {
    var t := Terms(initial, annualReturn, securityFee, bankFee, yearlyContribution);
    outcome := SimulateYears(t, years);
    if outcome.Simulated? {
      CurveSteps(t, years, outcome.values[..]);
      if yearlyContribution == 0.0 {
        ZeroContributionCurve(t, years);
      }
    }
  }

  /**
   * Value kept in each year if everything were sold then: capital-gains tax
   * is due only on the part of a year's value above `invested`.
   */
  function ComputeAfterTaxCurve(values: seq<real>, invested: real, capitalGainsTax: real): (afterTax: seq<real>)
    ensures |afterTax| == |values|
    ensures forall i :: 0 <= i < |values| && values[i] <= invested ==> afterTax[i] == values[i]
    ensures forall i :: 0 <= i < |values| && values[i] > invested ==>
      afterTax[i] == invested + (1.0 - capitalGainsTax) * (values[i] - invested)
    ensures 0.0 <= capitalGainsTax <= 1.0 ==>
      forall i :: 0 <= i < |values| ==> Min(values[i], invested) <= afterTax[i] <= values[i]
  {
    var afterTax := seq(|values|, i requires 0 <= i < |values| => AfterTaxValue(values[i], invested, capitalGainsTax));
    if 0.0 <= capitalGainsTax <= 1.0 then
      AfterTaxBoundsAll(values, invested, capitalGainsTax);
      afterTax
    else
      afterTax
  }

  /**
   * The curve above taxes every year against the amount invested over the
   * WHOLE horizon. Example: 1000 initially, 10% return, no fees, 1000 a
   * year, 2 years, 30% tax. Sold in year 1 the contract is worth 2100 against
   * 2000 paid in, a gain of 100; the curve compares 2100 with the final 3000
   * and keeps all 2100, where taxing the gain so far keeps 2070.
   */
  lemma FinalBasisUndertaxesEarlyYears()
    ensures var t := Terms(1000.0, 0.1, 0.0, 0.0, 1000.0);
      Values(t, 2) == [1000.0, 2100.0, 3310.0] &&
      Invested(t, 1) == 2000.0 && Invested(t, 2) == 3000.0 &&
      ComputeAfterTaxCurve(Values(t, 2), Invested(t, 2), 0.3)[1] == 2100.0 &&
      AfterTaxByYear(t, 2, 0.3)[1] == 2070.0
  {
    var t := Terms(1000.0, 0.1, 0.0, 0.0, 1000.0);
    assert ValueAt(t, 1) == 2100.0;
    assert ValueAt(t, 2) == 3310.0;
  }

  /**
   * With non-negative contributions the curve as written never keeps less
   * than the curve taxed against the amount paid in so far: it can only
   * undertax.
   */
  lemma AsWrittenNeverTaxesMore(t: Terms, years: nat, tax: real, y: nat)
    requires t.contribution >= 0.0 && tax >= 0.0 && y <= years
    ensures AfterTaxByYear(t, years, tax)[y] <= ComputeAfterTaxCurve(Values(t, years), Invested(t, years), tax)[y]
  {
    ProductMonotone(y as real, years as real, t.contribution, t.contribution);
    AfterTaxAntitoneInBasis(ValueAt(t, y), Invested(t, y), Invested(t, years), tax);
  }

  /** The two curves agree in the last year, and in every year when nothing is added after the start. */
  lemma CurvesAgreeAtHorizonOrWithoutContributions(t: Terms, years: nat, tax: real, y: nat)
    requires y == years || t.contribution == 0.0
    requires y <= years
    ensures AfterTaxByYear(t, years, tax)[y] == ComputeAfterTaxCurve(Values(t, years), Invested(t, years), tax)[y]
  {
    if t.contribution == 0.0 {
      ZeroContributionCompounds(t, y);
      ZeroContributionCompounds(t, years);
    }
  }
}

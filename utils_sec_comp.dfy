/**
 * The dictionary-driven copy of the simulation and after-tax curve used with the
 * contract forms that carry their own horizon (dashboard/utils_sec_comp.py).
 */
module SecCompUtils {
  import opened ContractMath

  /**
   * Simulates `contract.years` years of the contract dictionary: `years + 1`
   * values starting at `contract.initial`, each later one `YearEnd` of the
   * previous (return, security fee, bank fee, then the yearly investment), and
   * the total invested. A negative horizon fails as numpy does.
   */
  method SimulateContract(contract: Contract) returns (outcome: Simulation)
    ensures contract.years < -1 <==> outcome == Failed(NegativeDimensions)
    ensures contract.years == -1 <==> outcome == Failed(IndexOutOfBounds)
    ensures contract.years >= 0 <==> outcome.Simulated?
    ensures outcome.Simulated? ==> fresh(outcome.values)
    ensures outcome.Simulated? ==>
      outcome.values.Length == contract.years + 1 &&
      outcome.values[0] == contract.initial &&
      (forall y :: 1 <= y <= contract.years ==>
        outcome.values[y] == YearEnd(TermsOf(contract), outcome.values[y - 1])) &&
      outcome.invested == contract.initial + (contract.years as real) * contract.yearlyInvestment
    ensures outcome.Simulated? && contract.yearlyInvestment == 0.0 ==>
      outcome.invested == contract.initial &&
      forall y :: 0 <= y <= contract.years ==>
        outcome.values[y] == contract.initial * Pow(NetFactor(TermsOf(contract)), y)
  {
    outcome := SimulateYears(TermsOf(contract), contract.years);
    if outcome.Simulated? {
      CurveSteps(TermsOf(contract), contract.years, outcome.values[..]);
      if contract.yearlyInvestment == 0.0 {
        ZeroContributionCurve(TermsOf(contract), contract.years);
      }
    }
  }

  /**
   * Value kept in each year if everything were sold then: capital-gains tax
   * is due only on the part of a year's value above `invested`.
   */
  function ComputeAfterTaxCurve(values: seq<real>, invested: real, capitalGainsTax: real): (afterTax: seq<real>)
    ensures |afterTax| == |values|
    ensures forall i :: 0 <= i < |values| && values[i] <= invested ==> afterTax[i] == values[i]
    ensures forall i :: 0 <= i < |values| && values[i] > invested ==>
      afterTax[i] == invested + (1.0 - capitalGainsTax) * (values[i] - invested)
    ensures 0.0 <= capitalGainsTax <= 1.0 ==>
      forall i :: 0 <= i < |values| ==> Min(values[i], invested) <= afterTax[i] <= values[i]
  {
    var afterTax := seq(|values|, i requires 0 <= i < |values| => AfterTaxValue(values[i], invested, capitalGainsTax));
    if 0.0 <= capitalGainsTax <= 1.0 then
      AfterTaxBoundsAll(values, invested, capitalGainsTax);
      afterTax
    else
      afterTax
  }
}

/**
 * The figures of components/Portfolio.tsx: the estimated annual income over
 * all holdings and each holding's share of the invested capital.
 *
 * A share divides by the total invested; where that total is zero the source
 * produces NaN or an infinity, which the model keeps apart from finite values.
 */
module Portfolio {
  import opened Types

  /** `holdings.reduce((acc, h) => acc + h.totalInvested, 0)`. */
  function InvestedTotal(holdings: seq<Holding>): (r: real)
    ensures holdings == [] ==> r == 0.0
    decreases |holdings|
  {
    if holdings == [] then 0.0
    else InvestedTotal(holdings[..|holdings| - 1]) + holdings[|holdings| - 1].totalInvested
  }

  /**
   * `totalEstimatedAnnualIncome`: the estimated total dividends of all
   * holdings. The source's `|| 0` only replaces a missing estimate, which a
   * holding of this model always has.
   */
  function EstimatedAnnualIncome(holdings: seq<Holding>): (r: real)
    ensures holdings == [] ==> r == 0.0
    decreases |holdings|
  {
    if holdings == [] then 0.0
    else EstimatedAnnualIncome(holdings[..|holdings| - 1]) + holdings[|holdings| - 1].estimatedTotalDividend
  }

  /** No holdings: no capital and no income. */
  lemma EmptyPortfolio()
    ensures InvestedTotal([]) == 0.0 && EstimatedAnnualIncome([]) == 0.0
    ensures Allocations([]) == []
  {
  }

  /** With every estimate non-negative, so is the income. */
  lemma {:induction false} IncomeNonNegative(holdings: seq<Holding>)
    requires forall h :: h in holdings ==> h.estimatedTotalDividend >= 0.0
    ensures EstimatedAnnualIncome(holdings) >= 0.0
    decreases |holdings|
  {
    if holdings != [] {
      assert forall h :: h in holdings[..|holdings| - 1] ==> h in holdings;
      IncomeNonNegative(holdings[..|holdings| - 1]);
      assert holdings[|holdings| - 1] in holdings;
    }
  }

  /**
   * A percentage as the source's floating point produces it: a finite value,
   * or, after a division by zero, an infinity or NaN.
   */
  datatype Ratio = Finite(value: real) | PosInfinity | NegInfinity | NaN

  /** `(invested / total) * 100`, with the outcomes of a zero divisor. */
  function Share(invested: real, total: real): (r: Ratio)
    ensures r.Finite? <==> total != 0.0
    ensures r.Finite? ==> r.value * total == invested * 100.0
    ensures r == NaN <==> total == 0.0 && invested == 0.0
    ensures r == PosInfinity <==> total == 0.0 && invested > 0.0
  {
    if total == 0.0 then
      if invested == 0.0 then NaN
      else if invested > 0.0 then PosInfinity
      else NegInfinity
    else
      var q := invested / total;
      assert q * total == invested;
      Finite(q * 100.0)
  }

  /** The allocation column: each holding's share of the portfolio's total. */
  function Allocations(holdings: seq<Holding>): (r: seq<Ratio>)
    ensures |r| == |holdings|
    ensures forall i :: 0 <= i < |holdings| ==> r[i] == Share(holdings[i].totalInvested, InvestedTotal(holdings))
  {
    seq(|holdings|, i requires 0 <= i < |holdings| => Share(holdings[i].totalInvested, InvestedTotal(holdings)))
  }

  /** The sum of the shares of `holdings` against `total`. */
  function ShareSum(holdings: seq<Holding>, total: real): real
    requires total != 0.0
    decreases |holdings|
  {
    if holdings == [] then 0.0
    else ShareSum(holdings[..|holdings| - 1], total) + Share(holdings[|holdings| - 1].totalInvested, total).value
  }

  /** Shares against a fixed total add up to the part of the total the holdings make up. */
  lemma {:induction false} ShareSumScales(holdings: seq<Holding>, total: real)
    requires total != 0.0
    ensures ShareSum(holdings, total) * total == InvestedTotal(holdings) * 100.0
    decreases |holdings|
  {
    if holdings != [] {
      var p := holdings[..|holdings| - 1];
      var h := holdings[|holdings| - 1];
      ShareSumScales(p, total);
      var a, b := ShareSum(p, total), Share(h.totalInvested, total).value;
      assert a * total == InvestedTotal(p) * 100.0;
      assert b * total == h.totalInvested * 100.0;
      assert (a + b) * total == a * total + b * total;
    }
  }

  /** When the total is not zero, the allocations of all holdings add up to 100. */
  lemma AllocationsSumTo100(holdings: seq<Holding>)
    requires InvestedTotal(holdings) != 0.0
    ensures ShareSum(holdings, InvestedTotal(holdings)) == 100.0
  {
    var t := InvestedTotal(holdings);
    ShareSumScales(holdings, t);
    var s := ShareSum(holdings, t);
    assert s * t == InvestedTotal(holdings) * 100.0;
    assert s * t - 100.0 * t == 0.0;
    ZeroProduct(s - 100.0, t);
  }

  lemma ZeroProduct(a: real, t: real)
    requires t != 0.0 && a * t == 0.0
    ensures a == 0.0
  {
  }

  /** With no negative investment, each holding's investment is at most the total. */
  lemma {:induction false} MemberAtMostTotal(holdings: seq<Holding>, i: nat)
    requires i < |holdings|
    requires forall h :: h in holdings ==> h.totalInvested >= 0.0
    ensures 0.0 <= holdings[i].totalInvested <= InvestedTotal(holdings)
    decreases |holdings|
  {
    var p := holdings[..|holdings| - 1];
    assert forall h :: h in p ==> h in holdings;
    if i < |p| {
      MemberAtMostTotal(p, i);
      assert holdings[|holdings| - 1] in holdings;
    } else {
      TotalNonNegative(p);
    }
  }

  lemma {:induction false} TotalNonNegative(holdings: seq<Holding>)
    requires forall h :: h in holdings ==> h.totalInvested >= 0.0
    ensures InvestedTotal(holdings) >= 0.0
    decreases |holdings|
  {
    if holdings != [] {
      assert forall h :: h in holdings[..|holdings| - 1] ==> h in holdings;
      TotalNonNegative(holdings[..|holdings| - 1]);
      assert holdings[|holdings| - 1] in holdings;
    }
  }

  /** A share of a non-negative part of a positive total lies between 0 and 100. */
  lemma ShareBounds(invested: real, total: real)
    requires 0.0 <= invested <= total && total > 0.0
    ensures 0.0 <= Share(invested, total).value <= 100.0
  {
    var v := Share(invested, total).value;
    assert v * total == invested * 100.0;
  }

  /** With a positive total and no negative investment, every allocation lies in [0, 100]. */
  lemma AllocationsInRange(holdings: seq<Holding>)
    requires InvestedTotal(holdings) > 0.0
    requires forall h :: h in holdings ==> h.totalInvested >= 0.0
    ensures forall a :: a in Allocations(holdings) ==> a.Finite? && 0.0 <= a.value <= 100.0
  {
    var r := Allocations(holdings);
    forall a | a in r ensures a.Finite? && 0.0 <= a.value <= 100.0 {
      var i :| 0 <= i < |r| && r[i] == a;
      MemberAtMostTotal(holdings, i);
      ShareBounds(holdings[i].totalInvested, InvestedTotal(holdings));
    }
  }
}

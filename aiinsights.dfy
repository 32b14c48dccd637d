/**
 * The portfolio health report of components/AIInsights.tsx: the largest
 * position, the average and the largest allocation, the concentration label,
 * the concentration warning and the efficiency score.
 */
module AIInsights {
  import opened Types
  import opened TradeOrder
  import opened Portfolio

  /** The comparator `b.totalInvested - a.totalInvested`: larger investment first. */
  predicate InvestedGeq(a: Holding, b: Holding) {
    a.totalInvested >= b.totalInvested
  }

  lemma InvestedGeqTotalPreorder()
    ensures TotalPreorder(InvestedGeq)
  {
  }

  /** The head of a sorted copy of the holdings, or nothing when there are none. */
  function TopHolding(holdings: seq<Holding>): (r: Option<Holding>)
    ensures r.None? <==> holdings == []
    ensures r.Some? ==> r.value in holdings
  {
    if holdings == [] then None
    else
      SortByMembers(holdings, InvestedGeq);
      Some(SortBy(holdings, InvestedGeq)[0])
  }

  /**
   * There is a top holding exactly when there are holdings; it is one of
   * them, none has more invested, and every holding before it has less.
   */
  lemma TopHoldingSpec(holdings: seq<Holding>)
    ensures TopHolding(holdings).None? <==> holdings == []
    ensures holdings != [] ==>
              exists i :: 0 <= i < |holdings| && TopHolding(holdings).value == holdings[i]
                && (forall j :: 0 <= j < |holdings| ==> holdings[j].totalInvested <= holdings[i].totalInvested)
                && (forall j :: 0 <= j < i ==> holdings[j].totalInvested < holdings[i].totalInvested)
  {
    if holdings != [] {
      InvestedGeqTotalPreorder();
      SortByHead(holdings, InvestedGeq);
    }
  }

  /** The index of the top holding in the input. */
  lemma TopHoldingIndex(holdings: seq<Holding>) returns (i: nat)
    requires holdings != []
    ensures i < |holdings| && TopHolding(holdings) == Some(holdings[i])
    ensures forall h :: h in holdings ==> h.totalInvested <= holdings[i].totalInvested
  {
    TopHoldingSpec(holdings);
    i :| 0 <= i < |holdings| && TopHolding(holdings).value == holdings[i]
      && (forall j :: 0 <= j < |holdings| ==> holdings[j].totalInvested <= holdings[i].totalInvested);
    forall h | h in holdings ensures h.totalInvested <= holdings[i].totalInvested {
      var j :| 0 <= j < |holdings| && holdings[j] == h;
    }
  }

  /** The largest allocation is the share of the top holding, found at index `i`. */
  lemma MaxAllocationIndex(holdings: seq<Holding>) returns (i: nat)
    requires holdings != []
    ensures i < |holdings| && MaxAllocation(holdings) == Share(holdings[i].totalInvested, InvestedTotal(holdings))
    ensures forall h :: h in holdings ==> h.totalInvested <= holdings[i].totalInvested
  {
    i := TopHoldingIndex(holdings);
  }

  /**
   * The number of holdings, counted in the reals; it keeps the arithmetic
   * below free of integer-to-real conversions.
   */
  function Count(holdings: seq<Holding>): (r: real)
    ensures r >= 0.0
    decreases |holdings|
  {
    if holdings == [] then 0.0 else Count(holdings[..|holdings| - 1]) + 1.0
  }

  lemma {:induction false} CountIsLength(holdings: seq<Holding>)
    ensures Count(holdings) == |holdings| as real
    decreases |holdings|
  {
    if holdings != [] {
      CountIsLength(holdings[..|holdings| - 1]);
    }
  }

  /** `100 / holdings.length`, or 0 with no holdings. */
  function AvgAllocation(holdings: seq<Holding>): (r: real)
    ensures holdings == [] ==> r == 0.0
    ensures holdings != [] ==> r * Count(holdings) == 100.0 && r > 0.0
  {
    if holdings == [] then 0.0
    else
      var n := |holdings| as real;
      assert 100.0 / n * n == 100.0;
      CountIsLength(holdings);
      100.0 / n
  }

  /** The top holding's share of the total invested, or 0 with no top holding. */
  function MaxAllocation(holdings: seq<Holding>): (r: Ratio)
    ensures holdings == [] ==> r == Finite(0.0)
  {
    match TopHolding(holdings)
    case None => Finite(0.0)
    case Some(top) => Share(top.totalInvested, InvestedTotal(holdings))
  }

  /** `x > bound` on a floating-point percentage: NaN and minus infinity exceed nothing. */
  predicate Exceeds(x: Ratio, bound: real) {
    match x
    case Finite(v) => v > bound
    case PosInfinity => true
    case NegInfinity => false
    case NaN => false
  }

  const MODERATE: string := "Moderate"
  const HEALTHY: string := "Healthy"

  /** The concentration risk label. */
  function ConcentrationLabel(maxAllocation: Ratio): (r: string)
    ensures r == MODERATE <==> Exceeds(maxAllocation, 30.0)
    ensures r == HEALTHY <==> !Exceeds(maxAllocation, 30.0)
  {
    if Exceeds(maxAllocation, 30.0) then MODERATE else HEALTHY
  }

  /** Whether the high-concentration warning is shown. */
  predicate ShowsWarning(maxAllocation: Ratio) {
    Exceeds(maxAllocation, 40.0)
  }

  /** A warning is only ever shown next to the 'Moderate' label. */
  lemma WarningImpliesModerate(maxAllocation: Ratio)
    requires ShowsWarning(maxAllocation)
    ensures ConcentrationLabel(maxAllocation) == MODERATE
  {
  }

  /** `100 - maxAllocation + avgAllocation` in floating point. */
  function EfficiencyScore(maxAllocation: Ratio, avgAllocation: real): (r: Ratio)
    ensures maxAllocation.Finite? <==> r.Finite?
    ensures r.Finite? ==> r.value + maxAllocation.value == 100.0 + avgAllocation
    ensures maxAllocation == PosInfinity <==> r == NegInfinity
    ensures maxAllocation == NaN <==> r == NaN
  {
    match maxAllocation
    case Finite(v) => Finite(100.0 - v + avgAllocation)
    case PosInfinity => NegInfinity
    case NegInfinity => PosInfinity
    case NaN => NaN
  }

  /** No holding above `m` means the total is at most `m` per holding. */
  lemma {:induction false} TotalAtMostCountTimesMax(holdings: seq<Holding>, m: real)
    requires forall h :: h in holdings ==> h.totalInvested <= m
    ensures InvestedTotal(holdings) <= Count(holdings) * m
    decreases |holdings|
  {
    if holdings != [] {
      var p := holdings[..|holdings| - 1];
      assert forall h :: h in p ==> h in holdings;
      TotalAtMostCountTimesMax(p, m);
      assert holdings[|holdings| - 1] in holdings;
      assert Count(holdings) * m == Count(p) * m + m;
    }
  }

  /** The largest allocation is never minus infinity: a negative top makes a negative total. */
  lemma MaxAllocationNotNegInfinity(holdings: seq<Holding>)
    ensures MaxAllocation(holdings) != NegInfinity
  {
    if holdings != [] {
      var i := TopHoldingIndex(holdings);
      var top := holdings[i].totalInvested;
      TotalAtMostCountTimesMax(holdings, top);
      if top < 0.0 {
        CountIsLength(holdings);
        NegativeScaled(Count(holdings), top);
      }
    }
  }

  lemma NegativeScaled(n: real, m: real)
    requires n >= 1.0 && m < 0.0
    ensures n * m < 0.0
  {
  }

  /**
   * The share of `top` in `total` is finite and between `avg = 100 / n` and
   * 100 when `top` is part of the total and `total <= n * top`.
   */
  lemma ShareBetween(avg: real, n: real, top: real, total: real)
    requires avg >= 0.0 && avg * n == 100.0
    requires 0.0 <= top <= total && total > 0.0 && total <= n * top
    ensures Share(top, total).Finite?
    ensures avg <= Share(top, total).value <= 100.0
  {
    var v := Share(top, total).value;
    assert v * total == top * 100.0;
    ShareBounds(top, total);
    assert avg * total <= avg * (n * top);
    assert avg * (n * top) == (avg * n) * top;
    CancelLeq(avg, v, total);
  }

  lemma CancelLeq(a: real, b: real, c: real)
    requires a * c <= b * c && c > 0.0
    ensures a <= b
  {
  }

  /** The average allocation is at most the share of a holding that no holding exceeds. */
  lemma AverageAtMostTopShare(holdings: seq<Holding>, top: real)
    requires holdings != []
    requires 0.0 <= top <= InvestedTotal(holdings) && InvestedTotal(holdings) > 0.0
    requires InvestedTotal(holdings) <= Count(holdings) * top
    ensures Share(top, InvestedTotal(holdings)).Finite?
    ensures AvgAllocation(holdings) <= Share(top, InvestedTotal(holdings)).value <= 100.0
  {
    ShareBetween(AvgAllocation(holdings), Count(holdings), top, InvestedTotal(holdings));
  }

  /**
   * With no negative investment and a positive total, the largest allocation
   * is a finite percentage between the average allocation and 100.
   */
  lemma MaxAllocationBounds(holdings: seq<Holding>)
    requires forall h :: h in holdings ==> h.totalInvested >= 0.0
    requires InvestedTotal(holdings) > 0.0
    ensures MaxAllocation(holdings).Finite?
    ensures AvgAllocation(holdings) <= MaxAllocation(holdings).value <= 100.0
  {
    assert holdings != [];
    var i := MaxAllocationIndex(holdings);
    var top := holdings[i].totalInvested;
    MemberAtMostTotal(holdings, i);
    TotalAtMostCountTimesMax(holdings, top);
    AverageAtMostTopShare(holdings, top);
  }

  /**
   * Under the same conditions the efficiency score is finite and lies between
   * the average allocation and 100.
   */
  lemma EfficiencyScoreBounds(holdings: seq<Holding>)
    requires forall h :: h in holdings ==> h.totalInvested >= 0.0
    requires InvestedTotal(holdings) > 0.0
    ensures EfficiencyScore(MaxAllocation(holdings), AvgAllocation(holdings)).Finite?
    ensures AvgAllocation(holdings) <= EfficiencyScore(MaxAllocation(holdings), AvgAllocation(holdings)).value <= 100.0
  {
    MaxAllocationBounds(holdings);
  }

  /**
   * With no holdings there is no top and both allocations are 0; those are
   * the values computed before the report returns its placeholder. The label,
   * warning and score functions would give 'Healthy', none and 100, but the
   * report renders none of them then.
   */
  lemma EmptyReport()
    ensures TopHolding([]) == None
    ensures AvgAllocation([]) == 0.0 && MaxAllocation([]) == Finite(0.0)
    ensures ConcentrationLabel(MaxAllocation([])) == HEALTHY && !ShowsWarning(MaxAllocation([]))
    ensures EfficiencyScore(MaxAllocation([]), AvgAllocation([])) == Finite(100.0)
  {
  }

  /** A single funded position is the whole portfolio: 'Moderate', warned, a score of 100. */
  lemma SingleHoldingReport(h: Holding)
    requires h.totalInvested > 0.0
    ensures TopHolding([h]) == Some(h)
    ensures AvgAllocation([h]) == 100.0 && MaxAllocation([h]) == Finite(100.0)
    ensures ConcentrationLabel(MaxAllocation([h])) == MODERATE && ShowsWarning(MaxAllocation([h]))
    ensures EfficiencyScore(MaxAllocation([h]), AvgAllocation([h])) == Finite(100.0)
  {
    assert [h][..0] == [];
    assert InvestedTotal([h]) == h.totalInvested;
    var v := Share(h.totalInvested, h.totalInvested).value;
    assert v * h.totalInvested == h.totalInvested * 100.0;
    CancelLeq(v, 100.0, h.totalInvested);
    CancelLeq(100.0, v, h.totalInvested);
  }
}

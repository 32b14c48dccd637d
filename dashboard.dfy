/**
 * The performance ledger of components/Dashboard.tsx: the year of a date,
 * a cost-basis fold of its own that realizes a gain on every covered SELL,
 * per-year buckets of gains and dividends, lifetime totals and a running
 * cumulative profit over the sorted years; then the ratios shown on the
 * summary cards and the allocation chart's data.
 *
 * The wall clock enters as parameters: `currentYear` (also the fallback of
 * `getYearFromDate`), `prevYear` and `monthsPassed`.
 */
module Dashboard {
  import opened Types
  import opened TradeOrder

  // ---------------------------------------------------------------------
  // getYearFromDate (components/Dashboard.tsx:49-52)
  // ---------------------------------------------------------------------

  /** `\d`: an ASCII decimal digit. */
  predicate IsDigit(c: char) {
    '0' <= c <= '9'
  }

  /** Four consecutive digits start at `i`. */
  predicate DigitRunAt(s: string, i: int) {
    0 <= i && i + 4 <= |s| && IsDigit(s[i]) && IsDigit(s[i + 1]) && IsDigit(s[i + 2]) && IsDigit(s[i + 3])
  }

  /** The leftmost position at or after `from` where four digits start, as `/(\d{4})/` scans. */
  function FirstDigitRun(s: string, from: nat): (r: Option<nat>)
    requires from <= |s|
    ensures r.Some? ==> from <= r.value && DigitRunAt(s, r.value)
    ensures r.Some? ==> forall j :: from <= j < r.value ==> !DigitRunAt(s, j)
    ensures r.None? ==> forall j :: from <= j ==> !DigitRunAt(s, j)
    decreases |s| - from
  {
    if from + 4 > |s| then None
    else if DigitRunAt(s, from) then Some(from)
    else FirstDigitRun(s, from + 1)
  }

  /**
   * The first four-digit run of the date, or the current year when there is
   * none.
   */
  function GetYearFromDate(date: string, currentYear: string): string {
    match FirstDigitRun(date, 0)
    case Some(i) => date[i..i + 4]
    case None => currentYear
  }

  /**
   * The year is the leftmost run of four digits in the date, and the current
   * year exactly when the date has no such run.
   */
  lemma GetYearFromDateSpec(date: string, currentYear: string)
    ensures forall i :: DigitRunAt(date, i) && (forall j :: 0 <= j < i ==> !DigitRunAt(date, j))
              ==> GetYearFromDate(date, currentYear) == date[i..i + 4]
    ensures (forall i :: !DigitRunAt(date, i)) ==> GetYearFromDate(date, currentYear) == currentYear
  {
    match FirstDigitRun(date, 0)
    case Some(i) =>
    case None =>
  }

  /** An ISO date yields its year; a date with no four digits yields the current year. */
  lemma GetYearExamples()
    ensures GetYearFromDate("2024-03-15", "2026") == "2024"
    ensures GetYearFromDate("15/03/2024", "2026") == "2024"
    ensures GetYearFromDate("n/a", "2026") == "2026"
  {
    assert DigitRunAt("2024-03-15", 0);
    assert DigitRunAt("15/03/2024", 6);
    assert forall j :: 0 <= j < 6 ==> !DigitRunAt("15/03/2024", j);
  }

  // ---------------------------------------------------------------------
  // Records of the ledger.
  // ---------------------------------------------------------------------

  /** One bucket of `years`. */
  datatype YearStats = YearStats(dividend: real, capitalGain: real)

  /** One row of `yearlyData`. */
  datatype YearRow = YearRow(year: string, dividend: real, capitalGain: real, cumulativeProfit: real)

  /** The memo's result. */
  datatype Ledger = Ledger(
    yearlyData: seq<YearRow>,
    currentYearStats: YearStats,
    prevYearStats: YearStats,
    totalStats: YearStats)

  /** One entry of `costBasisMap`. */
  datatype Basis = Basis(qty: real, totalCost: real)

  /** An amount credited to a year's bucket. */
  datatype Entry = Entry(year: string, amount: real)

  const Zero: YearStats := YearStats(0.0, 0.0)

  // ---------------------------------------------------------------------
  // Year keys (components/Dashboard.tsx:64-71, 110).
  // ---------------------------------------------------------------------

  function TxYears(txs: seq<Transaction>, currentYear: string): (r: seq<string>)
    ensures |r| == |txs|
    ensures forall i :: 0 <= i < |txs| ==> r[i] == GetYearFromDate(txs[i].date, currentYear)
  {
    seq(|txs|, i requires 0 <= i < |txs| => GetYearFromDate(txs[i].date, currentYear))
  }

  function DividendYears(divs: seq<Dividend>, currentYear: string): (r: seq<string>)
    ensures |r| == |divs|
    ensures forall i :: 0 <= i < |divs| ==> r[i] == GetYearFromDate(divs[i].date, currentYear)
  {
    seq(|divs|, i requires 0 <= i < |divs| => GetYearFromDate(divs[i].date, currentYear))
  }

  /** The keys of `years` after creating a bucket for each of `ys` that has none. */
  function Register(keys: seq<string>, ys: seq<string>): (r: seq<string>)
    ensures Distinct(keys) ==> Distinct(r)
    ensures forall y :: y in r <==> y in keys || y in ys
    decreases |ys|
  {
    if ys == [] then keys
    else
      var rest := Register(keys, ys[..|ys| - 1]);
      assert ys == ys[..|ys| - 1] + [ys[|ys| - 1]];
      if ys[|ys| - 1] in rest then rest else rest + [ys[|ys| - 1]]
  }

  lemma RegisterStep(keys: seq<string>, ys: seq<string>, i: nat)
    requires i < |ys|
    ensures Register(keys, ys[..i + 1])
            == if ys[i] in Register(keys, ys[..i]) then Register(keys, ys[..i]) else Register(keys, ys[..i]) + [ys[i]]
  {
    assert ys[..i + 1][..i] == ys[..i];
  }

  /** Every year that occurs in a trade or dividend date, once each, in creation order. */
  function YearKeys(txs: seq<Transaction>, divs: seq<Dividend>, currentYear: string): seq<string> {
    Register(Register([], TxYears(txs, currentYear)), DividendYears(divs, currentYear))
  }

  /** `Object.keys(years).sort()`. */
  function SortedYears(txs: seq<Transaction>, divs: seq<Dividend>, currentYear: string): seq<string> {
    SortBy(YearKeys(txs, divs, currentYear), StrLeq)
  }

  // ---------------------------------------------------------------------
  // The cost-basis fold (components/Dashboard.tsx:78-100).
  // ---------------------------------------------------------------------

  /** Every tracked quantity is non-negative. */
  ghost predicate ValidBasis(basis: map<string, Basis>) {
    forall k :: k in basis ==> basis[k].qty >= 0.0
  }

  /** The gain a SELL realizes against a tracker holding shares. */
  function SellGain(b: Basis, t: Transaction): real
    requires b.qty > 0.0 && t.quantity > 0.0
  {
    var avgPrice := b.totalCost / b.qty;
    var actualSoldQty := Min(t.quantity, b.qty);
    var netProceeds := t.price * actualSoldQty - t.fees * (actualSoldQty / t.quantity);
    netProceeds - avgPrice * actualSoldQty
  }

  /** The tracker after that SELL: fewer shares at the same average price. */
  function AfterSell(b: Basis, t: Transaction): (r: Basis)
    requires b.qty > 0.0 && t.quantity > 0.0
    ensures 0.0 <= r.qty <= b.qty
  {
    var avgPrice := b.totalCost / b.qty;
    var remaining := b.qty - Min(t.quantity, b.qty);
    Basis(remaining, remaining * avgPrice)
  }

  /** `costBasisMap` and the gains credited so far. */
  datatype Tracker = Tracker(basis: map<string, Basis>, gains: seq<Entry>)

  /**
   * One trade of the fold. A BUY accumulates; a SELL against a tracker with
   * shares realizes a gain; any other trade changes nothing.
   */
  function Track(tr: Tracker, t: Transaction, currentYear: string): (r: Tracker)
    requires ValidBasis(tr.basis) && t.quantity > 0.0
    ensures ValidBasis(r.basis)
  {
    if t.kind == BUY then
      var b := if t.ticker in tr.basis then tr.basis[t.ticker] else Basis(0.0, 0.0);
      Tracker(tr.basis[t.ticker := Basis(b.qty + t.quantity, b.totalCost + (t.quantity * t.price + t.fees))], tr.gains)
    else if t.kind == SELL && t.ticker in tr.basis && tr.basis[t.ticker].qty > 0.0 then
      var b := tr.basis[t.ticker];
      var yr := GetYearFromDate(t.date, currentYear);
      Tracker(tr.basis[t.ticker := AfterSell(b, t)], tr.gains + [Entry(yr, SellGain(b, t))])
    else tr
  }

  /** A BUY of a tracked ticker adds its quantity and its cost, fee included, to the tracker. */
  lemma TrackBuyTracked(m: map<string, Basis>, gains: seq<Entry>, t: Transaction, currentYear: string)
    requires ValidBasis(m) && t.quantity > 0.0 && t.kind == BUY && t.ticker in m
    ensures Track(Tracker(m, gains), t, currentYear).gains == gains
    ensures Track(Tracker(m, gains), t, currentYear).basis
            == m[t.ticker := Basis(m[t.ticker].qty + t.quantity, m[t.ticker].totalCost + (t.quantity * t.price + t.fees))]
  {
    var r := Track(Tracker(m, gains), t, currentYear);
    assert r.basis[t.ticker].qty == m[t.ticker].qty + t.quantity;
    assert r.basis[t.ticker].totalCost == m[t.ticker].totalCost + (t.quantity * t.price + t.fees);
    assert r.basis.Keys == m.Keys;
    assert forall k :: k in m && k != t.ticker ==> r.basis[k] == m[k];
  }

  /** A BUY of an untracked ticker starts its tracker at the trade's quantity and cost. */
  lemma TrackBuyUntracked(m: map<string, Basis>, gains: seq<Entry>, t: Transaction, currentYear: string)
    requires ValidBasis(m) && t.quantity > 0.0 && t.kind == BUY && t.ticker !in m
    ensures Track(Tracker(m, gains), t, currentYear).gains == gains
    ensures Track(Tracker(m, gains), t, currentYear).basis == m[t.ticker := Basis(t.quantity, t.quantity * t.price + t.fees)]
  {
    var r := Track(Tracker(m, gains), t, currentYear);
    assert r.basis[t.ticker].qty == t.quantity;
    assert r.basis[t.ticker].totalCost == t.quantity * t.price + t.fees;
    assert r.basis.Keys == m.Keys + {t.ticker};
    assert forall k :: k in m ==> r.basis[k] == m[k];
  }

  /** The fold over trades `s`, in the order given. */
  function TrackerOf(s: seq<Transaction>, currentYear: string): (r: Tracker)
    requires AllPositive(s)
    ensures ValidBasis(r.basis)
    ensures forall e :: e in r.gains ==> exists t :: t in s && e.year == GetYearFromDate(t.date, currentYear)
    decreases |s|
  {
    if s == [] then Tracker(map[], [])
    else
      assert forall t :: t in s[..|s| - 1] ==> t in s;
      Track(TrackerOf(s[..|s| - 1], currentYear), s[|s| - 1], currentYear)
  }

  /** The gains of the fold over the trades in fold order. */
  function GainEntries(txs: seq<Transaction>, currentYear: string): seq<Entry>
    requires AllPositive(txs)
  {
    TrackerOf(FoldOrder(txs), currentYear).gains
  }

  /** One entry per dividend, in list order. */
  function DividendEntries(divs: seq<Dividend>, currentYear: string): (r: seq<Entry>)
    ensures |r| == |divs|
    ensures forall i :: 0 <= i < |divs| ==> r[i] == Entry(GetYearFromDate(divs[i].date, currentYear), divs[i].amount)
  {
    seq(|divs|, i requires 0 <= i < |divs| => Entry(GetYearFromDate(divs[i].date, currentYear), divs[i].amount))
  }

  // ---------------------------------------------------------------------
  // Sums.
  // ---------------------------------------------------------------------

  lemma TrackerOfStep(s: seq<Transaction>, i: nat, currentYear: string)
    requires AllPositive(s) && i < |s|
    ensures AllPositive(s[..i]) && AllPositive(s[..i + 1])
    ensures TrackerOf(s[..i + 1], currentYear) == Track(TrackerOf(s[..i], currentYear), s[i], currentYear)
  {
    assert forall t :: t in s[..i + 1] ==> t in s;
    assert s[..i + 1][..i] == s[..i];
  }

  /** The amounts of `es` credited to `year`. */
  function YearTotal(es: seq<Entry>, year: string): real
    decreases |es|
  {
    if es == [] then 0.0
    else YearTotal(es[..|es| - 1], year) + (if es[|es| - 1].year == year then es[|es| - 1].amount else 0.0)
  }

  /** All amounts of `es`. */
  function Total(es: seq<Entry>): real
    decreases |es|
  {
    if es == [] then 0.0 else Total(es[..|es| - 1]) + es[|es| - 1].amount
  }

  lemma AppendEntry(es: seq<Entry>, e: Entry)
    ensures forall y :: YearTotal(es + [e], y) == YearTotal(es, y) + (if e.year == y then e.amount else 0.0)
    ensures Total(es + [e]) == Total(es) + e.amount
  {
    assert (es + [e])[..|es|] == es;
  }

  /** The sum of one column of the table: the year totals over `years`. */
  function ColumnTotal(years: seq<string>, es: seq<Entry>): real
    decreases |years|
  {
    if years == [] then 0.0 else ColumnTotal(years[..|years| - 1], es) + YearTotal(es, years[|years| - 1])
  }

  /** The profit accumulated over `years`: each year's dividends plus gains. */
  function Cumulative(years: seq<string>, dividends: seq<Entry>, gains: seq<Entry>): real
    decreases |years|
  {
    if years == [] then 0.0
    else
      var y := years[|years| - 1];
      Cumulative(years[..|years| - 1], dividends, gains) + (YearTotal(dividends, y) + YearTotal(gains, y))
  }

  /** The bucket of `year`, or the zero default when the year has no bucket. */
  function StatsFor(years: seq<string>, dividends: seq<Entry>, gains: seq<Entry>, year: string): YearStats {
    if year in years then YearStats(YearTotal(dividends, year), YearTotal(gains, year)) else Zero
  }

  /** `yearlyDataArray`: one row per year, built front to back. */
  function Rows(years: seq<string>, dividends: seq<Entry>, gains: seq<Entry>): (r: seq<YearRow>)
    ensures |r| == |years|
    decreases |years|
  {
    if years == [] then []
    else
      var y := years[|years| - 1];
      Rows(years[..|years| - 1], dividends, gains)
        + [YearRow(y, YearTotal(dividends, y), YearTotal(gains, y), Cumulative(years, dividends, gains))]
  }

  /**
   * Row `i` is year `i` with its two bucket totals and the profit
   * accumulated over years `0..i`.
   */
  lemma {:induction false} RowsAt(years: seq<string>, dividends: seq<Entry>, gains: seq<Entry>)
    ensures forall i :: 0 <= i < |years| ==>
              Rows(years, dividends, gains)[i]
              == YearRow(years[i], YearTotal(dividends, years[i]), YearTotal(gains, years[i]),
                         Cumulative(years[..i + 1], dividends, gains))
    decreases |years|
  {
    if years != [] {
      var p := years[..|years| - 1];
      RowsAt(p, dividends, gains);
      forall j | 0 < j <= |p| ensures p[..j] == years[..j] {
      }
      assert years[..|years|] == years;
    }
  }

  /** The ledger memo (components/Dashboard.tsx:59-127). */
  function LedgerOf(txs: seq<Transaction>, divs: seq<Dividend>, currentYear: string, prevYear: string): Ledger
    requires AllPositive(txs)
  {
    var years := SortedYears(txs, divs, currentYear);
    var gains := GainEntries(txs, currentYear);
    var dividends := DividendEntries(divs, currentYear);
    Ledger(
      Rows(years, dividends, gains),
      StatsFor(years, dividends, gains, currentYear),
      StatsFor(years, dividends, gains, prevYear),
      YearStats(Total(dividends), Total(gains)))
  }

  // ---------------------------------------------------------------------
  // The memo, step by step.
  // ---------------------------------------------------------------------

  /** The first loop: an empty bucket for the year of every trade (components/Dashboard.tsx:64-67). */
  method RegisterTradeYears(keys0: seq<string>, years0: map<string, YearStats>, txs: seq<Transaction>, currentYear: string)
    returns (keys: seq<string>, years: map<string, YearStats>)
    requires forall k :: k in years0 <==> k in keys0
    requires forall k :: k in years0 ==> years0[k] == Zero
    ensures keys == Register(keys0, TxYears(txs, currentYear))
    ensures forall k :: k in years <==> k in keys
    ensures forall k :: k in years ==> years[k] == Zero
  {
    ghost var ys := TxYears(txs, currentYear);
    keys, years := keys0, years0;
    var i := 0;
    while i < |txs|
      invariant 0 <= i <= |txs|
      invariant keys == Register(keys0, ys[..i])
      invariant forall k :: k in years <==> k in keys
      invariant forall k :: k in years ==> years[k] == Zero
    {
      var yr := GetYearFromDate(txs[i].date, currentYear);
      RegisterStep(keys0, ys, i);
      if yr !in years {
        years := years[yr := Zero];
        keys := keys + [yr];
      }
      i := i + 1;
    }
    assert ys[..|txs|] == ys;
  }

  /** The second loop: an empty bucket for the year of every dividend (components/Dashboard.tsx:68-71). */
  method RegisterDividendYears(keys0: seq<string>, years0: map<string, YearStats>, divs: seq<Dividend>, currentYear: string)
    returns (keys: seq<string>, years: map<string, YearStats>)
    requires forall k :: k in years0 <==> k in keys0
    requires forall k :: k in years0 ==> years0[k] == Zero
    ensures keys == Register(keys0, DividendYears(divs, currentYear))
    ensures forall k :: k in years <==> k in keys
    ensures forall k :: k in years ==> years[k] == Zero
  {
    ghost var ys := DividendYears(divs, currentYear);
    keys, years := keys0, years0;
    var j := 0;
    while j < |divs|
      invariant 0 <= j <= |divs|
      invariant keys == Register(keys0, ys[..j])
      invariant forall k :: k in years <==> k in keys
      invariant forall k :: k in years ==> years[k] == Zero
    {
      var yr := GetYearFromDate(divs[j].date, currentYear);
      RegisterStep(keys0, ys, j);
      if yr !in years {
        years := years[yr := Zero];
        keys := keys + [yr];
      }
      j := j + 1;
    }
    assert ys[..|divs|] == ys;
  }

  /** Capital gains are the stored buckets plus the gains credited so far. */
  ghost predicate CreditedGains(years: map<string, YearStats>, years0: map<string, YearStats>, gains: seq<Entry>) {
    && years.Keys == years0.Keys
    && forall k :: k in years ==> years[k] == years0[k].(capitalGain := years0[k].capitalGain + YearTotal(gains, k))
  }

  /** One iteration of the cost-basis loop (components/Dashboard.tsx:79-99). */
  method TrackTrade(costBasisMap0: map<string, Basis>, years1: map<string, YearStats>, allTime0: real,
                    t: Transaction, currentYear: string,
                    ghost years0: map<string, YearStats>, ghost gains0: seq<Entry>)
    returns (costBasisMap: map<string, Basis>, years: map<string, YearStats>, allTimeRealizedGain: real,
             ghost gains: seq<Entry>)
    requires ValidBasis(costBasisMap0) && t.quantity > 0.0
    requires GetYearFromDate(t.date, currentYear) in years0
    requires CreditedGains(years1, years0, gains0) && allTime0 == Total(gains0)
    ensures Tracker(costBasisMap, gains) == Track(Tracker(costBasisMap0, gains0), t, currentYear)
    ensures CreditedGains(years, years0, gains) && allTimeRealizedGain == Total(gains)
  {
    costBasisMap, years, allTimeRealizedGain, gains := costBasisMap0, years1, allTime0, gains0;
    var yr := GetYearFromDate(t.date, currentYear);
    if t.kind == BUY {
      if t.ticker !in costBasisMap {
        costBasisMap := costBasisMap[t.ticker := Basis(0.0, 0.0)];
        TrackBuyUntracked(costBasisMap0, gains0, t, currentYear);
      } else {
        TrackBuyTracked(costBasisMap0, gains0, t, currentYear);
      }
      costBasisMap := costBasisMap[t.ticker := costBasisMap[t.ticker].(qty := costBasisMap[t.ticker].qty + t.quantity)];
      costBasisMap := costBasisMap[t.ticker := costBasisMap[t.ticker].(totalCost := costBasisMap[t.ticker].totalCost + (t.quantity * t.price + t.fees))];
    } else if t.kind == SELL {
      if t.ticker in costBasisMap && costBasisMap[t.ticker].qty > 0.0 {
        ghost var b := costBasisMap[t.ticker];
        var avgPrice := costBasisMap[t.ticker].totalCost / costBasisMap[t.ticker].qty;
        var actualSoldQty := Min(t.quantity, costBasisMap[t.ticker].qty);
        var netProceeds := t.price * actualSoldQty - t.fees * (actualSoldQty / t.quantity);
        var gain := netProceeds - avgPrice * actualSoldQty;
        assert gain == SellGain(b, t);
        AppendEntry(gains, Entry(yr, gain));
        gains := gains + [Entry(yr, gain)];
        years := years[yr := years[yr].(capitalGain := years[yr].capitalGain + gain)];
        allTimeRealizedGain := allTimeRealizedGain + gain;
        costBasisMap := costBasisMap[t.ticker := costBasisMap[t.ticker].(qty := costBasisMap[t.ticker].qty - actualSoldQty)];
        var remaining := costBasisMap[t.ticker].qty;
        costBasisMap := costBasisMap[t.ticker := costBasisMap[t.ticker].(totalCost := remaining * avgPrice)];
        assert avgPrice == b.totalCost / b.qty;
        assert remaining == b.qty - Min(t.quantity, b.qty);
        assert remaining * avgPrice == (b.qty - Min(t.quantity, b.qty)) * (b.totalCost / b.qty);
        assert AfterSell(b, t) == Basis(remaining, remaining * avgPrice);
        assert costBasisMap == costBasisMap0[t.ticker := AfterSell(b, t)];
        assert gains == gains0 + [Entry(yr, SellGain(b, t))];
        assert Tracker(costBasisMap, gains) == Track(Tracker(costBasisMap0, gains0), t, currentYear);
      }
    }
  }

  /**
   * The cost-basis loop over the sorted trades (components/Dashboard.tsx:78-100).
   * Every trade's year already has a bucket, so the source's guard that
   * would create one here never fires and is not repeated.
   */
  method RealizeGains(sorted: seq<Transaction>, years0: map<string, YearStats>, currentYear: string)
    returns (years: map<string, YearStats>, allTimeRealizedGain: real)
    requires AllPositive(sorted)
    requires forall t :: t in sorted ==> GetYearFromDate(t.date, currentYear) in years0
    ensures CreditedGains(years, years0, TrackerOf(sorted, currentYear).gains)
    ensures allTimeRealizedGain == Total(TrackerOf(sorted, currentYear).gains)
  {
    years, allTimeRealizedGain := years0, 0.0;
    var costBasisMap: map<string, Basis> := map[];
    ghost var gains: seq<Entry> := [];
    var i := 0;
    while i < |sorted|
      invariant 0 <= i <= |sorted|
      invariant AllPositive(sorted[..i])
      invariant Tracker(costBasisMap, gains) == TrackerOf(sorted[..i], currentYear)
      invariant CreditedGains(years, years0, gains) && allTimeRealizedGain == Total(gains)
    {
      TrackerOfStep(sorted, i, currentYear);
      assert sorted[i] in sorted;
      costBasisMap, years, allTimeRealizedGain, gains :=
        TrackTrade(costBasisMap, years, allTimeRealizedGain, sorted[i], currentYear, years0, gains);
      i := i + 1;
    }
    assert sorted[..|sorted|] == sorted;
  }

  /** Dividends are the stored buckets plus the entries credited so far. */
  ghost predicate CreditedDividends(years: map<string, YearStats>, years0: map<string, YearStats>, es: seq<Entry>) {
    && years.Keys == years0.Keys
    && forall k :: k in years ==> years[k] == years0[k].(dividend := years0[k].dividend + YearTotal(es, k))
  }

  /** Crediting one more dividend to its bucket. */
  lemma CreditDividend(years: map<string, YearStats>, years0: map<string, YearStats>, es: seq<Entry>, e: Entry)
    requires CreditedDividends(years, years0, es) && e.year in years
    ensures CreditedDividends(years[e.year := years[e.year].(dividend := years[e.year].dividend + e.amount)], years0, es + [e])
    ensures Total(es + [e]) == Total(es) + e.amount
  {
    AppendEntry(es, e);
  }

  lemma DividendEntriesStep(divs: seq<Dividend>, j: nat, currentYear: string)
    requires j < |divs|
    ensures DividendEntries(divs, currentYear)[..j + 1]
            == DividendEntries(divs, currentYear)[..j] + [Entry(GetYearFromDate(divs[j].date, currentYear), divs[j].amount)]
  {
  }

  /** The dividend loop (components/Dashboard.tsx:102-107). */
  method AddDividends(divs: seq<Dividend>, years0: map<string, YearStats>, currentYear: string)
    returns (years: map<string, YearStats>, allTimeDividends: real)
    requires forall d :: d in divs ==> GetYearFromDate(d.date, currentYear) in years0
    ensures CreditedDividends(years, years0, DividendEntries(divs, currentYear))
    ensures allTimeDividends == Total(DividendEntries(divs, currentYear))
  {
    ghost var es := DividendEntries(divs, currentYear);
    years, allTimeDividends := years0, 0.0;
    var j := 0;
    while j < |divs|
      invariant 0 <= j <= |divs|
      invariant CreditedDividends(years, years0, es[..j])
      invariant allTimeDividends == Total(es[..j])
    {
      var d := divs[j];
      var yr := GetYearFromDate(d.date, currentYear);
      assert d in divs;
      DividendEntriesStep(divs, j, currentYear);
      CreditDividend(years, years0, es[..j], Entry(yr, d.amount));
      years := years[yr := years[yr].(dividend := years[yr].dividend + d.amount)];
      allTimeDividends := allTimeDividends + d.amount;
      j := j + 1;
    }
    assert es[..|divs|] == es;
  }

  lemma RowsStep(years: seq<string>, dividends: seq<Entry>, gains: seq<Entry>, i: nat)
    requires i < |years|
    ensures Cumulative(years[..i + 1], dividends, gains)
            == Cumulative(years[..i], dividends, gains) + (YearTotal(dividends, years[i]) + YearTotal(gains, years[i]))
    ensures Rows(years[..i + 1], dividends, gains)
            == Rows(years[..i], dividends, gains)
               + [YearRow(years[i], YearTotal(dividends, years[i]), YearTotal(gains, years[i]),
                          Cumulative(years[..i + 1], dividends, gains))]
  {
    assert years[..i + 1][..i] == years[..i];
  }

  /** The running total over the sorted years (components/Dashboard.tsx:109-119). */
  method BuildRows(sortedYears: seq<string>, years: map<string, YearStats>,
                   ghost dividends: seq<Entry>, ghost gains: seq<Entry>)
    returns (rows: seq<YearRow>)
    requires forall k :: k in sortedYears ==> k in years
    requires forall k :: k in years ==> years[k] == YearStats(YearTotal(dividends, k), YearTotal(gains, k))
    ensures rows == Rows(sortedYears, dividends, gains)
  {
    var runningTotalProfit := 0.0;
    rows := [];
    var i := 0;
    while i < |sortedYears|
      invariant 0 <= i <= |sortedYears|
      invariant runningTotalProfit == Cumulative(sortedYears[..i], dividends, gains)
      invariant rows == Rows(sortedYears[..i], dividends, gains)
    {
      var yr := sortedYears[i];
      RowsStep(sortedYears, dividends, gains, i);
      runningTotalProfit := runningTotalProfit + (years[yr].dividend + years[yr].capitalGain);
      rows := rows + [YearRow(yr, years[yr].dividend, years[yr].capitalGain, runningTotalProfit)];
      i := i + 1;
    }
    assert sortedYears[..|sortedYears|] == sortedYears;
  }

  /** Every trade's and every dividend's year is a key. */
  lemma YearKeysCover(txs: seq<Transaction>, divs: seq<Dividend>, currentYear: string)
    ensures forall t :: t in txs ==> GetYearFromDate(t.date, currentYear) in YearKeys(txs, divs, currentYear)
    ensures forall d :: d in divs ==> GetYearFromDate(d.date, currentYear) in YearKeys(txs, divs, currentYear)
  {
    var ty, dy := TxYears(txs, currentYear), DividendYears(divs, currentYear);
    forall t | t in txs ensures GetYearFromDate(t.date, currentYear) in ty + dy {
      var i :| 0 <= i < |txs| && txs[i] == t;
      assert (ty + dy)[i] == ty[i];
    }
    forall d | d in divs ensures GetYearFromDate(d.date, currentYear) in ty + dy {
      var i :| 0 <= i < |divs| && divs[i] == d;
      assert (ty + dy)[|ty| + i] == dy[i];
    }
  }

  /** After both loops every bucket holds its year's dividend and gain totals. */
  lemma BucketsAreTotals(years0: map<string, YearStats>, years1: map<string, YearStats>, years2: map<string, YearStats>,
                         dividends: seq<Entry>, gains: seq<Entry>)
    requires forall k :: k in years0 ==> years0[k] == Zero
    requires CreditedGains(years1, years0, gains) && CreditedDividends(years2, years1, dividends)
    ensures years2.Keys == years0.Keys
    ensures forall k :: k in years2 ==> years2[k] == YearStats(YearTotal(dividends, k), YearTotal(gains, k))
  {
  }

  /** The lookup with the zero default is `StatsFor`. */
  lemma LookupIsStatsFor(years: map<string, YearStats>, sortedYears: seq<string>,
                         dividends: seq<Entry>, gains: seq<Entry>, year: string)
    requires forall k :: k in years <==> k in sortedYears
    requires forall k :: k in years ==> years[k] == YearStats(YearTotal(dividends, k), YearTotal(gains, k))
    ensures (if year in years then years[year] else Zero) == StatsFor(sortedYears, dividends, gains, year)
  {
  }

  /** The ledger memo (components/Dashboard.tsx:59-127). */
  method ComputeLedger(txs: seq<Transaction>, divs: seq<Dividend>, currentYear: string, prevYear: string)
    returns (ledger: Ledger)
    requires AllPositive(txs)
    ensures ledger == LedgerOf(txs, divs, currentYear, prevYear)
  {
    var keys0, years0 := RegisterTradeYears([], map[], txs, currentYear);
    var keys, years1 := RegisterDividendYears(keys0, years0, divs, currentYear);
    YearKeysCover(txs, divs, currentYear);
    var sortedTx := FoldOrder(txs);
    var years2, allTimeRealizedGain := RealizeGains(sortedTx, years1, currentYear);
    var years, allTimeDividends := AddDividends(divs, years2, currentYear);
    ghost var dividends, gains := DividendEntries(divs, currentYear), GainEntries(txs, currentYear);
    BucketsAreTotals(years1, years2, years, dividends, gains);
    var sortedYears := SortBy(keys, StrLeq);
    SortByMembers(keys, StrLeq);
    var rows := BuildRows(sortedYears, years, dividends, gains);
    var currentYearStats := if currentYear in years then years[currentYear] else Zero;
    var prevYearStats := if prevYear in years then years[prevYear] else Zero;
    LookupIsStatsFor(years, sortedYears, dividends, gains, currentYear);
    LookupIsStatsFor(years, sortedYears, dividends, gains, prevYear);
    ledger := Ledger(rows, currentYearStats, prevYearStats, YearStats(allTimeDividends, allTimeRealizedGain));
  }

  // ---------------------------------------------------------------------
  // What the ledger promises.
  // ---------------------------------------------------------------------

  /** The table's years: strictly ascending, and exactly the years of the trade and dividend dates. */
  lemma SortedYearsSpec(txs: seq<Transaction>, divs: seq<Dividend>, currentYear: string)
    ensures var ys := SortedYears(txs, divs, currentYear);
            forall i, j :: 0 <= i < j < |ys| ==> StrLess(ys[i], ys[j])
    ensures forall y :: y in SortedYears(txs, divs, currentYear) <==>
              (exists t :: t in txs && y == GetYearFromDate(t.date, currentYear))
              || (exists d :: d in divs && y == GetYearFromDate(d.date, currentYear))
  {
    var ty, dy := TxYears(txs, currentYear), DividendYears(divs, currentYear);
    var keys := YearKeys(txs, divs, currentYear);
    var ys := SortedYears(txs, divs, currentYear);
    assert Distinct(keys) by {
      assert Distinct<string>([]);
    }
    SortByDistinct(keys, StrLeq);
    StrLeqTotalPreorder();
    SortBySorted(keys, StrLeq);
    SortByMembers(keys, StrLeq);
    forall i, j | 0 <= i < j < |ys| ensures StrLess(ys[i], ys[j]) {
      assert StrLeq(ys[i], ys[j]);
    }
    forall y ensures y in ys <==>
              (exists t :: t in txs && y == GetYearFromDate(t.date, currentYear))
              || (exists d :: d in divs && y == GetYearFromDate(d.date, currentYear))
    {
      if y in ty {
        var i :| 0 <= i < |ty| && ty[i] == y;
        assert txs[i] in txs;
      }
      if y in dy {
        var i :| 0 <= i < |dy| && dy[i] == y;
        assert divs[i] in divs;
      }
      YearKeysCover(txs, divs, currentYear);
    }
  }

  /** Amounts credited to no entry of `es` with year `y` sum to zero for `y`. */
  lemma {:induction false} YearTotalAbsent(es: seq<Entry>, y: string)
    requires forall e :: e in es ==> e.year != y
    ensures YearTotal(es, y) == 0.0
    decreases |es|
  {
    if es != [] {
      assert forall e :: e in es[..|es| - 1] ==> e in es;
      YearTotalAbsent(es[..|es| - 1], y);
      assert es[|es| - 1] in es;
    }
  }

  /** Adding an entry raises a column by its amount once, if its year is one of the (distinct) years. */
  lemma {:induction false} ColumnTotalAppend(years: seq<string>, es: seq<Entry>, e: Entry)
    requires Distinct(years)
    ensures ColumnTotal(years, es + [e]) == ColumnTotal(years, es) + (if e.year in years then e.amount else 0.0)
    decreases |years|
  {
    if years != [] {
      var p := years[..|years| - 1];
      assert Distinct(p);
      ColumnTotalAppend(p, es, e);
      AppendEntry(es, e);
      assert years == p + [years[|years| - 1]];
      assert e.year in years <==> e.year in p || e.year == years[|years| - 1];
    }
  }

  /** Over distinct years that cover every entry, a column sums to the lifetime total. */
  lemma {:induction false} ColumnTotalIsTotal(years: seq<string>, es: seq<Entry>)
    requires Distinct(years)
    requires forall e :: e in es ==> e.year in years
    ensures ColumnTotal(years, es) == Total(es)
    decreases |es|
  {
    if es == [] {
      ColumnTotalOfNothing(years);
    } else {
      var p := es[..|es| - 1];
      assert forall e :: e in p ==> e in es;
      ColumnTotalIsTotal(years, p);
      assert es == p + [es[|es| - 1]];
      assert es[|es| - 1] in es;
      ColumnTotalAppend(years, p, es[|es| - 1]);
    }
  }

  lemma {:induction false} ColumnTotalOfNothing(years: seq<string>)
    ensures ColumnTotal(years, []) == 0.0
    decreases |years|
  {
    if years != [] {
      ColumnTotalOfNothing(years[..|years| - 1]);
    }
  }

  /** The profit accumulated over some years is the sum of their two columns. */
  lemma {:induction false} CumulativeIsColumns(years: seq<string>, dividends: seq<Entry>, gains: seq<Entry>)
    ensures Cumulative(years, dividends, gains) == ColumnTotal(years, dividends) + ColumnTotal(years, gains)
    decreases |years|
  {
    if years != [] {
      CumulativeIsColumns(years[..|years| - 1], dividends, gains);
    }
  }

  /** The sum of the table's `dividend` column. */
  function DividendColumn(rows: seq<YearRow>): real
    decreases |rows|
  {
    if rows == [] then 0.0 else DividendColumn(rows[..|rows| - 1]) + rows[|rows| - 1].dividend
  }

  /** The sum of the table's `capitalGain` column. */
  function GainColumn(rows: seq<YearRow>): real
    decreases |rows|
  {
    if rows == [] then 0.0 else GainColumn(rows[..|rows| - 1]) + rows[|rows| - 1].capitalGain
  }

  /** The columns of the built table are the column totals over its years. */
  lemma {:induction false} RowsColumns(years: seq<string>, dividends: seq<Entry>, gains: seq<Entry>)
    ensures DividendColumn(Rows(years, dividends, gains)) == ColumnTotal(years, dividends)
    ensures GainColumn(Rows(years, dividends, gains)) == ColumnTotal(years, gains)
    decreases |years|
  {
    if years != [] {
      var p := years[..|years| - 1];
      RowsColumns(p, dividends, gains);
      var r := Rows(years, dividends, gains);
      assert r[..|r| - 1] == Rows(p, dividends, gains);
    }
  }

  /** The first `k` rows are the table of the first `k` years. */
  lemma {:induction false} RowsPrefix(years: seq<string>, dividends: seq<Entry>, gains: seq<Entry>, k: nat)
    requires k <= |years|
    ensures Rows(years, dividends, gains)[..k] == Rows(years[..k], dividends, gains)
    decreases |years|
  {
    if k < |years| {
      var p := years[..|years| - 1];
      RowsPrefix(p, dividends, gains, k);
      assert p[..k] == years[..k];
    } else {
      assert years[..k] == years;
    }
  }

  /** Each row's `cumulativeProfit` is the sum of both columns over that row and the rows above it. */
  lemma RowsCumulative(years: seq<string>, dividends: seq<Entry>, gains: seq<Entry>)
    ensures var r := Rows(years, dividends, gains);
            forall k :: 0 <= k < |r| ==> r[k].cumulativeProfit == DividendColumn(r[..k + 1]) + GainColumn(r[..k + 1])
  {
    var r := Rows(years, dividends, gains);
    RowsAt(years, dividends, gains);
    forall k | 0 <= k < |r| ensures r[k].cumulativeProfit == DividendColumn(r[..k + 1]) + GainColumn(r[..k + 1]) {
      RowsPrefix(years, dividends, gains, k + 1);
      RowsColumns(years[..k + 1], dividends, gains);
      CumulativeIsColumns(years[..k + 1], dividends, gains);
    }
  }

  /** Every gain is credited to a year of the table. */
  lemma GainYearsAreKeys(txs: seq<Transaction>, divs: seq<Dividend>, currentYear: string)
    requires AllPositive(txs)
    ensures forall e :: e in GainEntries(txs, currentYear) ==> e.year in SortedYears(txs, divs, currentYear)
  {
    SortedYearsSpec(txs, divs, currentYear);
  }

  /** Every dividend is credited to a year of the table. */
  lemma DividendYearsAreKeys(txs: seq<Transaction>, divs: seq<Dividend>, currentYear: string)
    ensures forall e :: e in DividendEntries(divs, currentYear) ==> e.year in SortedYears(txs, divs, currentYear)
  {
    SortedYearsSpec(txs, divs, currentYear);
    var es := DividendEntries(divs, currentYear);
    forall e | e in es ensures e.year in SortedYears(txs, divs, currentYear) {
      var i :| 0 <= i < |es| && es[i] == e;
      assert divs[i] in divs;
    }
  }

  /** The amounts of all dividends, negative corrections included. */
  function AmountSum(divs: seq<Dividend>): real
    decreases |divs|
  {
    if divs == [] then 0.0 else AmountSum(divs[..|divs| - 1]) + divs[|divs| - 1].amount
  }

  lemma {:induction false} DividendTotalIsAmountSum(divs: seq<Dividend>, currentYear: string)
    ensures Total(DividendEntries(divs, currentYear)) == AmountSum(divs)
    decreases |divs|
  {
    if divs != [] {
      var p := divs[..|divs| - 1];
      DividendTotalIsAmountSum(p, currentYear);
      assert DividendEntries(divs, currentYear)[..|p|] == DividendEntries(p, currentYear);
    }
  }

  /**
   * The lifetime totals are the sums of the table's columns; the last row's
   * running profit is lifetime dividends plus lifetime gains; lifetime
   * dividends are the sum of every dividend amount.
   */
  lemma LedgerTotals(txs: seq<Transaction>, divs: seq<Dividend>, currentYear: string, prevYear: string)
    requires AllPositive(txs)
    ensures var l := LedgerOf(txs, divs, currentYear, prevYear);
            && DividendColumn(l.yearlyData) == l.totalStats.dividend
            && GainColumn(l.yearlyData) == l.totalStats.capitalGain
            && l.totalStats.dividend == AmountSum(divs)
            && (|l.yearlyData| > 0 ==>
                  l.yearlyData[|l.yearlyData| - 1].cumulativeProfit == l.totalStats.dividend + l.totalStats.capitalGain)
  {
    var ys := SortedYears(txs, divs, currentYear);
    var gains, dividends := GainEntries(txs, currentYear), DividendEntries(divs, currentYear);
    SortedYearsSpec(txs, divs, currentYear);
    assert Distinct(ys) by {
      forall i, j | 0 <= i < j < |ys| ensures ys[i] != ys[j] {
        StrLessIrreflexive(ys[i]);
      }
    }
    GainYearsAreKeys(txs, divs, currentYear);
    DividendYearsAreKeys(txs, divs, currentYear);
    ColumnTotalIsTotal(ys, gains);
    ColumnTotalIsTotal(ys, dividends);
    RowsColumns(ys, dividends, gains);
    CumulativeIsColumns(ys, dividends, gains);
    DividendTotalIsAmountSum(divs, currentYear);
    RowsAt(ys, dividends, gains);
    assert ys[..|ys|] == ys;
  }

  /**
   * Row `k` is the `k`-th sorted year with that year's dividend and gain
   * totals, and its running profit sums both columns over rows `0..k`.
   */
  lemma LedgerRows(txs: seq<Transaction>, divs: seq<Dividend>, currentYear: string, prevYear: string)
    requires AllPositive(txs)
    ensures var l := LedgerOf(txs, divs, currentYear, prevYear);
            var ys := SortedYears(txs, divs, currentYear);
            && |l.yearlyData| == |ys|
            && forall k :: 0 <= k < |ys| ==>
                 && l.yearlyData[k].year == ys[k]
                 && l.yearlyData[k].dividend == YearTotal(DividendEntries(divs, currentYear), ys[k])
                 && l.yearlyData[k].capitalGain == YearTotal(GainEntries(txs, currentYear), ys[k])
                 && l.yearlyData[k].cumulativeProfit
                    == DividendColumn(l.yearlyData[..k + 1]) + GainColumn(l.yearlyData[..k + 1])
  {
    var ys := SortedYears(txs, divs, currentYear);
    var dividends, gains := DividendEntries(divs, currentYear), GainEntries(txs, currentYear);
    var r := LedgerOf(txs, divs, currentYear, prevYear).yearlyData;
    assert r == Rows(ys, dividends, gains);
    RowsAt(ys, dividends, gains);
    RowsCumulative(ys, dividends, gains);
    forall k | 0 <= k < |ys|
      ensures r[k].year == ys[k] && r[k].dividend == YearTotal(dividends, ys[k])
      ensures r[k].capitalGain == YearTotal(gains, ys[k])
      ensures r[k].cumulativeProfit == DividendColumn(r[..k + 1]) + GainColumn(r[..k + 1])
    {
    }
  }

  /**
   * The current and previous year cards show that year's dividend and gain
   * totals; for a year without a bucket these are the zero default.
   */
  lemma LedgerYearStats(txs: seq<Transaction>, divs: seq<Dividend>, currentYear: string, prevYear: string)
    requires AllPositive(txs)
    ensures var l := LedgerOf(txs, divs, currentYear, prevYear);
            && l.currentYearStats
               == YearStats(YearTotal(DividendEntries(divs, currentYear), currentYear), YearTotal(GainEntries(txs, currentYear), currentYear))
            && l.prevYearStats
               == YearStats(YearTotal(DividendEntries(divs, currentYear), prevYear), YearTotal(GainEntries(txs, currentYear), prevYear))
  {
    var ys := SortedYears(txs, divs, currentYear);
    GainYearsAreKeys(txs, divs, currentYear);
    DividendYearsAreKeys(txs, divs, currentYear);
    if currentYear !in ys {
      YearTotalAbsent(GainEntries(txs, currentYear), currentYear);
      YearTotalAbsent(DividendEntries(divs, currentYear), currentYear);
    }
    if prevYear !in ys {
      YearTotalAbsent(GainEntries(txs, currentYear), prevYear);
      YearTotalAbsent(DividendEntries(divs, currentYear), prevYear);
    }
  }

  /** A SELL with no tracker, or a tracker with no shares, changes nothing. */
  lemma TrackSellUncovered(m: map<string, Basis>, gains: seq<Entry>, t: Transaction, currentYear: string)
    requires ValidBasis(m) && t.quantity > 0.0 && t.kind == SELL
    requires t.ticker !in m || m[t.ticker].qty == 0.0
    ensures Track(Tracker(m, gains), t, currentYear) == Tracker(m, gains)
  {
  }

  /** What remains after a covered SELL keeps its average price. */
  lemma AfterSellKeepsAverage(b: Basis, t: Transaction)
    requires b.qty > 0.0 && t.quantity > 0.0
    ensures AfterSell(b, t).qty == b.qty - Min(t.quantity, b.qty)
    ensures AfterSell(b, t).qty > 0.0 ==> AfterSell(b, t).totalCost / AfterSell(b, t).qty == b.totalCost / b.qty
  {
    var a := AfterSell(b, t);
    if a.qty > 0.0 {
      var avg := b.totalCost / b.qty;
      assert a.totalCost == a.qty * avg;
      QuotientOfMultiple(a.qty, avg);
    }
  }

  lemma QuotientOfMultiple(q: real, x: real)
    requires q > 0.0
    ensures (q * x) / q == x
  {
    var z := (q * x) / q;
    assert z * q == q * x;
    assert (z - x) * q == 0.0;
  }

  /**
   * A covered SELL executes at most the tracked shares, credits
   * `price * executed - fees * (executed / requested) - averagePrice * executed`
   * to the sell's year, lowers the tracked quantity by the executed amount
   * (never below zero) and keeps the average price of what remains.
   */
  lemma TrackSellCovered(m: map<string, Basis>, gains: seq<Entry>, t: Transaction, currentYear: string)
    requires ValidBasis(m) && t.quantity > 0.0 && t.kind == SELL && t.ticker in m && m[t.ticker].qty > 0.0
    ensures Track(Tracker(m, gains), t, currentYear).gains
            == gains + [Entry(GetYearFromDate(t.date, currentYear),
                              t.price * Min(t.quantity, m[t.ticker].qty) - t.fees * (Min(t.quantity, m[t.ticker].qty) / t.quantity)
                              - m[t.ticker].totalCost / m[t.ticker].qty * Min(t.quantity, m[t.ticker].qty))]
    ensures Track(Tracker(m, gains), t, currentYear).basis == m[t.ticker := AfterSell(m[t.ticker], t)]
    ensures 0.0 <= AfterSell(m[t.ticker], t).qty == m[t.ticker].qty - Min(t.quantity, m[t.ticker].qty)
    ensures AfterSell(m[t.ticker], t).qty > 0.0 ==>
              AfterSell(m[t.ticker], t).totalCost / AfterSell(m[t.ticker], t).qty == m[t.ticker].totalCost / m[t.ticker].qty
  {
    AfterSellKeepsAverage(m[t.ticker], t);
    var r := Track(Tracker(m, gains), t, currentYear);
    assert r.gains == gains + [Entry(GetYearFromDate(t.date, currentYear), SellGain(m[t.ticker], t))];
    assert SellGain(m[t.ticker], t)
           == t.price * Min(t.quantity, m[t.ticker].qty) - t.fees * (Min(t.quantity, m[t.ticker].qty) / t.quantity)
              - m[t.ticker].totalCost / m[t.ticker].qty * Min(t.quantity, m[t.ticker].qty);
    assert r.basis[t.ticker] == AfterSell(m[t.ticker], t);
    assert r.basis.Keys == m.Keys;
    assert forall k :: k in m && k != t.ticker ==> r.basis[k] == m[k];
  }

  /** Dates of the examples below, all in 2024. */
  const January := "2024-01-10"
  const June := "2024-06-01"
  const September := "2024-09-01"

  lemma ExampleYears()
    ensures GetYearFromDate(January, "2026") == "2024"
    ensures GetYearFromDate(June, "2026") == "2024"
    ensures GetYearFromDate(September, "2026") == "2024"
  {
    assert DigitRunAt(January, 0) && DigitRunAt(June, 0) && DigitRunAt(September, 0);
  }

  /** The trades of the examples. */
  function ExampleBuy(fee: real): Transaction {
    Transaction("1", January, "ACME", "Acme", BUY, 10.0, 100.0, fee)
  }

  function ExampleSell(id: string, date: string, quantity: real, price: real, fee: real): Transaction {
    Transaction(id, date, "ACME", "Acme", SELL, quantity, price, fee)
  }

  lemma TrackerOfThree(a: Transaction, b: Transaction, c: Transaction, currentYear: string)
    requires a.quantity > 0.0 && b.quantity > 0.0 && c.quantity > 0.0
    ensures AllPositive([a]) && AllPositive([a, b])
    ensures TrackerOf([a], currentYear) == Track(Tracker(map[], []), a, currentYear)
    ensures TrackerOf([a, b], currentYear) == Track(TrackerOf([a], currentYear), b, currentYear)
    ensures TrackerOf([a, b, c], currentYear) == Track(TrackerOf([a, b], currentYear), c, currentYear)
  {
    var s := [a, b, c];
    assert s[..1] == [a] && s[..2] == [a, b] && [a][..0] == [] && [a, b][..1] == [a];
  }

  /** The first position of the examples: 10 shares for `cost`, the fee included. */
  lemma ExampleBuyStep(fee: real, cost: real)
    requires cost == 1000.0 + fee
    ensures Track(Tracker(map[], []), ExampleBuy(fee), "2026") == Tracker(map["ACME" := Basis(10.0, cost)], [])
  {
    TrackBuyUntracked(map[], [], ExampleBuy(fee), "2026");
  }

  /** A covered SELL on the ACME tracker, worked out. */
  lemma ExampleSellStep(m: map<string, Basis>, gains: seq<Entry>, t: Transaction, before: Basis, after: Basis, gain: real)
    requires m == map["ACME" := before] && before.qty > 0.0
    requires t.kind == SELL && t.ticker == "ACME" && t.quantity > 0.0 && GetYearFromDate(t.date, "2026") == "2024"
    requires AfterSell(before, t) == after && SellGain(before, t) == gain
    ensures Track(Tracker(m, gains), t, "2026") == Tracker(map["ACME" := after], gains + [Entry("2024", gain)])
  {
    TrackSellCovered(m, gains, t, "2026");
    assert Track(Tracker(m, gains), t, "2026").basis == map["ACME" := after];
  }

  /** The sells of the examples, worked out on their own. */
  lemma ExampleSellArithmetic()
    ensures SellGain(Basis(10.0, 1005.0), ExampleSell("2", June, 4.0, 150.0, 2.0)) == 196.0
    ensures AfterSell(Basis(10.0, 1005.0), ExampleSell("2", June, 4.0, 150.0, 2.0)) == Basis(6.0, 603.0)
    ensures SellGain(Basis(6.0, 603.0), ExampleSell("3", September, 10.0, 120.0, 0.0)) == 117.0
    ensures AfterSell(Basis(6.0, 603.0), ExampleSell("3", September, 10.0, 120.0, 0.0)) == Basis(0.0, 0.0)
    ensures SellGain(Basis(10.0, 1000.0), ExampleSell("2", June, 10.0, 200.0, 0.0)) == 1000.0
    ensures AfterSell(Basis(10.0, 1000.0), ExampleSell("2", June, 10.0, 200.0, 0.0)) == Basis(0.0, 0.0)
    ensures SellGain(Basis(10.0, 1000.0), ExampleSell("3", June, 10.0, 50.0, 0.0)) == -500.0
    ensures AfterSell(Basis(10.0, 1000.0), ExampleSell("3", June, 10.0, 50.0, 0.0)) == Basis(0.0, 0.0)
  {
    assert Min(4.0, 10.0) == 4.0 && Min(10.0, 6.0) == 6.0 && Min(10.0, 10.0) == 10.0;
  }

  /**
   * Buy 10 at 100 with fee 5 (average price 100.5); selling 4 at 150 with
   * fee 2 realizes 196; then selling 10 at 120 without fee executes only the
   * 6 shares left and realizes 117.
   */
  lemma GainExamples()
    ensures var sell4, sell10 := ExampleSell("2", June, 4.0, 150.0, 2.0), ExampleSell("3", September, 10.0, 120.0, 0.0);
            && TrackerOf([ExampleBuy(5.0), sell4], "2026").gains == [Entry("2024", 196.0)]
            && TrackerOf([ExampleBuy(5.0), sell4, sell10], "2026").gains == [Entry("2024", 196.0), Entry("2024", 117.0)]
  {
    var buy := ExampleBuy(5.0);
    var sell4, sell10 := ExampleSell("2", June, 4.0, 150.0, 2.0), ExampleSell("3", September, 10.0, 120.0, 0.0);
    ExampleYears();
    ExampleSellArithmetic();
    TrackerOfThree(buy, sell4, sell10, "2026");
    ExampleBuyStep(5.0, 1005.0);
    var m1, m2 := map["ACME" := Basis(10.0, 1005.0)], map["ACME" := Basis(6.0, 603.0)];
    var e1, e2 := Entry("2024", 196.0), Entry("2024", 117.0);
    assert TrackerOf([buy], "2026") == Tracker(m1, []);
    ExampleSellStep(m1, [], sell4, Basis(10.0, 1005.0), Basis(6.0, 603.0), 196.0);
    assert TrackerOf([buy, sell4], "2026") == Tracker(m2, [e1]);
    ExampleSellStep(m2, [e1], sell10, Basis(6.0, 603.0), Basis(0.0, 0.0), 117.0);
    assert TrackerOf([buy, sell4, sell10], "2026").gains == [e1] + [e2];
  }

  /**
   * Two SELLs on one date that together exceed the position: whichever the
   * fold meets first is executed and the other finds no shares, so the
   * realized gain depends on the order inside a same-date group, which the
   * comparator leaves open.
   */
  lemma SameDateSellOrderMatters()
    ensures var high, low := ExampleSell("2", June, 10.0, 200.0, 0.0), ExampleSell("3", June, 10.0, 50.0, 0.0);
            && TrackerOf([ExampleBuy(0.0), high, low], "2026").gains == [Entry("2024", 1000.0)]
            && TrackerOf([ExampleBuy(0.0), low, high], "2026").gains == [Entry("2024", -500.0)]
  {
    var buy := ExampleBuy(0.0);
    var high, low := ExampleSell("2", June, 10.0, 200.0, 0.0), ExampleSell("3", June, 10.0, 50.0, 0.0);
    ExampleYears();
    ExampleSellArithmetic();
    TrackerOfThree(buy, high, low, "2026");
    TrackerOfThree(buy, low, high, "2026");
    ExampleBuyStep(0.0, 1000.0);
    ExampleSellStep(map["ACME" := Basis(10.0, 1000.0)], [], high, Basis(10.0, 1000.0), Basis(0.0, 0.0), 1000.0);
    ExampleSellStep(map["ACME" := Basis(10.0, 1000.0)], [], low, Basis(10.0, 1000.0), Basis(0.0, 0.0), -500.0);
    TrackSellUncovered(map["ACME" := Basis(0.0, 0.0)], [Entry("2024", 1000.0)], low, "2026");
    TrackSellUncovered(map["ACME" := Basis(0.0, 0.0)], [Entry("2024", -500.0)], high, "2026");
  }

  // ---------------------------------------------------------------------
  // Summary cards and the allocation chart (components/Dashboard.tsx:129-140).
  // ---------------------------------------------------------------------

  /**
   * Year-over-year dividend growth in percent: zero unless last year's
   * dividends are strictly positive, otherwise the relative change times 100.
   */
  function DivGrowth(current: YearStats, previous: YearStats): (r: real)
    ensures previous.dividend <= 0.0 ==> r == 0.0
    ensures previous.dividend > 0.0 ==> r * previous.dividend == (current.dividend - previous.dividend) * 100.0
    ensures previous.dividend > 0.0 && current.dividend == previous.dividend ==> r == 0.0
  {
    if previous.dividend > 0.0 then
      var ratio := (current.dividend - previous.dividend) / previous.dividend;
      assert ratio * previous.dividend == current.dividend - previous.dividend;
      ratio * 100.0
    else 0.0
  }

  /**
   * This year's dividends plus gains spread over the months elapsed;
   * `monthsPassed` is the clock's month number, 1 to 12.
   */
  function MonthlyAvgCombined(current: YearStats, monthsPassed: int): (r: real)
    requires 1 <= monthsPassed <= 12
    ensures r * (monthsPassed as real) == current.dividend + current.capitalGain
  {
    (current.dividend + current.capitalGain) / (monthsPassed as real)
  }

  /** One slice of the allocation pie. */
  datatype Slice = Slice(name: string, value: real)

  /** The comparator `b.value - a.value`: larger value first. */
  predicate ValueGeq(a: Slice, b: Slice) {
    a.value >= b.value
  }

  lemma ValueGeqTotalPreorder()
    ensures TotalPreorder(ValueGeq)
  {
  }

  /** One slice per holding: its ticker and invested capital. */
  function Slices(holdings: seq<Holding>): (r: seq<Slice>)
    ensures |r| == |holdings|
    ensures forall i :: 0 <= i < |holdings| ==> r[i] == Slice(holdings[i].ticker, holdings[i].totalInvested)
  {
    seq(|holdings|, i requires 0 <= i < |holdings| => Slice(holdings[i].ticker, holdings[i].totalInvested))
  }

  /** `allocationData`: the slices, sorted by a stable sort on descending value. */
  function AllocationData(holdings: seq<Holding>): seq<Slice> {
    SortBy(Slices(holdings), ValueGeq)
  }

  /** The chart shows every holding's slice once, largest first. */
  lemma AllocationDataSpec(holdings: seq<Holding>)
    ensures multiset(AllocationData(holdings)) == multiset(Slices(holdings))
    ensures var r := AllocationData(holdings);
            forall i, j :: 0 <= i < j < |r| ==> r[i].value >= r[j].value
  {
    ValueGeqTotalPreorder();
    SortBySorted(Slices(holdings), ValueGeq);
  }
}

/**
 * The holdings aggregator of App.tsx and the small updates of the
 * application's state.
 *
 * The aggregator walks the trades in fold order, keeping a JavaScript `Map`
 * from ticker to a `Holding` record that it updates in place. The map is
 * modelled as a `Book`: its key insertion order (the order in which
 * `map.values()` yields records) and its entries. `ComputeHoldings` is the
 * loop; `HoldingsOf` is the function that specifies it, built from `Step`.
 */
module App {
  import opened Types
  import opened TradeOrder

  /** `dividendEstimates[ticker] || 0`. */
  function EstimateFor(estimates: map<string, real>, ticker: string): real {
    if ticker in estimates then estimates[ticker] else 0.0
  }

  /** The record created the first time a ticker is seen. */
  function Fresh(t: Transaction, estimates: map<string, real>): Holding {
    Holding(t.ticker, t.name, 0.0, 0.0, 0.0, EstimateFor(estimates, t.ticker), 0.0)
  }

  /**
   * The cost-basis invariant: no short position, total invested is quantity
   * times average cost, and a closed position carries no cost basis.
   */
  predicate Consistent(h: Holding) {
    && h.quantity >= 0.0
    && h.totalInvested == h.quantity * h.averageCost
    && (h.quantity == 0.0 ==> h.averageCost == 0.0)
  }

  /**
   * One trade applied to a holding's numbers. A BUY adds its cost including
   * the fee and recomputes the average; anything else is a sell, clamped to
   * the quantity held, that keeps the average or wipes it when the position
   * closes.
   */
  function Trade(h: Holding, t: Transaction): (r: Holding)
    requires h.quantity >= 0.0 && t.quantity > 0.0
    ensures Consistent(r)
    ensures r.ticker == h.ticker && r.name == h.name
    ensures r.estimatedDividendPerShare == h.estimatedDividendPerShare
    ensures r.estimatedTotalDividend == h.estimatedTotalDividend
  {
    if t.kind == BUY then
      var newQuantity := h.quantity + t.quantity;
      var invested := h.totalInvested + (t.quantity * t.price + t.fees);
      h.(quantity := newQuantity, totalInvested := invested, averageCost := invested / newQuantity)
    else
      var remaining := h.quantity - Min(t.quantity, h.quantity);
      if remaining > 0.0 then h.(quantity := remaining, totalInvested := remaining * h.averageCost)
      else h.(quantity := remaining, totalInvested := 0.0, averageCost := 0.0)
  }

  /** The record carries the estimate for its ticker and the resulting yearly total. */
  predicate Annotated(h: Holding, estimates: map<string, real>) {
    && h.estimatedDividendPerShare == EstimateFor(estimates, h.ticker)
    && h.estimatedTotalDividend == h.quantity * h.estimatedDividendPerShare
  }

  /** The two estimate annotations, refreshed after every trade. */
  function Annotate(h: Holding, estimates: map<string, real>): (r: Holding)
    ensures r.estimatedDividendPerShare == EstimateFor(estimates, h.ticker)
    ensures r.estimatedTotalDividend == h.quantity * EstimateFor(estimates, h.ticker)
    ensures r.ticker == h.ticker && r.name == h.name && r.quantity == h.quantity
    ensures r.averageCost == h.averageCost && r.totalInvested == h.totalInvested
    ensures Consistent(r) == Consistent(h)
    ensures Annotated(r, estimates)
  {
    var rate := EstimateFor(estimates, h.ticker);
    var r := h.(estimatedDividendPerShare := rate, estimatedTotalDividend := h.quantity * rate);
    assert r.quantity * r.averageCost == h.quantity * h.averageCost;
    r
  }

  /** The aggregator's `Map<string, Holding>`: key insertion order and entries. */
  datatype Book = Book(order: seq<string>, entries: map<string, Holding>)

  ghost predicate ValidBook(b: Book) {
    && Distinct(b.order)
    && (forall k :: k in b.order <==> k in b.entries)
    && (forall k :: k in b.entries ==> b.entries[k].ticker == k && Consistent(b.entries[k]))
  }

  /** One iteration of the `forEach` (App.tsx:90-122). */
  function Step(b: Book, t: Transaction, estimates: map<string, real>): (r: Book)
    requires ValidBook(b) && t.quantity > 0.0
    ensures ValidBook(r)
    ensures forall k :: k != t.ticker && k in b.entries ==> k in r.entries && r.entries[k] == b.entries[k]
  {
    var next := Annotate(Trade(Current(b, t, estimates), t), estimates);
    Book(if t.ticker in b.entries then b.order else b.order + [t.ticker], b.entries[t.ticker := next])
  }

  /** The record a trade updates: the existing one, or a fresh one (App.tsx:91-99). */
  function Current(b: Book, t: Transaction, estimates: map<string, real>): (h: Holding)
    requires ValidBook(b)
    ensures Consistent(h) && h.ticker == t.ticker
  {
    if t.ticker in b.entries then b.entries[t.ticker] else Fresh(t, estimates)
  }

  lemma PrefixPositive(s: seq<Transaction>, n: nat)
    requires AllPositive(s) && n <= |s|
    ensures AllPositive(s[..n])
  {
    assert forall t :: t in s[..n] ==> t in s;
  }

  /** The map after folding the trades `s` in the given order. */
  function BookOf(s: seq<Transaction>, estimates: map<string, real>): (b: Book)
    requires AllPositive(s)
    ensures ValidBook(b)
    ensures forall k :: k in b.entries ==> Annotated(b.entries[k], estimates)
    decreases |s|
  {
    if s == [] then Book([], map[])
    else
      assert forall t :: t in s[..|s| - 1] ==> t in s;
      Step(BookOf(s[..|s| - 1], estimates), s[|s| - 1], estimates)
  }

  /** `Array.from(map.values()).filter(h => h.quantity > 0)`. */
  function OpenPositions(order: seq<string>, entries: map<string, Holding>): seq<Holding>
    requires forall k :: k in order ==> k in entries
    decreases |order|
  {
    if order == [] then []
    else
      var rest := OpenPositions(order[..|order| - 1], entries);
      var h := entries[order[|order| - 1]];
      if h.quantity > 0.0 then rest + [h] else rest
  }

  /** The holdings the aggregator returns for a trade log. */
  function HoldingsOf(transactions: seq<Transaction>, estimates: map<string, real>): seq<Holding>
    requires AllPositive(transactions)
  {
    var b := BookOf(FoldOrder(transactions), estimates);
    OpenPositions(b.order, b.entries)
  }

  // ---------------------------------------------------------------------
  // Per-ticker reference: the record of a ticker depends only on that
  // ticker's own trades, replayed in fold order from an empty position.
  // ---------------------------------------------------------------------

  /** The trades of `s` on `ticker`, in order. */
  function TradesOf(s: seq<Transaction>, ticker: string): (r: seq<Transaction>)
    ensures forall t :: t in r <==> t in s && t.ticker == ticker
    ensures forall i :: 0 <= i < |r| ==> r[i].ticker == ticker
    decreases |s|
  {
    if s == [] then []
    else
      var p := TradesOf(s[..|s| - 1], ticker);
      assert s == s[..|s| - 1] + [s[|s| - 1]];
      if s[|s| - 1].ticker == ticker then p + [s[|s| - 1]] else p
  }

  /** The position after replaying `ts` on `h`, ignoring the estimates. */
  function Replay(h: Holding, ts: seq<Transaction>): (r: Holding)
    requires h.quantity >= 0.0 && AllPositive(ts)
    ensures r.quantity >= 0.0 && r.ticker == h.ticker && r.name == h.name
    ensures ts != [] ==> Consistent(r)
    ensures Consistent(h) ==> Consistent(r)
    decreases |ts|
  {
    if ts == [] then h
    else
      PrefixPositive(ts, |ts| - 1);
      Trade(Replay(h, ts[..|ts| - 1]), ts[|ts| - 1])
  }

  /** The annotations are a function of the position alone. */
  lemma AnnotateDependsOnPosition(a: Holding, b: Holding, estimates: map<string, real>)
    requires a.ticker == b.ticker && a.name == b.name && a.quantity == b.quantity
    requires a.averageCost == b.averageCost && a.totalInvested == b.totalInvested
    ensures Annotate(a, estimates) == Annotate(b, estimates)
  {
    var rate := EstimateFor(estimates, a.ticker);
    assert a.quantity * rate == b.quantity * rate;
  }

  /** Refreshing the annotations before a trade makes no difference after it. */
  lemma AnnotateThenTrade(h: Holding, t: Transaction, estimates: map<string, real>)
    requires h.quantity >= 0.0 && t.quantity > 0.0
    ensures Annotate(Trade(Annotate(h, estimates), t), estimates) == Annotate(Trade(h, t), estimates)
  {
    AnnotateDependsOnPosition(Trade(Annotate(h, estimates), t), Trade(h, t), estimates);
  }

  /**
   * A ticker has an entry exactly when some trade names it, and the entry is
   * that ticker's trades replayed from an empty record named after the first
   * of them, then annotated.
   */
  lemma {:induction false} EntryIsReplay(s: seq<Transaction>, estimates: map<string, real>, k: string)
    requires AllPositive(s)
    ensures k in BookOf(s, estimates).entries <==> TradesOf(s, k) != []
    ensures k in BookOf(s, estimates).entries ==>
              BookOf(s, estimates).entries[k]
              == Annotate(Replay(Fresh(TradesOf(s, k)[0], estimates), TradesOf(s, k)), estimates)
    decreases |s|
  {
    if s != [] {
      var p, t := s[..|s| - 1], s[|s| - 1];
      PrefixPositive(s, |s| - 1);
      EntryIsReplay(p, estimates, k);
      var ts := TradesOf(s, k);
      var ps := TradesOf(p, k);
      if t.ticker == k {
        assert ts == ps + [t];
        assert ts[..|ts| - 1] == ps;
        if ps != [] {
          var h0 := Fresh(ps[0], estimates);
          assert ts[0] == ps[0];
          assert Replay(h0, ts) == Trade(Replay(h0, ps), t);
          AnnotateThenTrade(Replay(h0, ps), t, estimates);
        } else {
          assert ts == [t];
          assert Replay(Fresh(t, estimates), ts) == Trade(Replay(Fresh(t, estimates), []), t);
        }
      }
    }
  }

  /**
   * The filter keeps, in key order, exactly the records of positive quantity,
   * one per ticker.
   */
  lemma {:induction false} OpenPositionsSpec(order: seq<string>, entries: map<string, Holding>)
    requires Distinct(order)
    requires forall k :: k in order ==> k in entries && entries[k].ticker == k
    ensures forall h :: h in OpenPositions(order, entries) ==>
              h.quantity > 0.0 && h.ticker in order && entries[h.ticker] == h
    ensures forall k :: k in order && entries[k].quantity > 0.0 ==> entries[k] in OpenPositions(order, entries)
    ensures forall i, j :: 0 <= i < j < |OpenPositions(order, entries)| ==>
              OpenPositions(order, entries)[i].ticker != OpenPositions(order, entries)[j].ticker
    decreases |order|
  {
    if order != [] {
      var p := order[..|order| - 1];
      assert order == p + [order[|order| - 1]];
      OpenPositionsSpec(p, entries);
    }
  }

  /**
   * Every returned holding is open, keeps the cost-basis invariant, carries
   * its ticker's estimate, and no ticker appears twice.
   */
  lemma HoldingsOfShape(transactions: seq<Transaction>, estimates: map<string, real>)
    requires AllPositive(transactions)
    ensures forall h :: h in HoldingsOf(transactions, estimates) ==>
              h.quantity > 0.0 && Consistent(h) && Annotated(h, estimates)
    ensures forall i, j :: 0 <= i < j < |HoldingsOf(transactions, estimates)| ==>
              HoldingsOf(transactions, estimates)[i].ticker != HoldingsOf(transactions, estimates)[j].ticker
  {
    var b := BookOf(FoldOrder(transactions), estimates);
    OpenPositionsSpec(b.order, b.entries);
  }

  /** No trades, no holdings. */
  lemma HoldingsOfEmpty(estimates: map<string, real>)
    ensures HoldingsOf([], estimates) == []
  {
    assert FoldOrder([]) == [];
  }

  /**
   * A ticker is held exactly when its trades, replayed in fold order, leave a
   * positive quantity; its record is then that replay, named after the first
   * of its trades.
   */
  lemma HoldingOfTicker(transactions: seq<Transaction>, estimates: map<string, real>, k: string)
    requires AllPositive(transactions)
    ensures var ts := TradesOf(FoldOrder(transactions), k);
            (exists h :: h in HoldingsOf(transactions, estimates) && h.ticker == k)
            <==> (ts != [] && Replay(Fresh(ts[0], estimates), ts).quantity > 0.0)
    ensures var ts := TradesOf(FoldOrder(transactions), k);
            forall h :: h in HoldingsOf(transactions, estimates) && h.ticker == k ==>
              h == Annotate(Replay(Fresh(ts[0], estimates), ts), estimates) && h.name == ts[0].name
  {
    var sorted := FoldOrder(transactions);
    var b := BookOf(sorted, estimates);
    OpenPositionsSpec(b.order, b.entries);
    EntryIsReplay(sorted, estimates, k);
    var ts := TradesOf(sorted, k);
    if ts != [] && Replay(Fresh(ts[0], estimates), ts).quantity > 0.0 {
      assert b.entries[k] in HoldingsOf(transactions, estimates);
    }
  }

  // ---------------------------------------------------------------------
  // Quantity bounds.
  // ---------------------------------------------------------------------

  /** Total quantity over the BUY trades of `ts`. */
  function Bought(ts: seq<Transaction>): real
    decreases |ts|
  {
    if ts == [] then 0.0
    else Bought(ts[..|ts| - 1]) + (if ts[|ts| - 1].kind == BUY then ts[|ts| - 1].quantity else 0.0)
  }

  /** Total quantity requested by the other trades of `ts` (all treated as sells). */
  function Sold(ts: seq<Transaction>): real
    decreases |ts|
  {
    if ts == [] then 0.0
    else Sold(ts[..|ts| - 1]) + (if ts[|ts| - 1].kind != BUY then ts[|ts| - 1].quantity else 0.0)
  }

  /** Clamping only ever sells less than requested, and never more than was held. */
  lemma {:induction false} ReplayQuantityBounds(h: Holding, ts: seq<Transaction>)
    requires h.quantity >= 0.0 && AllPositive(ts)
    ensures h.quantity + Bought(ts) - Sold(ts) <= Replay(h, ts).quantity <= h.quantity + Bought(ts)
    decreases |ts|
  {
    if ts != [] {
      PrefixPositive(ts, |ts| - 1);
      ReplayQuantityBounds(h, ts[..|ts| - 1]);
    }
  }

  /** Every sell asks for no more than the quantity held at that point. */
  ghost predicate NeverOversold(h: Holding, ts: seq<Transaction>)
    requires h.quantity >= 0.0 && AllPositive(ts)
  {
    forall n :: 0 <= n < |ts| && ts[n].kind != BUY ==>
      (PrefixPositive(ts, n); ts[n].quantity <= Replay(h, ts[..n]).quantity)
  }

  /** Without overselling, the final quantity is bought minus sold. */
  lemma {:induction false} ReplayQuantityExact(h: Holding, ts: seq<Transaction>)
    requires h.quantity >= 0.0 && AllPositive(ts) && NeverOversold(h, ts)
    ensures Replay(h, ts).quantity == h.quantity + Bought(ts) - Sold(ts)
    decreases |ts|
  {
    if ts != [] {
      var p := ts[..|ts| - 1];
      PrefixPositive(ts, |ts| - 1);
      forall n | 0 <= n < |p| && p[n].kind != BUY
        ensures p[n].quantity <= Replay(h, p[..n]).quantity
      {
        PrefixPositive(ts, n);
        assert p[..n] == ts[..n];
      }
      ReplayQuantityExact(h, p);
      assert p == ts[..|ts| - 1];
    }
  }

  lemma {:induction false} NoBuysBoughtNothing(ts: seq<Transaction>)
    requires forall t :: t in ts ==> t.kind != BUY
    ensures Bought(ts) == 0.0
    decreases |ts|
  {
    if ts != [] {
      assert forall t :: t in ts[..|ts| - 1] ==> t in ts;
      NoBuysBoughtNothing(ts[..|ts| - 1]);
    }
  }

  /** Selling a ticker that was never bought leaves no holding for it. */
  lemma NeverBoughtNotHeld(transactions: seq<Transaction>, estimates: map<string, real>, k: string)
    requires AllPositive(transactions)
    requires forall t :: t in transactions && t.ticker == k ==> t.kind != BUY
    ensures forall h :: h in HoldingsOf(transactions, estimates) ==> h.ticker != k
  {
    HoldingOfTicker(transactions, estimates, k);
    var ts := TradesOf(FoldOrder(transactions), k);
    if ts != [] {
      NoBuysBoughtNothing(ts);
      ReplayQuantityBounds(Fresh(ts[0], estimates), ts);
    }
  }

  // ---------------------------------------------------------------------
  // Single trades.
  // ---------------------------------------------------------------------

  /** Buy 10 at 100 with a fee of 5 into an empty record: 10 held at 100.5, 1005 invested. */
  lemma BuyExample(estimates: map<string, real>)
    ensures var t := Transaction("1", "2024-01-02", "ACME", "Acme", BUY, 10.0, 100.0, 5.0);
            var r := Trade(Fresh(t, estimates), t);
            r.quantity == 10.0 && r.averageCost == 100.5 && r.totalInvested == 1005.0
  {
  }

  /** A sell that leaves shares keeps the average cost. */
  lemma PartialSellKeepsAverage(h: Holding, t: Transaction)
    requires Consistent(h) && t.quantity > 0.0 && t.kind != BUY && t.quantity < h.quantity
    ensures Trade(h, t).quantity == h.quantity - t.quantity
    ensures Trade(h, t).averageCost == h.averageCost
  {
  }

  /** A sell of at least the quantity held closes the position and wipes its basis. */
  lemma FullSellResets(h: Holding, t: Transaction)
    requires h.quantity >= 0.0 && t.quantity > 0.0 && t.kind != BUY && t.quantity >= h.quantity
    ensures Trade(h, t).quantity == 0.0
    ensures Trade(h, t).averageCost == 0.0 && Trade(h, t).totalInvested == 0.0
  {
  }

  /** A buy into a closed position starts a fresh basis: the old average is forgotten. */
  lemma ReopenStartsFresh(h: Holding, t: Transaction)
    requires Consistent(h) && h.quantity == 0.0 && t.quantity > 0.0 && t.kind == BUY
    ensures Trade(h, t).quantity == t.quantity
    ensures Trade(h, t).totalInvested == t.quantity * t.price + t.fees
    ensures Trade(h, t).averageCost == (t.quantity * t.price + t.fees) / t.quantity
  {
    assert h.averageCost == 0.0;
    assert h.totalInvested == 0.0;
  }

  /** One trade at a non-negative price and fee keeps the cost basis non-negative. */
  lemma TradeCostNonNegative(h: Holding, t: Transaction)
    requires h.quantity >= 0.0 && h.averageCost >= 0.0 && h.totalInvested >= 0.0
    requires t.quantity > 0.0 && t.price >= 0.0 && t.fees >= 0.0
    ensures Trade(h, t).averageCost >= 0.0 && Trade(h, t).totalInvested >= 0.0
  {
    if t.kind == BUY {
      assert t.quantity * t.price >= 0.0;
    } else {
      var remaining := h.quantity - Min(t.quantity, h.quantity);
      assert remaining * h.averageCost >= 0.0;
    }
  }

  /** With non-negative prices and fees the cost basis is never negative. */
  lemma {:induction false} ReplayCostNonNegative(h: Holding, ts: seq<Transaction>)
    requires h.quantity >= 0.0 && h.averageCost >= 0.0 && h.totalInvested >= 0.0
    requires AllPositive(ts) && NonNegativeCosts(ts)
    ensures Replay(h, ts).averageCost >= 0.0 && Replay(h, ts).totalInvested >= 0.0
    decreases |ts|
  {
    if ts != [] {
      var p, t := ts[..|ts| - 1], ts[|ts| - 1];
      PrefixPositive(ts, |ts| - 1);
      assert forall u :: u in p ==> u in ts;
      ReplayCostNonNegative(h, p);
      assert t in ts;
      TradeCostNonNegative(Replay(h, p), t);
    }
  }

  // ---------------------------------------------------------------------
  // Order inside a group of same-date trades of the same side.
  // ---------------------------------------------------------------------

  /** Both trades are BUYs, or neither is. */
  predicate SameSide(t1: Transaction, t2: Transaction) {
    (t1.kind == BUY) == (t2.kind == BUY)
  }

  /** Two records that differ at most in their name. */
  predicate SamePosition(a: Holding, b: Holding) {
    a.(name := b.name) == b
  }

  /** Two maps with the same tickers whose records differ at most in their names. */
  ghost predicate SimilarBooks(x: Book, y: Book) {
    && x.entries.Keys == y.entries.Keys
    && forall k :: k in x.entries ==> SamePosition(x.entries[k], y.entries[k])
  }

  /** Two trades on the same side may be applied in either order. */
  lemma TradesCommute(h: Holding, t1: Transaction, t2: Transaction)
    requires h.quantity >= 0.0 && t1.quantity > 0.0 && t2.quantity > 0.0 && SameSide(t1, t2)
    ensures Trade(Trade(h, t1), t2) == Trade(Trade(h, t2), t1)
  {
    if t1.kind == BUY {
      BuysCommute(h, t1, t2);
    } else {
      SellsCommute(h, t1, t2);
    }
  }

  /** Two BUYs add up to the same quantity and cost in either order. */
  lemma BuysCommute(h: Holding, t1: Transaction, t2: Transaction)
    requires h.quantity >= 0.0 && t1.quantity > 0.0 && t2.quantity > 0.0 && t1.kind == BUY && t2.kind == BUY
    ensures Trade(Trade(h, t1), t2) == Trade(Trade(h, t2), t1)
  {
    var q := h.quantity + t1.quantity + t2.quantity;
    var invested := h.totalInvested + (t1.quantity * t1.price + t1.fees) + (t2.quantity * t2.price + t2.fees);
    assert Trade(Trade(h, t1), t2) == h.(quantity := q, totalInvested := invested, averageCost := invested / q);
    assert Trade(Trade(h, t2), t1) == h.(quantity := q, totalInvested := invested, averageCost := invested / q);
  }

  /** Two sells leave the same remainder, at the same average, in either order. */
  lemma SellsCommute(h: Holding, t1: Transaction, t2: Transaction)
    requires h.quantity >= 0.0 && t1.quantity > 0.0 && t2.quantity > 0.0 && t1.kind != BUY && t2.kind != BUY
    ensures Trade(Trade(h, t1), t2) == Trade(Trade(h, t2), t1)
  {
    var left := h.quantity - t1.quantity - t2.quantity;
    if left > 0.0 {
      assert Trade(Trade(h, t1), t2) == h.(quantity := left, totalInvested := left * h.averageCost);
      assert Trade(Trade(h, t2), t1) == h.(quantity := left, totalInvested := left * h.averageCost);
    } else {
      assert Trade(Trade(h, t1), t2) == h.(quantity := 0.0, totalInvested := 0.0, averageCost := 0.0);
      assert Trade(Trade(h, t2), t1) == h.(quantity := 0.0, totalInvested := 0.0, averageCost := 0.0);
    }
  }

  /** Trading depends on a record's position, not on its name. */
  lemma TradeIgnoresName(a: Holding, b: Holding, t: Transaction)
    requires SamePosition(a, b) && a.quantity >= 0.0 && t.quantity > 0.0
    ensures SamePosition(Trade(a, t), Trade(b, t))
  {
    assert a.totalInvested == b.totalInvested && a.quantity == b.quantity && a.averageCost == b.averageCost;
    if t.kind != BUY {
      var remaining := a.quantity - Min(t.quantity, a.quantity);
      assert remaining * a.averageCost == remaining * b.averageCost;
    }
  }

  lemma AnnotateIgnoresName(a: Holding, b: Holding, estimates: map<string, real>)
    requires SamePosition(a, b)
    ensures SamePosition(Annotate(a, estimates), Annotate(b, estimates))
  {
    AnnotateDependsOnPosition(a.(name := b.name), b, estimates);
  }

  /** One step keeps two similar maps similar. */
  lemma StepKeepsSimilar(x: Book, y: Book, t: Transaction, estimates: map<string, real>)
    requires ValidBook(x) && ValidBook(y) && SimilarBooks(x, y) && t.quantity > 0.0
    ensures SimilarBooks(Step(x, t, estimates), Step(y, t, estimates))
  {
    var cx, cy := Current(x, t, estimates), Current(y, t, estimates);
    assert SamePosition(cx, cy);
    TradeIgnoresName(cx, cy, t);
    AnnotateIgnoresName(Trade(cx, t), Trade(cy, t), estimates);
    StepEntries(x, t, estimates);
    StepEntries(y, t, estimates);
  }

  /** The record of one ticker after two same-side trades, in either order. */
  lemma PairCommutes(c1: Holding, c2: Holding, t1: Transaction, t2: Transaction, estimates: map<string, real>)
    requires SamePosition(c1, c2) && c1.quantity >= 0.0
    requires t1.quantity > 0.0 && t2.quantity > 0.0 && SameSide(t1, t2)
    ensures SamePosition(Annotate(Trade(Annotate(Trade(c1, t1), estimates), t2), estimates),
                         Annotate(Trade(Annotate(Trade(c2, t2), estimates), t1), estimates))
  {
    AnnotateThenTrade(Trade(c1, t1), t2, estimates);
    AnnotateThenTrade(Trade(c2, t2), t1, estimates);
    TradesCommute(c1, t1, t2);
    TradeIgnoresName(c1, c2, t2);
    TradeIgnoresName(Trade(c1, t2), Trade(c2, t2), t1);
    AnnotateIgnoresName(Trade(Trade(c1, t1), t2), Trade(Trade(c2, t2), t1), estimates);
  }

  /** A step replaces the traded ticker's record and nothing else. */
  lemma StepEntries(b: Book, t: Transaction, estimates: map<string, real>)
    requires ValidBook(b) && t.quantity > 0.0
    ensures Step(b, t, estimates).entries == b.entries[t.ticker := Annotate(Trade(Current(b, t, estimates), t), estimates)]
  {
  }

  /** A step does not change the record another ticker's trade starts from. */
  lemma CurrentAfterOther(b: Book, t1: Transaction, t2: Transaction, estimates: map<string, real>)
    requires ValidBook(b) && t1.quantity > 0.0 && t1.ticker != t2.ticker
    ensures Current(Step(b, t1, estimates), t2, estimates) == Current(b, t2, estimates)
  {
  }

  /** A step leaves its own result as the record the next trade on that ticker starts from. */
  lemma CurrentAfterSame(b: Book, t1: Transaction, t2: Transaction, estimates: map<string, real>)
    requires ValidBook(b) && t1.quantity > 0.0 && t1.ticker == t2.ticker
    ensures Current(Step(b, t1, estimates), t2, estimates) == Annotate(Trade(Current(b, t1, estimates), t1), estimates)
  {
  }

  /** Trades on different tickers touch different records. */
  lemma StepsOnOtherTickersCommute(b: Book, t1: Transaction, t2: Transaction, estimates: map<string, real>)
    requires ValidBook(b) && t1.quantity > 0.0 && t2.quantity > 0.0 && t1.ticker != t2.ticker
    ensures Step(Step(b, t1, estimates), t2, estimates).entries == Step(Step(b, t2, estimates), t1, estimates).entries
  {
    var b1, b2 := Step(b, t1, estimates), Step(b, t2, estimates);
    var n1 := Annotate(Trade(Current(b, t1, estimates), t1), estimates);
    var n2 := Annotate(Trade(Current(b, t2, estimates), t2), estimates);
    StepEntries(b, t1, estimates);
    StepEntries(b, t2, estimates);
    StepEntries(b1, t2, estimates);
    StepEntries(b2, t1, estimates);
    CurrentAfterOther(b, t1, t2, estimates);
    CurrentAfterOther(b, t2, t1, estimates);
    UpdatesCommute(b.entries, t1.ticker, n1, t2.ticker, n2);
  }

  lemma UpdatesCommute<K, V>(m: map<K, V>, k1: K, v1: V, k2: K, v2: V)
    requires k1 != k2
    ensures m[k1 := v1][k2 := v2] == m[k2 := v2][k1 := v1]
  {
  }

  /** Two same-side trades on one ticker. */
  lemma StepsOnOneTickerCommute(b: Book, t1: Transaction, t2: Transaction, estimates: map<string, real>)
    requires ValidBook(b) && t1.quantity > 0.0 && t2.quantity > 0.0 && SameSide(t1, t2)
    requires t1.ticker == t2.ticker
    ensures SimilarBooks(Step(Step(b, t1, estimates), t2, estimates), Step(Step(b, t2, estimates), t1, estimates))
  {
    var b1, b2 := Step(b, t1, estimates), Step(b, t2, estimates);
    var c1, c2 := Current(b, t1, estimates), Current(b, t2, estimates);
    PairCommutes(c1, c2, t1, t2, estimates);
    StepEntries(b1, t2, estimates);
    StepEntries(b2, t1, estimates);
    StepEntries(b, t1, estimates);
    StepEntries(b, t2, estimates);
    CurrentAfterSame(b, t1, t2, estimates);
    CurrentAfterSame(b, t2, t1, estimates);
  }

  /**
   * Two same-side trades applied to a map in either order give the same
   * positions; only a record created by the pair may take its name from
   * whichever of the two came first.
   */
  lemma StepsCommute(b: Book, t1: Transaction, t2: Transaction, estimates: map<string, real>)
    requires ValidBook(b) && t1.quantity > 0.0 && t2.quantity > 0.0 && SameSide(t1, t2)
    ensures SimilarBooks(Step(Step(b, t1, estimates), t2, estimates), Step(Step(b, t2, estimates), t1, estimates))
  {
    if t1.ticker == t2.ticker {
      StepsOnOneTickerCommute(b, t1, t2, estimates);
    } else {
      StepsOnOtherTickersCommute(b, t1, t2, estimates);
    }
  }

  /** `s` with the elements at `i` and `i + 1` exchanged. */
  function Swapped<T>(s: seq<T>, i: nat): (r: seq<T>)
    requires i + 1 < |s|
    ensures |r| == |s| && r[i] == s[i + 1] && r[i + 1] == s[i]
    ensures forall j :: 0 <= j < |s| && j != i && j != i + 1 ==> r[j] == s[j]
    ensures multiset(r) == multiset(s)
  {
    s[i := s[i + 1]][i + 1 := s[i]]
  }

  lemma SwappedPrefix<T>(s: seq<T>, i: nat, n: nat)
    requires i + 1 < n <= |s|
    ensures Swapped(s, i)[..n] == Swapped(s[..n], i)
  {
  }

  lemma SwappedPositive(s: seq<Transaction>, i: nat)
    requires AllPositive(s) && i + 1 < |s|
    ensures AllPositive(Swapped(s, i))
  {
    forall t | t in Swapped(s, i) ensures t.quantity > 0.0 {
      assert t in multiset(Swapped(s, i));
      assert t in multiset(s);
    }
  }

  /** The fold unrolled by its last trade. */
  lemma BookOfLast(s: seq<Transaction>, estimates: map<string, real>)
    requires AllPositive(s) && |s| >= 1
    ensures AllPositive(s[..|s| - 1])
    ensures BookOf(s, estimates) == Step(BookOf(s[..|s| - 1], estimates), s[|s| - 1], estimates)
  {
    PrefixPositive(s, |s| - 1);
  }

  /** The fold unrolled by its last two trades. */
  lemma BookOfLastTwo(s: seq<Transaction>, estimates: map<string, real>)
    requires AllPositive(s) && |s| >= 2
    ensures AllPositive(s[..|s| - 2])
    ensures BookOf(s, estimates)
            == Step(Step(BookOf(s[..|s| - 2], estimates), s[|s| - 2], estimates), s[|s| - 1], estimates)
  {
    var p := s[..|s| - 1];
    BookOfLast(s, estimates);
    BookOfLast(p, estimates);
    assert p[..|p| - 1] == s[..|s| - 2];
    assert p[|p| - 1] == s[|s| - 2];
  }

  /** The swap of the last two trades of a log. */
  lemma SwapAtEnd(s: seq<Transaction>, estimates: map<string, real>)
    requires AllPositive(s) && |s| >= 2 && SameSide(s[|s| - 2], s[|s| - 1])
    ensures AllPositive(Swapped(s, |s| - 2))
    ensures SimilarBooks(BookOf(s, estimates), BookOf(Swapped(s, |s| - 2), estimates))
  {
    var i := |s| - 2;
    SwappedPositive(s, i);
    var s' := Swapped(s, i);
    BookOfLastTwo(s, estimates);
    BookOfLastTwo(s', estimates);
    assert s'[..i] == s[..i];
    StepsCommute(BookOf(s[..i], estimates), s[i], s[i + 1], estimates);
  }

  /** The same trade appended to two logs with similar maps keeps them similar. */
  lemma AppendKeepsSimilar(s: seq<Transaction>, s': seq<Transaction>, estimates: map<string, real>)
    requires AllPositive(s) && AllPositive(s') && |s| == |s'| >= 1 && s[|s| - 1] == s'[|s| - 1]
    requires AllPositive(s[..|s| - 1]) && AllPositive(s'[..|s| - 1])
    requires SimilarBooks(BookOf(s[..|s| - 1], estimates), BookOf(s'[..|s| - 1], estimates))
    ensures SimilarBooks(BookOf(s, estimates), BookOf(s', estimates))
  {
    StepKeepsSimilar(BookOf(s[..|s| - 1], estimates), BookOf(s'[..|s| - 1], estimates), s[|s| - 1], estimates);
  }

  /** A trade appended after a swap keeps the two maps similar. */
  lemma SwapThenTrade(s: seq<Transaction>, i: nat, estimates: map<string, real>)
    requires AllPositive(s) && i + 2 < |s|
    requires AllPositive(Swapped(s[..|s| - 1], i))
    requires SimilarBooks(BookOf(s[..|s| - 1], estimates), BookOf(Swapped(s[..|s| - 1], i), estimates))
    ensures AllPositive(Swapped(s, i))
    ensures SimilarBooks(BookOf(s, estimates), BookOf(Swapped(s, i), estimates))
  {
    SwappedPositive(s, i);
    SwappedPrefix(s, i, |s| - 1);
    PrefixPositive(s, |s| - 1);
    AppendKeepsSimilar(s, Swapped(s, i), estimates);
  }

  /**
   * Swapping two adjacent same-side trades anywhere in the log leaves every
   * ticker's position unchanged.
   */
  lemma {:induction false} SwapKeepsPositions(s: seq<Transaction>, i: nat, estimates: map<string, real>)
    requires AllPositive(s) && i + 1 < |s| && SameSide(s[i], s[i + 1])
    ensures AllPositive(Swapped(s, i))
    ensures SimilarBooks(BookOf(s, estimates), BookOf(Swapped(s, i), estimates))
    decreases |s|
  {
    if |s| == i + 2 {
      SwapAtEnd(s, estimates);
    } else {
      PrefixPositive(s, |s| - 1);
      SwapKeepsPositions(s[..|s| - 1], i, estimates);
      SwapThenTrade(s, i, estimates);
    }
  }

  /** The update of one record by one trade, in place (App.tsx:101-119). */
  method UpdateRecord(h: Holding, t: Transaction, estimates: map<string, real>) returns (current: Holding)
    requires h.quantity >= 0.0 && t.quantity > 0.0 && h.ticker == t.ticker
    ensures current == Annotate(Trade(h, t), estimates)
  {
    current := h;
    if t.kind == BUY {
      var newQuantity := current.quantity + t.quantity;
      var newInvestment := t.quantity * t.price + t.fees;
      current := current.(totalInvested := current.totalInvested + newInvestment);
      current := current.(quantity := newQuantity);
      current := current.(averageCost := current.totalInvested / newQuantity);
    } else {
      var soldQty := Min(t.quantity, current.quantity);
      current := current.(quantity := current.quantity - soldQty);
      if current.quantity > 0.0 {
        current := current.(totalInvested := current.quantity * current.averageCost);
      } else {
        current := current.(totalInvested := 0.0, averageCost := 0.0);
      }
    }
    assert current == Trade(h, t);
    current := current.(estimatedDividendPerShare := EstimateFor(estimates, t.ticker));
    current := current.(estimatedTotalDividend := current.quantity * current.estimatedDividendPerShare);
  }

  /** The `forEach` over the sorted copy (App.tsx:90-122). */
  method FoldTrades(sorted: seq<Transaction>, estimates: map<string, real>)
    returns (order: seq<string>, entries: map<string, Holding>)
    requires AllPositive(sorted)
    ensures Book(order, entries) == BookOf(sorted, estimates)
  {
    order, entries := [], map[];
    var i := 0;
    while i < |sorted|
      invariant 0 <= i <= |sorted|
      invariant AllPositive(sorted[..i])
      invariant Book(order, entries) == BookOf(sorted[..i], estimates)
    {
      assert sorted[..i + 1][..i] == sorted[..i];
      PrefixPositive(sorted, i + 1);
      var t := sorted[i];
      assert BookOf(sorted[..i + 1], estimates) == Step(BookOf(sorted[..i], estimates), t, estimates);
      var current := if t.ticker in entries then entries[t.ticker] else Fresh(t, estimates);
      current := UpdateRecord(current, t, estimates);
      if t.ticker !in entries {
        order := order + [t.ticker];
      }
      entries := entries[t.ticker := current];
      assert Book(order, entries) == Step(BookOf(sorted[..i], estimates), t, estimates);
      i := i + 1;
    }
    assert sorted[..|sorted|] == sorted;
  }

  /** `Array.from(map.values()).filter(h => h.quantity > 0)` (App.tsx:124). */
  method CollectOpen(order: seq<string>, entries: map<string, Holding>) returns (holdings: seq<Holding>)
    requires forall k :: k in order ==> k in entries
    ensures holdings == OpenPositions(order, entries)
  {
    holdings := [];
    var j := 0;
    while j < |order|
      invariant 0 <= j <= |order|
      invariant holdings == OpenPositions(order[..j], entries)
    {
      assert order[..j + 1][..j] == order[..j];
      var h := entries[order[j]];
      if h.quantity > 0.0 {
        holdings := holdings + [h];
      }
      j := j + 1;
    }
    assert order[..|order|] == order;
  }

  /** The `holdings` memo (App.tsx:82-125). */
  method ComputeHoldings(transactions: seq<Transaction>, estimates: map<string, real>)
    returns (holdings: seq<Holding>)
    requires AllPositive(transactions)
    ensures holdings == HoldingsOf(transactions, estimates)
  {
    var sorted := FoldOrder(transactions);
    var order, entries := FoldTrades(sorted, estimates);
    holdings := CollectOpen(order, entries);
  }

  /** With non-negative prices and fees no returned holding has a negative cost basis. */
  lemma HoldingsCostNonNegative(transactions: seq<Transaction>, estimates: map<string, real>)
    requires AllPositive(transactions) && NonNegativeCosts(transactions)
    ensures forall h :: h in HoldingsOf(transactions, estimates) ==>
              h.averageCost >= 0.0 && h.totalInvested >= 0.0
  {
    forall h | h in HoldingsOf(transactions, estimates)
      ensures h.averageCost >= 0.0 && h.totalInvested >= 0.0
    {
      HoldingOfTicker(transactions, estimates, h.ticker);
      var ts := TradesOf(FoldOrder(transactions), h.ticker);
      ReplayCostNonNegative(Fresh(ts[0], estimates), ts);
    }
  }

  // ---------------------------------------------------------------------
  // State updates (App.tsx:75-80, 127-131).
  // ---------------------------------------------------------------------

  /** `updateDividendEstimate`: sets the estimate of one ticker. */
  function UpdateDividendEstimate(estimates: map<string, real>, ticker: string, value: real): (r: map<string, real>)
    ensures EstimateFor(r, ticker) == value
    ensures forall k :: k != ticker ==> (k in r <==> k in estimates) && EstimateFor(r, k) == EstimateFor(estimates, k)
    ensures r.Keys == estimates.Keys + {ticker}
  {
    estimates[ticker := value]
  }

  /** `addTransaction`: appends to the log. */
  function AddTransaction(s: seq<Transaction>, t: Transaction): (r: seq<Transaction>)
    ensures |r| == |s| + 1 && r[..|s|] == s && r[|s|] == t
  {
    s + [t]
  }

  /** `addDividend`: appends to the list of receipts. */
  function AddDividend(s: seq<Dividend>, d: Dividend): (r: seq<Dividend>)
    ensures |r| == |s| + 1 && r[..|s|] == s && r[|s|] == d
  {
    s + [d]
  }

  /** `filter(x => id(x) !== target)`. */
  function RemoveId<T(!new)>(s: seq<T>, id: T -> string, target: string): (r: seq<T>)
    ensures forall x :: x in r <==> x in s && id(x) != target
    ensures |r| <= |s|
    decreases |s|
  {
    if s == [] then []
    else
      var rest := RemoveId(s[..|s| - 1], id, target);
      assert s == s[..|s| - 1] + [s[|s| - 1]];
      if id(s[|s| - 1]) != target then rest + [s[|s| - 1]] else rest
  }

  /** The filter works element by element, so it keeps the survivors' order. */
  lemma {:induction false} RemoveIdConcat<T(!new)>(a: seq<T>, b: seq<T>, id: T -> string, target: string)
    ensures RemoveId(a + b, id, target) == RemoveId(a, id, target) + RemoveId(b, id, target)
    decreases |b|
  {
    if b != [] {
      var b' := b[..|b| - 1];
      assert (a + b)[..|a + b| - 1] == a + b';
      RemoveIdConcat(a, b', id, target);
    } else {
      assert a + b == a;
    }
  }

  /** Removing an id nothing carries changes nothing. */
  lemma {:induction false} RemoveIdAbsent<T(!new)>(s: seq<T>, id: T -> string, target: string)
    requires forall x :: x in s ==> id(x) != target
    ensures RemoveId(s, id, target) == s
    decreases |s|
  {
    if s != [] {
      assert forall x :: x in s[..|s| - 1] ==> x in s;
      RemoveIdAbsent(s[..|s| - 1], id, target);
    }
  }

  /** `removeTransaction`. */
  function RemoveTransaction(s: seq<Transaction>, id: string): (r: seq<Transaction>)
    ensures forall t :: t in r <==> t in s && t.id != id
  {
    RemoveId(s, (t: Transaction) => t.id, id)
  }

  /** `removeDividend`. */
  function RemoveDividend(s: seq<Dividend>, id: string): (r: seq<Dividend>)
    ensures forall d :: d in r <==> d in s && d.id != id
  {
    RemoveId(s, (d: Dividend) => d.id, id)
  }

  /** Adding a trade and removing its id leaves the rest of the log as removal alone would. */
  lemma AddThenRemove(s: seq<Transaction>, t: Transaction)
    ensures RemoveTransaction(AddTransaction(s, t), t.id) == RemoveTransaction(s, t.id)
  {
    RemoveIdConcat(s, [t], (t: Transaction) => t.id, t.id);
  }

  /** Removing a trade keeps the other trades in their order. */
  lemma RemoveTransactionKeepsOrder(a: seq<Transaction>, t: Transaction, b: seq<Transaction>)
    requires forall u :: u in a + b ==> u.id != t.id
    ensures RemoveTransaction(a + [t] + b, t.id) == a + b
  {
    var id := (u: Transaction) => u.id;
    RemoveIdConcat(a + [t], b, id, t.id);
    RemoveIdConcat(a, [t], id, t.id);
    RemoveIdAbsent(a, id, t.id);
    RemoveIdAbsent(b, id, t.id);
  }

  /** Removing a receipt keeps the other receipts in their order. */
  lemma RemoveDividendKeepsOrder(a: seq<Dividend>, d: Dividend, b: seq<Dividend>)
    requires forall u :: u in a + b ==> u.id != d.id
    ensures RemoveDividend(a + [d] + b, d.id) == a + b
  {
    var id := (u: Dividend) => u.id;
    RemoveIdConcat(a + [d], b, id, d.id);
    RemoveIdConcat(a, [d], id, d.id);
    RemoveIdAbsent(a, id, d.id);
    RemoveIdAbsent(b, id, d.id);
  }
}

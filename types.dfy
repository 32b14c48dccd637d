/**
 * The record types of the portfolio tracker (types.ts): trades, dividend
 * receipts and the derived per-ticker holding. Amounts are reals; the
 * transaction type is kept as the raw string it is stored as, because CSV
 * import assigns it without validation.
 */
module Types {

  datatype Option<T> = None | Some(value: T)

  /** The two values of the `TransactionType` enum. */
  const BUY: string := "BUY"
  const SELL: string := "SELL"

  /** A trade. `kind` is the source's `type` field. */
  datatype Transaction = Transaction(
    id: string,
    date: string,
    ticker: string,
    name: string,
    kind: string,
    quantity: real,
    price: real,
    fees: real)

  /** A dividend receipt; `amount` may be negative (a correction). */
  datatype Dividend = Dividend(
    id: string,
    date: string,
    ticker: string,
    name: string,
    amount: real)

  /**
   * A current position. The two estimate fields are optional in the source's
   * type but the aggregator always sets them, so they are plain reals here.
   */
  datatype Holding = Holding(
    ticker: string,
    name: string,
    quantity: real,
    averageCost: real,
    totalInvested: real,
    estimatedDividendPerShare: real,
    estimatedTotalDividend: real)

  /** Every trade has a strictly positive quantity: an assumption of the folds, which neither the entry form nor import enforces. */
  ghost predicate AllPositive(s: seq<Transaction>) {
    forall t :: t in s ==> t.quantity > 0.0
  }

  /** Prices and fees are non-negative. */
  ghost predicate NonNegativeCosts(s: seq<Transaction>) {
    forall t :: t in s ==> t.price >= 0.0 && t.fees >= 0.0
  }

  ghost predicate Distinct<T>(s: seq<T>) {
    forall i, j :: 0 <= i < j < |s| ==> s[i] != s[j]
  }

  /** `Math.min`. */
  function Min(a: real, b: real): real {
    if a <= b then a else b
  }
}

/**
 * How the store derives a product's status from its stock.
 *
 * `updateProduct` applies a threshold rule to the stock (`ThresholdStatus`
 * on a non-negative stock). `createProduct` applies the same branches at or
 * below the threshold but keeps the caller's status above it. Neither checks
 * the sign of the stock, and a product created without a stock has none at
 * all.
 */
module StockStatus {
  import opened Schema

  const ACTIVE: string := "active"
  const LOW_STOCK: string := "low_stock"
  const OUT_OF_STOCK: string := "out_of_stock"

  /** Stock at or below this is low. */
  const LOW_STOCK_THRESHOLD: int := 10

  /** The threshold rule `updateProduct` applies to a non-negative stock: 0 is out of stock, 1..10 low, above 10 active. */
  function ThresholdStatus(stock: nat): string {
    if stock == 0 then OUT_OF_STOCK
    else if stock <= LOW_STOCK_THRESHOLD then LOW_STOCK
    else ACTIVE
  }

  /** `status || "active"`: JavaScript's `||` also replaces the empty string. */
  function RequestedOrActive(requested: Option<string>): (s: string)
    ensures s != ""
    ensures requested.Some? && requested.value != "" ==> s == requested.value
  {
    if requested.Some? && requested.value != "" then requested.value else ACTIVE
  }

  /**
   * The status `createProduct` stores. `stock === 0` and `stock <= 10` are
   * both false for an absent stock, so then the caller's status is kept.
   */
  function CreateStatus(stock: Option<int>, requested: Option<string>): (s: string)
    ensures stock.Some? && stock.value >= 0 && stock.value <= LOW_STOCK_THRESHOLD ==>
      s == ThresholdStatus(stock.value)
    ensures stock.Some? && stock.value < 0 ==> s == LOW_STOCK
    ensures (stock.None? || stock.value > LOW_STOCK_THRESHOLD) ==> s == RequestedOrActive(requested)
  {
    if stock == Some(0) then OUT_OF_STOCK
    else if stock.Some? && stock.value <= LOW_STOCK_THRESHOLD then LOW_STOCK
    else RequestedOrActive(requested)
  }

  /**
   * The status `updateProduct` stores, from the merged row's stock; the
   * status the caller sent and the one stored before play no part.
   */
  function UpdateStatus(stock: Option<int>): (s: string)
    ensures stock.Some? && stock.value >= 0 ==> s == ThresholdStatus(stock.value)
    ensures stock.Some? && stock.value < 0 ==> s == LOW_STOCK
    ensures stock.None? ==> s == ACTIVE
  {
    if stock == Some(0) then OUT_OF_STOCK
    else if stock.Some? && stock.value <= LOW_STOCK_THRESHOLD then LOW_STOCK
    else ACTIVE
  }

  /**
   * What every stored product satisfies: with a stock present and at most
   * the threshold, the status is the one the threshold rule gives (low
   * stock for negative amounts). Above the threshold nothing is promised,
   * since a create may keep any status the caller sent.
   */
  ghost predicate StatusAgreesAtOrBelowThreshold(p: Product) {
    p.stock.Some? && p.stock.value <= LOW_STOCK_THRESHOLD ==> p.status == UpdateStatus(p.stock)
  }

  /** A product with a known, non-negative stock carries the status the threshold rule gives. */
  ghost predicate StatusMatchesStock(p: Product) {
    p.stock.Some? && p.stock.value >= 0 ==> p.status == ThresholdStatus(p.stock.value)
  }

  // ------------------------------------------------------------------- lemmas

  /** The three bands of the threshold rule, both ways. */
  lemma ThresholdBands(stock: nat)
    ensures ThresholdStatus(stock) == OUT_OF_STOCK <==> stock == 0
    ensures ThresholdStatus(stock) == LOW_STOCK <==> 1 <= stock <= LOW_STOCK_THRESHOLD
    ensures ThresholdStatus(stock) == ACTIVE <==> stock > LOW_STOCK_THRESHOLD
  {
  }

  /** Create and update agree whenever the stock is present and at most 10. */
  lemma CreateAgreesWithUpdateAtOrBelowThreshold(stock: int, requested: Option<string>)
    requires stock <= LOW_STOCK_THRESHOLD
    ensures CreateStatus(Some(stock), requested) == UpdateStatus(Some(stock))
  {
  }

  /**
   * Above the threshold a create stores whatever non-empty status the caller
   * sent, so right after a create the status can differ from the threshold rule.
   */
  lemma CreateCanBreakThresholdRule()
    ensures CreateStatus(Some(50), Some(OUT_OF_STOCK)) == OUT_OF_STOCK
    ensures ThresholdStatus(50) == ACTIVE
  {
  }

  /** Whatever status an update writes makes the product meet both invariants. */
  lemma UpdatedStatusKeepsInvariants(p: Product)
    ensures StatusMatchesStock(p.(status := UpdateStatus(p.stock)))
    ensures StatusAgreesAtOrBelowThreshold(p.(status := UpdateStatus(p.stock)))
  {
  }

  /** For a stock from 0 to 10 the store invariant is the threshold rule. */
  lemma StoreInvariantIsThresholdRuleAtOrBelow10(p: Product)
    requires p.stock.Some? && 0 <= p.stock.value <= LOW_STOCK_THRESHOLD
    ensures StatusAgreesAtOrBelowThreshold(p) <==> StatusMatchesStock(p)
  {
  }
}

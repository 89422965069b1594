/**
 * The three calculators: budget to bid (calculate-bid.php), bid to total
 * (calculate-total.php) and cost to selling price (calculate-profit.php).
 *
 * Amounts are exact reals. PHP computes them in floating point and rounds
 * every output with `round($x, 2)`; the quotes here hold the values before
 * that rounding, and all properties are about them.
 */
module Formulas {
  import opened Wrappers
  import opened Json
  import opened Http

  /** `(float) ($data[k] ?? 0)` and `isset($data[k]) ? (float) $data[k] : 0`: absent or null is 0. */
  function Amount(field: Option<real>): real {
    field.GetOr(0.0)
  }

  /** `isset($data['paying_in_cash']) ? (bool) $data['paying_in_cash'] : false`. */
  predicate CashFlag(field: Option<Json>) {
    field.Some? && PhpTruthy(field.value)
  }

  /** `1 + percent / 100`: the multiplier a percentage surcharge stands for. */
  function Factor(percent: real): real {
    1.0 + percent / 100.0
  }

  // ------------------------------------------------------- budget -> bid

  datatype BidRequest = BidRequest(
    targetTotal: Option<real>,
    vatPercent: Option<real>,
    buyersPremiumPercent: Option<real>,
    documentFee: Option<real>,
    extraFee: Option<real>,
    payingInCash: Option<Json>,
    cashFeePercent: Option<real>)

  datatype BidQuote = BidQuote(
    subtotal: real,
    vatAmount: real,
    buyersPremium: real,
    estimatedBid: real,
    documentFee: real,
    extraFee: real,
    cashFee: real)

  const InvalidVat := BadRequest("Invalid VAT")
  const InvalidPremium := BadRequest("Invalid buyer's premium")

  /** The budget side's cash handling fee applies only when paying in cash at a positive rate. */
  predicate BidCashApplies(req: BidRequest) {
    CashFlag(req.payingInCash) && Amount(req.cashFeePercent) > 0.0
  }

  /**
   * POST calculate-bid: the largest hammer price whose total, with buyer's
   * premium, fees and VAT added, stays within `target_total`.
   */
  function CalculateBid(req: BidRequest): (r: Result<BidQuote, ApiError>)
    // the VAT factor is checked first, then the premium factor
    ensures Factor(Amount(req.vatPercent)) <= 0.0 <==> r == Err(InvalidVat)
    ensures Factor(Amount(req.vatPercent)) > 0.0 && Factor(Amount(req.buyersPremiumPercent)) <= 0.0
            <==> r == Err(InvalidPremium)
    ensures r.Ok? <==> Factor(Amount(req.vatPercent)) > 0.0 && Factor(Amount(req.buyersPremiumPercent)) > 0.0
    ensures r.Ok? ==>
      var q := r.value;
      var total := Amount(req.targetTotal);
      // the target splits exactly into its pre-VAT part and the VAT on it
      && q.subtotal + q.vatAmount == total
      && q.subtotal * Factor(Amount(req.vatPercent)) == total
      // the pre-VAT part is made of the bid with premium, and the fees
      && q.estimatedBid * Factor(Amount(req.buyersPremiumPercent)) + q.documentFee + q.extraFee + q.cashFee
         == q.subtotal
      && q.estimatedBid + q.buyersPremium == q.subtotal - q.documentFee - q.extraFee - q.cashFee
      // the fees are echoed back as given
      && q.documentFee == Amount(req.documentFee)
      && q.extraFee == Amount(req.extraFee)
      // the cash fee is a share of the target, converted to pre-VAT, or nothing
      && (if BidCashApplies(req)
          then q.cashFee * Factor(Amount(req.vatPercent)) == total * Amount(req.cashFeePercent) / 100.0
          else q.cashFee == 0.0)
  {
    var targetTotal := Amount(req.targetTotal);
    var vatPercent := Amount(req.vatPercent);
    var premiumPercent := Amount(req.buyersPremiumPercent);
    var documentFee := Amount(req.documentFee);
    var extraFee := Amount(req.extraFee);
    var cashFeePercent := Amount(req.cashFeePercent);
    var vatFactor := Factor(vatPercent);
    if vatFactor <= 0.0 then Err(InvalidVat)
    else
      var subtotal := targetTotal / vatFactor;
      var cashFee := if BidCashApplies(req) then (targetTotal * (cashFeePercent / 100.0)) / vatFactor else 0.0;
      var bpFactor := Factor(premiumPercent);
      if bpFactor <= 0.0 then Err(InvalidPremium)
      else
        var net := subtotal - documentFee - extraFee - cashFee;
        var estimatedBid := net / bpFactor;
        var buyersPremium := estimatedBid * (premiumPercent / 100.0);
        assert estimatedBid * bpFactor == net;
        assert estimatedBid + buyersPremium == estimatedBid * bpFactor;
        Ok(BidQuote(subtotal, targetTotal - subtotal, buyersPremium, estimatedBid, documentFee, extraFee, cashFee))
  }

  // ------------------------------------------------------- bid -> total

  datatype TotalRequest = TotalRequest(
    bidAmount: Option<real>,
    buyersPremiumPercent: Option<real>,
    documentFee: Option<real>,
    vatPercent: Option<real>,
    extraFee: Option<real>,
    payingInCash: Option<Json>,
    cashFeePercent: Option<real>)

  datatype TotalQuote = TotalQuote(
    bid: real,
    buyersPremium: real,
    documentFee: real,
    extraFee: real,
    subtotal: real,
    vat: real,
    cashFee: real,
    total: real)

  predicate TotalCashApplies(req: TotalRequest) {
    CashFlag(req.payingInCash) && Amount(req.cashFeePercent) > 0.0
  }

  /**
   * POST calculate-total: what a hammer price costs once the buyer's premium,
   * fees, the optional cash handling fee and VAT are added. Every input
   * gives a quote: there is nothing to divide by, so no error result.
   */
  function CalculateTotal(req: TotalRequest): (q: TotalQuote)
    ensures q.bid == Amount(req.bidAmount)
    ensures q.buyersPremium == q.bid * Amount(req.buyersPremiumPercent) / 100.0
    ensures q.subtotal == q.bid + q.buyersPremium + q.documentFee + q.extraFee
    ensures q.documentFee == Amount(req.documentFee) && q.extraFee == Amount(req.extraFee)
    ensures q.cashFee == if TotalCashApplies(req) then q.subtotal * Amount(req.cashFeePercent) / 100.0 else 0.0
    ensures q.vat == (q.subtotal + q.cashFee) * Amount(req.vatPercent) / 100.0
    ensures q.total == q.subtotal + q.cashFee + q.vat
    // equivalently: VAT is charged on everything else
    ensures q.total == (q.subtotal + q.cashFee) * Factor(Amount(req.vatPercent))
  {
    var bid := Amount(req.bidAmount);
    var premiumPercent := Amount(req.buyersPremiumPercent);
    var documentFee := Amount(req.documentFee);
    var vatPercent := Amount(req.vatPercent);
    var extraFee := Amount(req.extraFee);
    var cashFeePercent := Amount(req.cashFeePercent);
    var buyersPremium := bid * (premiumPercent / 100.0);
    var subtotal := bid + buyersPremium + documentFee + extraFee;
    var cashFee := if TotalCashApplies(req) then subtotal * (cashFeePercent / 100.0) else 0.0;
    var vat := (subtotal + cashFee) * (vatPercent / 100.0);
    TotalQuote(bid, buyersPremium, documentFee, extraFee, subtotal, vat, cashFee, subtotal + cashFee + vat)
  }

  /** With nothing negative coming in, each stage only adds: total >= subtotal >= bid. */
  lemma TotalIsMonotone(req: TotalRequest)
    requires Amount(req.bidAmount) >= 0.0 && Amount(req.buyersPremiumPercent) >= 0.0
    requires Amount(req.documentFee) >= 0.0 && Amount(req.extraFee) >= 0.0
    requires Amount(req.vatPercent) >= 0.0 && Amount(req.cashFeePercent) >= 0.0
    ensures CalculateTotal(req).total >= CalculateTotal(req).subtotal >= CalculateTotal(req).bid
  {
    var q := CalculateTotal(req);
    assert q.buyersPremium >= 0.0;
    assert q.cashFee >= 0.0;
    assert q.vat >= 0.0;
  }

  // ------------------------------------------------------ round trip

  /** The bid-to-total request that re-prices a budget quote with the same rates and fees. */
  function RepriceRequest(req: BidRequest, q: BidQuote): TotalRequest {
    TotalRequest(Some(q.estimatedBid), req.buyersPremiumPercent, req.documentFee, req.vatPercent,
                 req.extraFee, None, None)
  }

  /**
   * The two calculators are inverses: without a cash fee, pricing the
   * estimated bid with the same percentages and fees gives back exactly the
   * target total.
   */
  lemma BidThenTotalRoundTrip(req: BidRequest)
    requires CalculateBid(req).Ok?
    requires !BidCashApplies(req)
    ensures CalculateTotal(RepriceRequest(req, CalculateBid(req).value)).total == Amount(req.targetTotal)
  {
    var q := CalculateBid(req).value;
    var t := CalculateTotal(RepriceRequest(req, q));
    var bp := Factor(Amount(req.buyersPremiumPercent));
    assert t.subtotal == q.estimatedBid * bp + q.documentFee + q.extraFee;
    assert t.subtotal == q.subtotal;
    assert t.cashFee == 0.0;
  }

  /**
   * With a cash fee at rate c% on both sides the round trip does not close:
   * the budget side takes c% of the target, the total side adds c% of the
   * subtotal, and the re-priced total falls short of the target by
   * target * (c/100)^2.
   */
  lemma CashRoundTripShortfall(req: BidRequest, payingInCash: Json)
    requires CalculateBid(req).Ok?
    requires BidCashApplies(req)
    requires PhpTruthy(payingInCash)
    ensures
      var q := CalculateBid(req).value;
      var c := Amount(req.cashFeePercent) / 100.0;
      var t := CalculateTotal(RepriceRequest(req, q).(payingInCash := Some(payingInCash),
                                                       cashFeePercent := req.cashFeePercent));
      t.total == Amount(req.targetTotal) * (1.0 - c * c)
  {
    var q := CalculateBid(req).value;
    var c := Amount(req.cashFeePercent) / 100.0;
    var total := Amount(req.targetTotal);
    var v := Factor(Amount(req.vatPercent));
    var treq := RepriceRequest(req, q).(payingInCash := Some(payingInCash), cashFeePercent := req.cashFeePercent);
    var t := CalculateTotal(treq);
    assert TotalCashApplies(treq);
    assert q.cashFee * v == total * c;
    assert t.subtotal == q.subtotal - q.cashFee;
    assert t.subtotal * v == total - total * c;
    assert t.total == t.subtotal * (1.0 + c) * v;
    assert t.total == (total - total * c) * (1.0 + c);
  }

  // ------------------------------------------------------------- profit

  datatype ProfitRequest = ProfitRequest(
    purchasePrice: Option<real>,
    totalExpenses: Option<real>,
    profitPercentage: Option<real>)

  datatype ProfitQuote = ProfitQuote(
    totalCost: real,
    profitValue: real,
    profitPercentage: real,
    sellingPrice: real)

  /** POST calculate-profit: a selling price that adds a percentage margin to the total cost. */
  function CalculateProfit(req: ProfitRequest): (q: ProfitQuote)
    ensures q.totalCost == Amount(req.purchasePrice) + Amount(req.totalExpenses)
    ensures q.profitValue == q.totalCost * q.profitPercentage / 100.0
    ensures q.profitPercentage == Amount(req.profitPercentage)
    ensures q.sellingPrice - q.totalCost == q.profitValue
    ensures q.sellingPrice == q.totalCost * Factor(q.profitPercentage)
  {
    var totalCost := Amount(req.purchasePrice) + Amount(req.totalExpenses);
    var percent := Amount(req.profitPercentage);
    var profitValue := totalCost * (percent / 100.0);
    ProfitQuote(totalCost, profitValue, percent, totalCost + profitValue)
  }

  /** A zero margin sells at cost; a positive margin on a positive cost sells above it. */
  lemma ProfitMargin(req: ProfitRequest)
    ensures Amount(req.profitPercentage) == 0.0 ==> CalculateProfit(req).sellingPrice == CalculateProfit(req).totalCost
    ensures Amount(req.profitPercentage) > 0.0 && CalculateProfit(req).totalCost > 0.0
            ==> CalculateProfit(req).sellingPrice > CalculateProfit(req).totalCost
  {
    var q := CalculateProfit(req);
    if Amount(req.profitPercentage) > 0.0 && q.totalCost > 0.0 {
      assert q.profitValue > 0.0;
    }
  }
}

/**
 * What the history page (frontend/src/pages/History.jsx) shows of a saved
 * calculation: the one-line summary of each card, which input and result
 * fields the detail view lists, and how an input value is written there.
 *
 * `formatMoney` (Intl.NumberFormat) is a browser library call and is not
 * modelled: a summary keeps the two amounts it would format.
 */
module HistoryView {
  import opened Wrappers
  import opened Json
  import opened Tables
  import opened Text

  /** The card's summary: '—', "a → b", or "Cost: a | Sell: b". */
  datatype Summary = Dash | Arrow(from: Json, to: Json) | CostSell(cost: Json, sell: Json)

  /** `blob?.[key]` when it is neither null nor undefined (`!= null`), else `None`. */
  function Present(blob: Json, key: string): (r: Option<Json>)
    ensures r.Some? <==> blob.JObj? && key in blob.fields && blob.fields[key] != JNull
    ensures r.Some? ==> r.value == blob.fields[key] && r.value != JNull
  {
    var v := Get(Some(blob), key);
    if IsNullish(v) then None else v
  }

  /**
   * `getSummaryLine(item)`. Budget to bid shows the target (or, failing that,
   * the pre-VAT subtotal) and the estimated bid; bid to total shows the bid as
   * entered (or, failing that, as echoed in the result) and the total; profit
   * shows the cost and the selling price with extras (or, failing that, the
   * plain selling price). Any missing amount, or an unknown feature, gives '—'.
   */
  function SummaryLine(item: HistoryRow): (r: Summary)
    ensures item.featureType == "budget_to_bid" ==>
      var total := if Present(item.inputData, "target_total").Some? then Present(item.inputData, "target_total")
                   else Present(item.outputData, "subtotal");
      var bid := Present(item.outputData, "estimated_bid");
      (r != Dash <==> total.Some? && bid.Some?) &&
      (r != Dash ==> r == Arrow(total.value, bid.value))
    ensures item.featureType == "bid_to_total" ==>
      var bid := if Present(item.inputData, "bid_amount").Some? then Present(item.inputData, "bid_amount")
                 else Present(item.outputData, "bid");
      var total := Present(item.outputData, "total");
      (r != Dash <==> bid.Some? && total.Some?) &&
      (r != Dash ==> r == Arrow(bid.value, total.value))
    ensures item.featureType == "profit" ==>
      var cost := Present(item.outputData, "total_cost");
      var sell := if Present(item.outputData, "total_selling_price").Some? then Present(item.outputData, "total_selling_price")
                  else Present(item.outputData, "selling_price");
      (r != Dash <==> cost.Some? && sell.Some?) &&
      (r != Dash ==> r == CostSell(cost.value, sell.value))
    ensures item.featureType !in {"budget_to_bid", "bid_to_total", "profit"} ==> r == Dash
    // no amount shown is ever null
    ensures r.Arrow? ==> r.from != JNull && r.to != JNull
    ensures r.CostSell? ==> r.cost != JNull && r.sell != JNull
  {
    var input, output := Some(item.inputData), Some(item.outputData);
    if item.featureType == "budget_to_bid" then
      var total := Coalesce(Get(input, "target_total"), Get(output, "subtotal"));
      var bid := Get(output, "estimated_bid");
      if !IsNullish(total) && !IsNullish(bid) then Arrow(total.value, bid.value) else Dash
    else if item.featureType == "bid_to_total" then
      var bid := Coalesce(Get(input, "bid_amount"), Get(output, "bid"));
      var total := Get(output, "total");
      if !IsNullish(bid) && !IsNullish(total) then Arrow(bid.value, total.value) else Dash
    else if item.featureType == "profit" then
      var cost := Get(output, "total_cost");
      var sell := Coalesce(Get(output, "total_selling_price"), Get(output, "selling_price"));
      if !IsNullish(cost) && !IsNullish(sell) then CostSell(cost.value, sell.value) else Dash
    else Dash
  }

  /**
   * An entry saved without a result object (history-save stores `[]` for it)
   * is summarised as '—' whatever its feature: the page needs an amount from
   * the result in every case.
   */
  lemma NoResultNoSummary(item: HistoryRow)
    requires !item.outputData.JObj?
    ensures SummaryLine(item) == Dash
  {
    assert Present(item.outputData, "estimated_bid").None?;
    assert Present(item.outputData, "total").None?;
    assert Present(item.outputData, "total_cost").None?;
  }

  /** JavaScript's `value === 0 || value === '0'`. */
  predicate IsZero(value: Json) {
    value == JNum(0.0) || value == JStr("0")
  }

  /**
   * `shouldShowInputField(key, value, inputData)`: nothing null or undefined;
   * no zero extra fee; no cash flag that is falsy; no cash fee percentage
   * unless paying in cash at a non-zero rate. Every other field is shown.
   */
  function ShowInputField(key: string, value: Option<Json>, inputData: Json): (shown: bool)
    ensures IsNullish(value) ==> !shown
    ensures key !in {"extra_fee", "paying_in_cash", "cash_fee_percent"} ==> (shown <==> !IsNullish(value))
    ensures key == "extra_fee" ==> (shown <==> !IsNullish(value) && !IsZero(value.value))
    ensures key == "paying_in_cash" ==> (shown <==> JsTruthy(value))
    ensures key == "cash_fee_percent" ==>
      (shown <==> !IsNullish(value) && !IsZero(value.value) && JsTruthy(Get(Some(inputData), "paying_in_cash")))
  {
    if IsNullish(value) then false
    else if key == "extra_fee" && IsZero(value.value) then false
    else if key == "paying_in_cash" && !JsTruthy(value) then false
    else if key == "cash_fee_percent" && (!JsTruthy(Get(Some(inputData), "paying_in_cash")) || IsZero(value.value)) then false
    else true
  }

  /** `shouldShowOutputField(key, value)`: nothing null or undefined, and no zero cash or extra fee. */
  function ShowOutputField(key: string, value: Option<Json>): (shown: bool)
    ensures key != "cash_fee" && key != "extra_fee" ==> (shown <==> !IsNullish(value))
    ensures key == "cash_fee" || key == "extra_fee" ==> (shown <==> !IsNullish(value) && !IsZero(value.value))
  {
    if IsNullish(value) then false
    else if key == "cash_fee" && IsZero(value.value) then false
    else if key == "extra_fee" && IsZero(value.value) then false
    else true
  }

  /** Distinct indices print as distinct keys. */
  lemma IndexKeysDiffer(i: nat, j: nat)
    requires NatToString(i) == NatToString(j)
    ensures i == j
  {
    NumberOfNatToString(i);
    NumberOfNatToString(j);
  }

  /** Every key is a string of digits whose value is an index below `n`. */
  predicate IndexKeys(e: map<string, Json>, n: nat) {
    forall k :: k in e ==> AllDigits(k) && DecimalValue(k) < n
  }

  /** The entries of a list: each element under its index, "0", "1", …, and nothing else. */
  function IndexEntries(items: seq<Json>): (e: map<string, Json>)
    ensures |e| == |items| && IndexKeys(e, |items|)
    ensures forall i :: 0 <= i < |items| ==> NatToString(i) in e && e[NatToString(i)] == items[i]
    decreases |items|
  {
    if items == [] then map[]
    else
      var n := |items| - 1;
      var front := IndexEntries(items[..n]);
      IndexStep(front, items);
      front[NatToString(n) := items[n]]
  }

  /** Adding the entry of the last element to the entries of the ones before it. */
  lemma IndexStep(front: map<string, Json>, items: seq<Json>)
    requires |items| > 0
    requires |front| == |items| - 1 && IndexKeys(front, |items| - 1)
    requires forall i :: 0 <= i < |items| - 1 ==> NatToString(i) in front && front[NatToString(i)] == items[..|items| - 1][i]
    ensures var e := front[NatToString(|items| - 1) := items[|items| - 1]];
      |e| == |items| && IndexKeys(e, |items|) &&
      forall i :: 0 <= i < |items| ==> NatToString(i) in e && e[NatToString(i)] == items[i]
  {
    var n := |items| - 1;
    var key := NatToString(n);
    var e := front[key := items[n]];
    DecimalOfNatToString(n);
    assert key !in front;
    forall i | 0 <= i < |items| ensures NatToString(i) in e && e[NatToString(i)] == items[i] {
      if i < n {
        DecimalOfNatToString(i);
        assert NatToString(i) != key;
        assert front[NatToString(i)] == items[..n][i] == items[i];
      }
    }
  }

  /** A string's characters, each as a one-character string. */
  function Characters(s: string): (cs: seq<Json>)
    ensures |cs| == |s| && forall i :: 0 <= i < |s| ==> cs[i] == JStr([s[i]])
  {
    seq(|s|, i requires 0 <= i < |s| => JStr([s[i]]))
  }

  /**
   * `Object.entries(blob || {})`, as a map from key to value (key order is
   * not modelled): an object's fields; a list's elements under "0", "1", …;
   * a string's characters, each a one-character string, under their
   * indices; nothing for anything else (null, a boolean or a number).
   */
  function Entries(blob: Json): (e: map<string, Json>)
    ensures blob.JObj? ==> e == blob.fields
    ensures blob.JArr? ==> e == IndexEntries(blob.items)
    ensures blob.JStr? ==> e == IndexEntries(Characters(blob.s))
    ensures !blob.JObj? && !blob.JArr? && !blob.JStr? ==> e == map[]
    // only an object has keys other than indices
    ensures !blob.JObj? ==> forall k :: k in e ==> AllDigits(k)
  {
    match blob
    case JObj(fields) => fields
    case JArr(items) => IndexEntries(items)
    case JStr(s) => IndexEntries(Characters(s))
    case _ => map[]
  }

  /**
   * The input fields the detail view lists: `Object.entries(input_data || {})`
   * filtered by `shouldShowInputField`.
   */
  function VisibleInputs(inputData: Json): (shown: map<string, Json>)
    ensures forall k :: k in shown <==>
      k in Entries(inputData) && ShowInputField(k, Some(Entries(inputData)[k]), inputData)
    ensures forall k :: k in shown ==> shown[k] == Entries(inputData)[k] && shown[k] != JNull
    // the cash fee percentage is listed only beside a truthy cash flag
    ensures "cash_fee_percent" in shown ==> "paying_in_cash" in shown
    ensures "extra_fee" in shown ==> !IsZero(shown["extra_fee"])
  {
    var e := Entries(inputData);
    map k | k in e && ShowInputField(k, Some(e[k]), inputData) :: e[k]
  }

  /** The result fields the detail view lists: `Object.entries(output_data || {})` filtered by `shouldShowOutputField`. */
  function VisibleOutputs(outputData: Json): (shown: map<string, Json>)
    ensures forall k :: k in shown <==>
      k in Entries(outputData) && ShowOutputField(k, Some(Entries(outputData)[k]))
    ensures forall k :: k in shown ==> shown[k] == Entries(outputData)[k] && shown[k] != JNull
    ensures "cash_fee" in shown ==> !IsZero(shown["cash_fee"])
    ensures "extra_fee" in shown ==> !IsZero(shown["extra_fee"])
    // a non-null entry other than the two fees is always listed
    ensures forall k ::
      (k in Entries(outputData) && k != "cash_fee" && k != "extra_fee" && Entries(outputData)[k] != JNull)
      ==> k in shown
  {
    var e := Entries(outputData);
    map k | k in e && ShowOutputField(k, Some(e[k])) :: e[k]
  }

  /**
   * A list saved as a blob is listed element by element: every non-null
   * element appears under its index, in the inputs and in the results alike.
   */
  lemma ListBlobShowsItsElements(items: seq<Json>)
    ensures forall i :: 0 <= i < |items| && items[i] != JNull ==>
      NatToString(i) in VisibleInputs(JArr(items)) && VisibleInputs(JArr(items))[NatToString(i)] == items[i] &&
      NatToString(i) in VisibleOutputs(JArr(items)) && VisibleOutputs(JArr(items))[NatToString(i)] == items[i]
  {
    forall i | 0 <= i < |items| && items[i] != JNull
      ensures NatToString(i) in VisibleInputs(JArr(items)) && NatToString(i) in VisibleOutputs(JArr(items))
    {
      var k := NatToString(i);
      assert k in Entries(JArr(items));
      assert k[0] != 'e' && k[0] != 'p' && k[0] != 'c' by {
        assert IsAsciiDigit(k[0]);
      }
      assert k != "extra_fee" && k != "paying_in_cash" && k != "cash_fee_percent" && k != "cash_fee";
    }
  }

  /**
   * How an input value is written: 'Yes' / 'No' for the cash flag, an integer
   * number as it is, any other number through `formatMoney`, and everything
   * else through `String(value)`.
   */
  datatype Display = Word(text: string) | Integer(n: real) | Money(amount: real) | Stringified(value: Json)

  predicate IsInteger(n: real) {
    n == n.Floor as real
  }

  /**
   * `String(value)` for what a JSON blob can hold. A plain object is always
   * "[object Object]". Numbers and arrays are left as `Stringified`: their
   * text depends on JavaScript's number printing.
   */
  function JsString(value: Option<Json>): (d: Display)
    ensures value.Some? && value.value.JStr? ==> d == Word(value.value.s)
    ensures value.Some? && value.value.JObj? ==> d == Word("[object Object]")
    ensures d.Stringified? <==> value.Some? && (value.value.JNum? || value.value.JArr?)
  {
    match value
    case None => Word("undefined")
    case Some(JNull) => Word("null")
    case Some(JBool(b)) => Word(if b then "true" else "false")
    case Some(JStr(s)) => Word(s)
    case Some(JObj(_)) => Word("[object Object]")
    case Some(v) => Stringified(v)
  }

  /** `formatInputValue(key, value)`. */
  function FormatInputValue(key: string, value: Option<Json>): (d: Display)
    ensures key == "paying_in_cash" ==> d == Word(if JsTruthy(value) then "Yes" else "No")
    ensures key != "paying_in_cash" && value.Some? && value.value.JNum? ==>
      d == if IsInteger(value.value.n) then Integer(value.value.n) else Money(value.value.n)
    ensures key != "paying_in_cash" && value.Some? && value.value.JStr? ==> d == Word(value.value.s)
    ensures key != "paying_in_cash" && (value.None? || !value.value.JNum?) ==> d == JsString(value)
  {
    if key == "paying_in_cash" then Word(if JsTruthy(value) then "Yes" else "No")
    else if value.Some? && value.value.JNum? then
      (if IsInteger(value.value.n) then Integer(value.value.n) else Money(value.value.n))
    else JsString(value)
  }

  /**
   * A listed cash flag always reads 'Yes': the flag is listed only when it is
   * truthy, and a truthy flag is written 'Yes'.
   */
  lemma ListedCashFlagReadsYes(inputData: Json)
    requires "paying_in_cash" in VisibleInputs(inputData)
    ensures FormatInputValue("paying_in_cash", Some(VisibleInputs(inputData)["paying_in_cash"])) == Word("Yes")
  {
    assert !AllDigits("paying_in_cash") by {
      assert !IsAsciiDigit("paying_in_cash"[0]);
    }
    var v := inputData.fields["paying_in_cash"];
    assert ShowInputField("paying_in_cash", Some(v), inputData);
  }
}

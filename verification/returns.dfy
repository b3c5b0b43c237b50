/** The return screen: a past sale's lines become return lines, the cashier
    ticks lines (a whole promotion group at once) or types a quantity, and the
    refund is priced back with each line's discount shared out per unit and
    15% VAT on top. */
module Returns {
  import opened Common
  import opened Text

  /** A line of a stored sale. `quantity` may be signed (it is read through
      its absolute value); a missing product barcode, discount or promotion
      name is the empty string or zero. */
  datatype OrderLine = OrderLine(id: int, productName: string, barcode: string, quantity: int,
                                 unitPrice: real, discount: real, promotionName: string, isReward: bool)

  /** An order line on the return screen. */
  datatype ReturnLine = ReturnLine(line: OrderLine, checked: bool, returnQty: nat)

  /** A return line never asks for more than was sold. */
  predicate WithinSold(rs: seq<ReturnLine>)
  {
    forall i :: 0 <= i < |rs| ==> rs[i].returnQty <= Abs(rs[i].line.quantity)
  }

  /** Order lines carry distinct ids. */
  predicate UniqueIds(rs: seq<ReturnLine>)
  {
    forall i, j :: 0 <= i < j < |rs| ==> rs[i].line.id != rs[j].line.id
  }

  function LinesOf(rs: seq<ReturnLine>): (r: seq<OrderLine>)
    ensures |r| == |rs| && forall i :: 0 <= i < |rs| ==> r[i] == rs[i].line
  {
    seq(|rs|, i requires 0 <= i < |rs| => rs[i].line)
  }

  /** `selectOrder`: every line starts unticked with nothing to return. */
  function SelectOrder(items: seq<OrderLine>): (r: seq<ReturnLine>)
    ensures LinesOf(r) == items
    ensures forall i :: 0 <= i < |r| ==> !r[i].checked && r[i].returnQty == 0
    ensures WithinSold(r)
  {
    seq(|items|, i requires 0 <= i < |items| => ReturnLine(items[i], false, 0))
  }

  /** A line ticked (all of it) or unticked (none of it). */
  function SetTicked(r: ReturnLine, state: bool): (t: ReturnLine)
    ensures t.line == r.line && t.checked == state
    ensures t.returnQty == (if state then Abs(r.line.quantity) else 0)
  {
    r.(checked := state, returnQty := if state then Abs(r.line.quantity) else 0)
  }

  /** `newItems.findIndex(i => i.id === id)`, for an id that occurs. */
  function FindId(rs: seq<ReturnLine>, id: int): (k: nat)
    requires exists i :: 0 <= i < |rs| && rs[i].line.id == id
    ensures k < |rs| && rs[k].line.id == id
    ensures forall i :: 0 <= i < k ==> rs[i].line.id != id
  {
    if rs[0].line.id == id then 0
    else
      assert exists i :: 0 <= i < |rs[1..]| && rs[1..][i].line.id == id by {
        var i :| 0 <= i < |rs| && rs[i].line.id == id;
        assert rs[1..][i - 1] == rs[i];
      }
      1 + FindId(rs[1..], id)
  }

  /** Number of lines whose promotion name is exactly `name`. */
  function CountNamed(rs: seq<ReturnLine>, name: string): nat
  {
    if |rs| == 0 then 0
    else CountNamed(rs[..|rs| - 1], name) + (if rs[|rs| - 1].line.promotionName == name then 1 else 0)
  }

  /** The group loop of `toggleItemReturn` over the first `n` lines: each line
      named `name` sets the line found by its id to `state`. */
  function GroupFold(rs: seq<ReturnLine>, name: string, state: bool, n: nat): (r: seq<ReturnLine>)
    requires n <= |rs|
    ensures |r| == |rs|
    ensures LinesOf(r) == LinesOf(rs)
  {
    if n == 0 then rs
    else
      var acc := GroupFold(rs, name, state, n - 1);
      var m := rs[n - 1];
      if m.line.promotionName == name then
        var k := FindId(rs, m.line.id);
        var r := acc[k := acc[k].(checked := state, returnQty := if state then Abs(m.line.quantity) else 0)];
        assert forall i :: 0 <= i < |r| ==> LinesOf(r)[i] == LinesOf(acc)[i];
        r
      else acc
  }

  /** Whether a line's promotion group (non-blank name, more than one line)
      is toggled as a whole. */
  predicate InGroup(rs: seq<ReturnLine>, index: nat)
    requires index < |rs|
  {
    !IsBlank(rs[index].line.promotionName) && CountNamed(rs, rs[index].line.promotionName) > 1
  }

  /** `toggleItemReturn(index)`. */
  function ToggleItemReturn(rs: seq<ReturnLine>, index: nat): (r: seq<ReturnLine>)
    requires index < |rs|
    ensures |r| == |rs| && LinesOf(r) == LinesOf(rs)
    ensures !InGroup(rs, index) ==> r == rs[index := SetTicked(rs[index], !rs[index].checked)]
  {
    var it := rs[index];
    if InGroup(rs, index) then GroupFold(rs, it.line.promotionName, !it.checked, |rs|)
    else
      var r := rs[index := SetTicked(it, !it.checked)];
      assert forall i :: 0 <= i < |r| ==> LinesOf(r)[i] == LinesOf(rs)[i];
      r
  }

  /** With distinct ids, the group loop over the first `n` lines has set
      exactly the lines named `name` among them. */
  lemma {:induction false} GroupFoldSets(rs: seq<ReturnLine>, name: string, state: bool, n: nat)
    requires n <= |rs| && UniqueIds(rs)
    ensures forall j :: 0 <= j < |rs| ==>
      GroupFold(rs, name, state, n)[j] ==
        if j < n && rs[j].line.promotionName == name then SetTicked(rs[j], state) else rs[j]
  {
    if n > 0 {
      GroupFoldSets(rs, name, state, n - 1);
      var m := rs[n - 1];
      if m.line.promotionName == name {
        var k := FindId(rs, m.line.id);
        assert k == n - 1;
      }
    }
  }

  /** Ticking a line of a promotion group ticks every line of the group, each
      for its full sold quantity (and unticking clears them all); any other
      line is untouched. */
  lemma ToggleGroup(rs: seq<ReturnLine>, index: nat)
    requires index < |rs| && UniqueIds(rs) && InGroup(rs, index)
    ensures var r := ToggleItemReturn(rs, index);
      forall j :: 0 <= j < |rs| ==>
        r[j] == if rs[j].line.promotionName == rs[index].line.promotionName
                then SetTicked(rs[j], !rs[index].checked) else rs[j]
  {
    GroupFoldSets(rs, rs[index].line.promotionName, !rs[index].checked, |rs|);
  }

  /** `updateReturnQty(index, qty)`: the typed quantity clamped to
      [0, |sold|], ticked exactly when positive. */
  function UpdateReturnQty(rs: seq<ReturnLine>, index: nat, qty: int): (r: seq<ReturnLine>)
    requires index < |rs|
    ensures |r| == |rs| && LinesOf(r) == LinesOf(rs)
    ensures forall j :: 0 <= j < |rs| && j != index ==> r[j] == rs[j]
    ensures 0 <= r[index].returnQty <= Abs(rs[index].line.quantity)
    ensures r[index].checked <==> r[index].returnQty > 0
    ensures 0 <= qty <= Abs(rs[index].line.quantity) ==> r[index].returnQty == qty
    ensures qty < 0 ==> r[index].returnQty == 0
    ensures qty > Abs(rs[index].line.quantity) ==> r[index].returnQty == Abs(rs[index].line.quantity)
  {
    var n: nat := Min(Max(0, qty), Abs(rs[index].line.quantity));
    var r := rs[index := rs[index].(returnQty := n, checked := n > 0)];
    assert forall i :: 0 <= i < |r| ==> LinesOf(r)[i] == LinesOf(rs)[i];
    r
  }

  /** Every screen operation keeps return quantities within what was sold. */
  lemma OperationsStayWithinSold(rs: seq<ReturnLine>, index: nat, qty: int)
    requires index < |rs| && WithinSold(rs) && UniqueIds(rs)
    ensures WithinSold(ToggleItemReturn(rs, index))
    ensures WithinSold(UpdateReturnQty(rs, index, qty))
  {
    if InGroup(rs, index) {
      ToggleGroup(rs, index);
    }
  }

  /** The lines that are refunded: ticked with a positive quantity. */
  function Selected(rs: seq<ReturnLine>): (r: seq<ReturnLine>)
    ensures |r| <= |rs|
    ensures forall x :: x in r <==> x in rs && x.checked && x.returnQty > 0
  {
    if |rs| == 0 then []
    else
      var rest := Selected(rs[1..]);
      assert forall x :: x in rs <==> x == rs[0] || x in rs[1..];
      if rs[0].checked && rs[0].returnQty > 0 then [rs[0]] + rest else rest
  }

  /** The refunded share of a line's discount, as the totals add it up: only
      lines with a sold quantity and a positive discount contribute. */
  function TotalsDiscount(r: ReturnLine): real
  {
    var sold := Abs(r.line.quantity);
    if sold > 0 && r.line.discount > 0.0 then (r.line.discount / sold as real) * r.returnQty as real else 0.0
  }

  /** The discount written on the return request's item. */
  function DtoDiscount(r: ReturnLine): real
  {
    var sold := Abs(r.line.quantity);
    if sold > 0 then (r.line.discount / sold as real) * r.returnQty as real else 0.0
  }

  /** The request's per-item discount and the totals' term agree for every
      non-negative discount; a negative stored discount is refunded in the
      request but not in the printed totals. */
  lemma DiscountTermsAgree(r: ReturnLine)
    ensures r.line.discount >= 0.0 ==> DtoDiscount(r) == TotalsDiscount(r)
    ensures r.line.discount < 0.0 && r.line.quantity != 0 && r.returnQty > 0 ==>
      DtoDiscount(r) < 0.0 && TotalsDiscount(r) == 0.0
  {
    if r.line.discount < 0.0 && r.line.quantity != 0 && r.returnQty > 0 {
      var sold := Abs(r.line.quantity) as real;
      assert r.line.discount / sold < 0.0;
    }
  }

  /** Returning a line in full refunds exactly its original discount, and a
      partial return of a non-negatively discounted line refunds at most it. */
  lemma ProportionalDiscount(r: ReturnLine)
    requires r.line.discount >= 0.0 && r.returnQty <= Abs(r.line.quantity)
    ensures r.returnQty == Abs(r.line.quantity) > 0 ==> TotalsDiscount(r) == r.line.discount
    ensures 0.0 <= TotalsDiscount(r) <= r.line.discount
    ensures r.line.quantity == 0 ==> TotalsDiscount(r) == 0.0
  {
    var sold := Abs(r.line.quantity);
    if sold > 0 && r.line.discount > 0.0 {
      var q, n := r.returnQty as real, sold as real;
      var unit := r.line.discount / n;
      assert unit * n == r.line.discount;
      assert TotalsDiscount(r) == unit * q;
      ScaleWithin(unit, q, n);
      if r.returnQty == sold {
        MulCong(unit, q, n);
      }
    }
  }

  lemma MulCong(unit: real, q: real, s: real)
    requires q == s
    ensures unit * q == unit * s
  {
  }

  lemma ScaleWithin(unit: real, q: real, s: real)
    requires unit >= 0.0 && 0.0 <= q <= s
    ensures 0.0 <= unit * q <= unit * s
  {
  }

  datatype ReturnTotals = ReturnTotals(subtotal: real, discount: real, tax: real, total: real)

  function RefundSubtotal(rs: seq<ReturnLine>): real
  {
    if |rs| == 0 then 0.0
    else RefundSubtotal(rs[..|rs| - 1]) + rs[|rs| - 1].line.unitPrice * rs[|rs| - 1].returnQty as real
  }

  function RefundDiscount(rs: seq<ReturnLine>): real
  {
    if |rs| == 0 then 0.0 else RefundDiscount(rs[..|rs| - 1]) + TotalsDiscount(rs[|rs| - 1])
  }

  /** The VAT rate applied to refunds. */
  const VatRate: real := 0.15

  /** `calculateReturnTotal()`: VAT is 15% of the discounted refund and the
      total is the discounted refund plus that VAT. */
  function CalculateReturnTotal(rs: seq<ReturnLine>): (t: ReturnTotals)
    ensures t.subtotal == RefundSubtotal(Selected(rs))
    ensures t.discount == RefundDiscount(Selected(rs))
    ensures t.tax == VatRate * (t.subtotal - t.discount)
    ensures t.total == t.subtotal - t.discount + t.tax
    ensures t.total == (t.subtotal - t.discount) * 1.15
  {
    var sel := Selected(rs);
    var sub, disc := RefundSubtotal(sel), RefundDiscount(sel);
    ReturnTotals(sub, disc, (sub - disc) * VatRate, sub - disc + (sub - disc) * VatRate)
  }

  /** With every stored discount non-negative and quantities within what
      was sold, the refunded discount lies between zero and the lines'
      original discounts. */
  lemma {:induction false} RefundDiscountBounded(rs: seq<ReturnLine>)
    requires forall i :: 0 <= i < |rs| ==> rs[i].line.discount >= 0.0
    requires WithinSold(rs)
    ensures 0.0 <= RefundDiscount(rs) <= OriginalDiscount(rs)
  {
    if |rs| > 0 {
      var front := rs[..|rs| - 1];
      assert forall i :: 0 <= i < |front| ==> front[i] == rs[i];
      RefundDiscountBounded(front);
      ProportionalDiscount(rs[|rs| - 1]);
    }
  }

  function OriginalDiscount(rs: seq<ReturnLine>): real
  {
    if |rs| == 0 then 0.0 else OriginalDiscount(rs[..|rs| - 1]) + rs[|rs| - 1].line.discount
  }

  /** One item of the return request. */
  datatype ReturnItem = ReturnItem(barcode: string, quantity: nat, price: real, discount: real,
                                   promotionName: string, isReward: bool)

  /** The request's item for a selected line; a line without a product
      barcode is keyed by its product name. */
  function ItemOf(r: ReturnLine): ReturnItem
  {
    ReturnItem(if r.line.barcode != "" then r.line.barcode else r.line.productName,
               r.returnQty, r.line.unitPrice, DtoDiscount(r), r.line.promotionName, r.line.isReward)
  }

  datatype ReturnOutcome = Rejected(message: string) | Submitted(items: seq<ReturnItem>, reason: string)

  /** `processReturn` up to the request it would send. */
  function ProcessReturn(rs: seq<ReturnLine>, reason: string): (o: ReturnOutcome)
    ensures o.Rejected? <==> |Selected(rs)| == 0 || IsBlank(reason)
    ensures |Selected(rs)| == 0 ==> o == Rejected("Please select items to return")
    ensures o.Submitted? ==> |o.items| == |Selected(rs)| && o.reason == reason
    ensures o.Submitted? ==> forall i :: 0 <= i < |o.items| ==>
      o.items[i].quantity == Selected(rs)[i].returnQty > 0 &&
      o.items[i].discount == DtoDiscount(Selected(rs)[i])
  {
    var sel := Selected(rs);
    if |sel| == 0 then Rejected("Please select items to return")
    else if Trim(reason) == "" then
      TrimEmptyIffBlank(reason);
      Rejected("Please enter a return reason")
    else
      TrimEmptyIffBlank(reason);
      assert forall i :: 0 <= i < |sel| ==> sel[i] in sel;
      Submitted(seq(|sel|, i requires 0 <= i < |sel| => ItemOf(sel[i])), reason)
  }

  function DtoDiscountSum(items: seq<ReturnItem>): real
  {
    if |items| == 0 then 0.0 else DtoDiscountSum(items[..|items| - 1]) + items[|items| - 1].discount
  }

  /** When no stored discount is negative, the discounts sent in the request
      add up to the discount printed on the return receipt. */
  lemma RequestMatchesReceipt(rs: seq<ReturnLine>, reason: string)
    requires forall i :: 0 <= i < |rs| ==> rs[i].line.discount >= 0.0
    requires ProcessReturn(rs, reason).Submitted?
    ensures DtoDiscountSum(ProcessReturn(rs, reason).items) == CalculateReturnTotal(rs).discount
  {
    var sel := Selected(rs);
    forall i | 0 <= i < |sel| ensures sel[i].line.discount >= 0.0 {
      assert sel[i] in rs;
    }
    SumsAgree(sel, ProcessReturn(rs, reason).items);
  }

  lemma {:induction false} SumsAgree(sel: seq<ReturnLine>, items: seq<ReturnItem>)
    requires |items| == |sel|
    requires forall i :: 0 <= i < |sel| ==> sel[i].line.discount >= 0.0 && items[i].discount == DtoDiscount(sel[i])
    ensures DtoDiscountSum(items) == RefundDiscount(sel)
  {
    if |sel| > 0 {
      SumsAgree(sel[..|sel| - 1], items[..|items| - 1]);
      DiscountTermsAgree(sel[|sel| - 1]);
    }
  }
}

/** The totals fold over a breakdown (`calculateTotals`), the gates in front
    of checkout and payment, and the per-line promotion annotation of the
    order that payment submits. */
module Totals {
  import opened Common
  import opened Text
  import opened Cart
  import opened Loyalty
  import opened Conflicts
  import opened Allocation
  import opened AllocationFacts

  // ---------------------------------------------------------------------
  // Sums over the breakdown

  /** Σ trigger line totals + Σ reward `price * quantity` over the sections. */
  function SectionGross(secs: seq<Section>): real
  {
    if |secs| == 0 then 0.0
    else
      var s := secs[|secs| - 1];
      SectionGross(secs[..|secs| - 1]) + s.trigger.lineTotal + s.reward.price * s.reward.quantity as real
  }

  /** Σ section `totalDiscount`. */
  function SectionDiscount(secs: seq<Section>): real
  {
    if |secs| == 0 then 0.0 else SectionDiscount(secs[..|secs| - 1]) + secs[|secs| - 1].totalDiscount
  }

  /** Σ reward-line `discountAmount`. */
  function RewardDiscount(secs: seq<Section>): real
  {
    if |secs| == 0 then 0.0 else RewardDiscount(secs[..|secs| - 1]) + secs[|secs| - 1].reward.discountAmount
  }

  /** Σ remaining `itemSubtotal`. */
  function RemainingGross(rem: seq<RemainingItem>): real
  {
    if |rem| == 0 then 0.0 else RemainingGross(rem[..|rem| - 1]) + rem[|rem| - 1].itemSubtotal
  }

  // ---------------------------------------------------------------------
  // The per-barcode taxable net

  /** One addition to `barcodeNet`. */
  datatype Entry = Entry(barcode: string, amount: real)

  /** The additions the sections make, in order: the trigger line total, then
      the reward line's price less its discount. */
  function SectionEntries(secs: seq<Section>): seq<Entry>
  {
    if |secs| == 0 then []
    else
      var s := secs[|secs| - 1];
      SectionEntries(secs[..|secs| - 1]) +
        [Entry(s.trigger.barcode, s.trigger.lineTotal),
         Entry(s.reward.barcode, s.reward.price * s.reward.quantity as real - s.reward.discountAmount)]
  }

  function RemainingEntries(rem: seq<RemainingItem>): seq<Entry>
  {
    if |rem| == 0 then []
    else RemainingEntries(rem[..|rem| - 1]) + [Entry(rem[|rem| - 1].barcode, rem[|rem| - 1].itemSubtotal)]
  }

  /** Every addition to `barcodeNet`, sections first. */
  function NetEntries(secs: seq<Section>, rem: seq<RemainingItem>): seq<Entry>
  {
    SectionEntries(secs) + RemainingEntries(rem)
  }

  /** Σ of all additions. */
  function Amounts(es: seq<Entry>): real
  {
    if |es| == 0 then 0.0 else Amounts(es[..|es| - 1]) + es[|es| - 1].amount
  }

  /** `barcodeNet[b]`: Σ of the additions for `b`. */
  function NetOf(es: seq<Entry>, b: string): real
  {
    if |es| == 0 then 0.0
    else NetOf(es[..|es| - 1], b) + (if es[|es| - 1].barcode == b then es[|es| - 1].amount else 0.0)
  }

  /** `Object.keys(barcodeNet)`: each barcode once, by first addition. */
  function NetKeys(es: seq<Entry>): (r: seq<string>)
    ensures forall i, j :: 0 <= i < j < |r| ==> r[i] != r[j]
    ensures forall b :: b in r <==> exists e :: e in es && e.barcode == b
  {
    if |es| == 0 then []
    else
      var front := es[..|es| - 1];
      var e := es[|es| - 1];
      var k := NetKeys(front);
      assert forall x :: x in front ==> x in es;
      if e.barcode in k then k else k + [e.barcode]
  }

  /** Σ over `keys` of `barcodeNet[k]`. */
  function SumNets(keys: seq<string>, es: seq<Entry>): real
  {
    if |keys| == 0 then 0.0 else SumNets(keys[..|keys| - 1], es) + NetOf(es, keys[|keys| - 1])
  }

  /** `cartMap[bc]?.taxRate || 0`. */
  function RateOf(idx: map<string, CartLine>, b: string): real
  {
    if b in idx then idx[b].taxRate else 0.0
  }

  /** Σ over `keys` of `max(0, barcodeNet[k]) * rate(k)`. */
  function TaxOver(keys: seq<string>, es: seq<Entry>, idx: map<string, CartLine>): real
  {
    if |keys| == 0 then 0.0
    else
      var k := keys[|keys| - 1];
      TaxOver(keys[..|keys| - 1], es, idx) + MaxReal(0.0, NetOf(es, k)) * RateOf(idx, k)
  }

  datatype Totals = Totals(subtotal: real, totalTax: real, totalDiscount: real, total: real)

  /** The totals of a breakdown of `cart`. When every section's discount is
      its reward line's, as the allocator builds them, the subtotal less the
      discount is exactly the sum of the per-barcode nets the tax is charged
      on; and with non-negative tax rates on the cart lines the tax is never
      negative. */
  function TotalsOf(cart: seq<CartLine>, secs: seq<Section>, rem: seq<RemainingItem>): (t: Totals)
    ensures t.subtotal == SectionGross(secs) + RemainingGross(rem)
    ensures t.totalDiscount == SectionDiscount(secs)
    ensures var es := NetEntries(secs, rem);
      t.totalTax == TaxOver(NetKeys(es), es, CartIndex(cart))
    ensures var es := NetEntries(secs, rem);
      (forall i :: 0 <= i < |secs| ==> secs[i].totalDiscount == secs[i].reward.discountAmount) ==>
      t.subtotal - t.totalDiscount == SumNets(NetKeys(es), es)
    ensures (forall i :: 0 <= i < |cart| ==> cart[i].taxRate >= 0.0) ==> t.totalTax >= 0.0
    ensures t.total == t.subtotal - t.totalDiscount + t.totalTax
  {
    var es := NetEntries(secs, rem);
    var sub := SectionGross(secs) + RemainingGross(rem);
    var disc := SectionDiscount(secs);
    var tax := TaxOver(NetKeys(es), es, CartIndex(cart));
    NetBase(secs, rem);
    CartTaxNonNegative(cart, NetKeys(es), es);
    Totals(sub, tax, disc, sub - disc + tax)
  }

  /** `calculateTotals()`. */
  function CalculateTotals(cart: seq<CartLine>, ps: seq<Program>, sel: Selections): (t: Totals)
    ensures (forall i :: 0 <= i < |cart| ==> cart[i].taxRate >= 0.0) ==> t.totalTax >= 0.0
    ensures t.total == t.subtotal - t.totalDiscount + t.totalTax
  {
    var (secs, rem) := Breakdown(cart, ps, sel);
    TotalsOf(cart, secs, rem)
  }

  // ---------------------------------------------------------------------
  // Facts about the fold

  lemma {:induction false} AmountsAppend(a: seq<Entry>, b: seq<Entry>)
    ensures Amounts(a + b) == Amounts(a) + Amounts(b)
    decreases |b|
  {
    if |b| > 0 {
      assert (a + b)[..|a + b| - 1] == a + b[..|b| - 1];
      AmountsAppend(a, b[..|b| - 1]);
    } else {
      assert a + b == a;
    }
  }

  lemma {:induction false} SectionEntriesAmount(secs: seq<Section>)
    ensures Amounts(SectionEntries(secs)) == SectionGross(secs) - RewardDiscount(secs)
  {
    if |secs| > 0 {
      var s := secs[|secs| - 1];
      var pair := [Entry(s.trigger.barcode, s.trigger.lineTotal),
                   Entry(s.reward.barcode, s.reward.price * s.reward.quantity as real - s.reward.discountAmount)];
      SectionEntriesAmount(secs[..|secs| - 1]);
      AmountsAppend(SectionEntries(secs[..|secs| - 1]), pair);
      assert pair[..1] == [pair[0]];
      assert [pair[0]][..0] == [];
      assert Amounts([pair[0]]) == pair[0].amount;
      assert Amounts(pair) == pair[0].amount + pair[1].amount;
      SectionEntriesLast(secs);
      var gross := s.reward.price * s.reward.quantity as real;
      assert SectionGross(secs) == SectionGross(secs[..|secs| - 1]) + s.trigger.lineTotal + gross;
      assert RewardDiscount(secs) == RewardDiscount(secs[..|secs| - 1]) + s.reward.discountAmount;
      assert pair[1].amount == gross - s.reward.discountAmount;
    }
  }

  lemma SectionEntriesLast(secs: seq<Section>)
    requires |secs| > 0
    ensures var s := secs[|secs| - 1];
      SectionEntries(secs) == SectionEntries(secs[..|secs| - 1]) +
        [Entry(s.trigger.barcode, s.trigger.lineTotal),
         Entry(s.reward.barcode, s.reward.price * s.reward.quantity as real - s.reward.discountAmount)]
  {
  }

  lemma {:induction false} RemainingEntriesAmount(rem: seq<RemainingItem>)
    ensures Amounts(RemainingEntries(rem)) == RemainingGross(rem)
  {
    if |rem| > 0 {
      RemainingEntriesAmount(rem[..|rem| - 1]);
      AmountsAppend(RemainingEntries(rem[..|rem| - 1]), [Entry(rem[|rem| - 1].barcode, rem[|rem| - 1].itemSubtotal)]);
    }
  }

  lemma {:induction false} NetOfAbsent(es: seq<Entry>, b: string)
    requires forall e :: e in es ==> e.barcode != b
    ensures NetOf(es, b) == 0.0
  {
    if |es| > 0 {
      assert forall e :: e in es[..|es| - 1] ==> e in es;
      NetOfAbsent(es[..|es| - 1], b);
    }
  }

  /** Adding one entry adds its amount to the sum over distinct keys that
      include its barcode. */
  lemma {:induction false} SumNetsStep(keys: seq<string>, es: seq<Entry>, e: Entry)
    requires forall i, j :: 0 <= i < j < |keys| ==> keys[i] != keys[j]
    ensures SumNets(keys, es + [e]) == SumNets(keys, es) + (if e.barcode in keys then e.amount else 0.0)
  {
    if |keys| > 0 {
      var front := keys[..|keys| - 1];
      var k := keys[|keys| - 1];
      assert (es + [e])[..|es|] == es;
      SumNetsStep(front, es, e);
      assert e.barcode in keys <==> e.barcode in front || e.barcode == k;
      assert k !in front;
    }
  }

  /** A barcode first seen in the last entry becomes a new key whose net is
      that entry's amount alone. */
  lemma NewKeyStep(k: seq<string>, front: seq<Entry>, e: Entry)
    requires forall i, j :: 0 <= i < j < |k| ==> k[i] != k[j]
    requires e.barcode !in k
    requires forall x :: x in front ==> x.barcode != e.barcode
    ensures SumNets(k + [e.barcode], front + [e]) == SumNets(k, front) + e.amount
  {
    SumNetsStep(k, front, e);
    NetOfAbsent(front, e.barcode);
    assert (k + [e.barcode])[..|k|] == k;
    assert (front + [e])[..|front|] == front;
  }

  /** Summing the per-barcode nets over the barcode keys gives the sum of
      all additions: the split by barcode neither loses nor doubles anything. */
  lemma {:induction false} NetsPartition(es: seq<Entry>)
    ensures SumNets(NetKeys(es), es) == Amounts(es)
  {
    if |es| > 0 {
      var front := es[..|es| - 1];
      var e := es[|es| - 1];
      var k := NetKeys(front);
      NetsPartition(front);
      assert es == front + [e];
      if e.barcode in k {
        SumNetsStep(k, front, e);
      } else {
        assert forall x :: x in front ==> x.barcode != e.barcode;
        NewKeyStep(k, front, e);
      }
    }
  }

  /** Σ of section discounts equals Σ of reward-line discounts when every
      section's total discount is its reward line's. */
  lemma {:induction false} DiscountsAgree(secs: seq<Section>)
    requires forall i :: 0 <= i < |secs| ==> secs[i].totalDiscount == secs[i].reward.discountAmount
    ensures SectionDiscount(secs) == RewardDiscount(secs)
  {
    if |secs| > 0 {
      DiscountsAgree(secs[..|secs| - 1]);
    }
  }

  /** The per-barcode taxable nets add up to the subtotal less the discount,
      when every section's discount is its reward line's. */
  lemma NetBase(secs: seq<Section>, rem: seq<RemainingItem>)
    ensures var es := NetEntries(secs, rem);
      (forall i :: 0 <= i < |secs| ==> secs[i].totalDiscount == secs[i].reward.discountAmount) ==>
      SumNets(NetKeys(es), es) == SectionGross(secs) + RemainingGross(rem) - SectionDiscount(secs)
  {
    if forall i :: 0 <= i < |secs| ==> secs[i].totalDiscount == secs[i].reward.discountAmount {
      DiscountsAgree(secs);
      var es := NetEntries(secs, rem);
      NetsPartition(es);
      AmountsAppend(SectionEntries(secs), RemainingEntries(rem));
      SectionEntriesAmount(secs);
      RemainingEntriesAmount(rem);
    }
  }

  /** The per-barcode taxable nets of a breakdown add up to its subtotal less
      its discount: the tax base is exactly the discounted amount. */
  lemma NetsAreDiscountedSubtotal(cart: seq<CartLine>, ps: seq<Program>, sel: Selections)
    ensures var (secs, rem) := Breakdown(cart, ps, sel);
            var es := NetEntries(secs, rem);
            var t := CalculateTotals(cart, ps, sel);
            SumNets(NetKeys(es), es) == t.subtotal - t.totalDiscount
  {
    var (secs, rem) := Breakdown(cart, ps, sel);
    forall i | 0 <= i < |secs| ensures secs[i].totalDiscount == secs[i].reward.discountAmount {
      BreakdownSections(cart, ps, sel, i);
      var p :| p in ps && p.active && Admitted(p, sel) && FromProgram(secs[i], p, CartIndex(cart));
      SectionMeaning(secs[i], p, CartIndex(cart));
    }
    var t := TotalsOf(cart, secs, rem);
  }

  /** Non-negative rates on the cart lines give non-negative rates in the index. */
  lemma {:induction false} IndexRatesNonNegative(cart: seq<CartLine>)
    requires forall i :: 0 <= i < |cart| ==> cart[i].taxRate >= 0.0
    ensures forall b :: b in CartIndex(cart) ==> CartIndex(cart)[b].taxRate >= 0.0
  {
    if |cart| > 0 {
      IndexRatesNonNegative(cart[..|cart| - 1]);
    }
  }

  /** Taxing the clamped nets at the cart's rates gives a non-negative tax
      when every cart rate is non-negative. */
  lemma CartTaxNonNegative(cart: seq<CartLine>, keys: seq<string>, es: seq<Entry>)
    ensures (forall i :: 0 <= i < |cart| ==> cart[i].taxRate >= 0.0) ==> TaxOver(keys, es, CartIndex(cart)) >= 0.0
  {
    if forall i :: 0 <= i < |cart| ==> cart[i].taxRate >= 0.0 {
      IndexRatesNonNegative(cart);
      TaxNonNegative(keys, es, CartIndex(cart));
    }
  }

  /** With non-negative tax rates the tax is never negative: a barcode whose
      net went negative adds nothing rather than reducing the tax. */
  lemma {:induction false} TaxNonNegative(keys: seq<string>, es: seq<Entry>, idx: map<string, CartLine>)
    requires forall b :: b in idx ==> idx[b].taxRate >= 0.0
    ensures TaxOver(keys, es, idx) >= 0.0
  {
    if |keys| > 0 {
      var k := keys[|keys| - 1];
      TaxNonNegative(keys[..|keys| - 1], es, idx);
      RealMulNonNeg(MaxReal(0.0, NetOf(es, k)), RateOf(idx, k));
    }
  }

  /** With one tax rate for every key and no negative net, the tax is that
      rate times the summed nets. */
  lemma TaxUniform(keys: seq<string>, es: seq<Entry>, idx: map<string, CartLine>, rate: real)
    requires forall k :: k in keys ==> RateOf(idx, k) == rate && NetOf(es, k) >= 0.0
    ensures TaxOver(keys, es, idx) == rate * SumNets(keys, es)
  {
    assert forall i :: 0 <= i < |keys| ==> keys[i] in keys;
    TaxIsScaled(keys, es, idx, rate);
    ScaledIsProduct(keys, es, rate);
  }

  /** Σ over `keys` of `rate * barcodeNet[k]`. */
  function ScaledNets(keys: seq<string>, es: seq<Entry>, rate: real): real
  {
    if |keys| == 0 then 0.0 else ScaledNets(keys[..|keys| - 1], es, rate) + rate * NetOf(es, keys[|keys| - 1])
  }

  /** Key by key, the clamped net times the key's rate is the common rate
      times the net. */
  lemma {:induction false} TaxIsScaled(keys: seq<string>, es: seq<Entry>, idx: map<string, CartLine>, rate: real)
    requires forall i :: 0 <= i < |keys| ==> RateOf(idx, keys[i]) == rate && NetOf(es, keys[i]) >= 0.0
    ensures TaxOver(keys, es, idx) == ScaledNets(keys, es, rate)
  {
    if |keys| > 0 {
      var front := keys[..|keys| - 1];
      assert forall i :: 0 <= i < |front| ==> front[i] == keys[i];
      TaxIsScaled(front, es, idx, rate);
      var k := keys[|keys| - 1];
      ClampedTimesRate(NetOf(es, k), RateOf(idx, k), rate);
    }
  }

  /** The rate factors out of the sum. */
  lemma {:induction false} ScaledIsProduct(keys: seq<string>, es: seq<Entry>, rate: real)
    ensures ScaledNets(keys, es, rate) == rate * SumNets(keys, es)
  {
    if |keys| > 0 {
      var front := keys[..|keys| - 1];
      ScaledIsProduct(front, es, rate);
      Distribute(rate, SumNets(front, es), NetOf(es, keys[|keys| - 1]));
    }
  }

  lemma Distribute(rate: real, x: real, y: real)
    ensures rate * (x + y) == rate * x + rate * y
  {
  }

  lemma ClampedTimesRate(y: real, r: real, rate: real)
    requires y >= 0.0 && r == rate
    ensures MaxReal(0.0, y) * r == rate * y
  {
  }

  // ---------------------------------------------------------------------
  // Gates

  /** Outcome of a gate: go on, or stop with the message shown. */
  datatype Gate = Proceed | Refuse(message: string)

  /** `handleCheckout`. */
  function CheckoutGate(ps: seq<Program>, cart: seq<CartLine>, sel: Selections): (g: Gate)
    ensures g == Proceed <==>
      |cart| > 0 && forall c :: c in DetectConflicts(ps, cart) ==> Chosen(sel, c.key)
    ensures |cart| == 0 ==> g == Refuse("Cart is empty")
  {
    if |cart| == 0 then Refuse("Cart is empty")
    else if HasUnresolvedConflicts(ps, cart, sel) then Refuse("Please select promotions first")
    else Proceed
  }

  /** `proceedToPayment`: a VAT invoice needs a customer name. */
  function VatNameGate(vat: string, name: string): (g: Gate)
    ensures g != Proceed <==> !IsBlank(vat) && name == ""
  {
    TrimEmptyIffBlank(vat);
    if vat != "" && Trim(vat) != "" && name == "" then Refuse("Customer name required for VAT invoice")
    else Proceed
  }

  /** The guard at the top of `handlePayment`: nothing is submitted for an
      empty cart or while some conflict has no selection. */
  predicate MayPay(ps: seq<Program>, cart: seq<CartLine>, sel: Selections)
  {
    |cart| > 0 && !HasUnresolvedConflicts(ps, cart, sel)
  }

  /** Payment and checkout let the same carts through. */
  lemma PaymentMatchesCheckout(ps: seq<Program>, cart: seq<CartLine>, sel: Selections)
    ensures MayPay(ps, cart, sel) <==> CheckoutGate(ps, cart, sel) == Proceed
  {
  }

  // ---------------------------------------------------------------------
  // Order annotation

  /** One line of the submitted order. */
  datatype OrderItem = OrderItem(barcode: string, quantity: nat, price: real, discount: real,
                                 promotionName: Option<string>, isReward: bool)

  /** The annotation state threaded through the sections. */
  datatype Note = Note(promotionName: Option<string>, isReward: bool, discount: real)

  /** One section's effect on the annotation of barcode `b`: a trigger match
      sets the name; a reward match sets the name, the flag and the discount. */
  function NoteStep(n: Note, s: Section, b: string): Note
  {
    var n1 := if s.trigger.barcode == b then n.(promotionName := Some(s.programName)) else n;
    if s.reward.barcode == b then Note(Some(s.programName), s.reward.freeQty > 0, s.reward.discountAmount) else n1
  }

  /** `sections.forEach(...)`, front to back. */
  function NoteFold(secs: seq<Section>, b: string, n: Note): Note
  {
    if |secs| == 0 then n else NoteFold(secs[1..], b, NoteStep(n, secs[0], b))
  }

  function Annotate(secs: seq<Section>, l: CartLine): OrderItem
  {
    var n := NoteFold(secs, l.barcode, Note(None, false, 0.0));
    OrderItem(l.barcode, l.quantity, l.price, n.discount, n.promotionName, n.isReward)
  }

  /** `itemsWithPromotions`: one order line per cart line, in cart order. */
  function OrderItems(cart: seq<CartLine>, ps: seq<Program>, sel: Selections): (r: seq<OrderItem>)
    ensures |r| == |cart|
    ensures forall i :: 0 <= i < |cart| ==>
      r[i].barcode == cart[i].barcode && r[i].quantity == cart[i].quantity && r[i].price == cart[i].price
  {
    var secs := Breakdown(cart, ps, sel).0;
    seq(|cart|, i requires 0 <= i < |cart| => Annotate(secs, cart[i]))
  }

  /** Section `s` mentions barcode `b` on its trigger or reward line. */
  predicate Mentions(s: Section, b: string)
  {
    s.trigger.barcode == b || s.reward.barcode == b
  }

  /** Index of the last section mentioning `b`. */
  function LastMention(secs: seq<Section>, b: string): (r: Option<nat>)
    ensures r.Some? ==> r.value < |secs| && Mentions(secs[r.value], b) &&
                        forall j :: r.value < j < |secs| ==> !Mentions(secs[j], b)
    ensures r.None? ==> forall j :: 0 <= j < |secs| ==> !Mentions(secs[j], b)
  {
    if |secs| == 0 then None
    else if Mentions(secs[|secs| - 1], b) then Some(|secs| - 1)
    else LastMention(secs[..|secs| - 1], b)
  }

  /** Index of the last section rewarding `b`. */
  function LastReward(secs: seq<Section>, b: string): (r: Option<nat>)
    ensures r.Some? ==> r.value < |secs| && secs[r.value].reward.barcode == b &&
                        forall j :: r.value < j < |secs| ==> secs[j].reward.barcode != b
    ensures r.None? ==> forall j :: 0 <= j < |secs| ==> secs[j].reward.barcode != b
  {
    if |secs| == 0 then None
    else if secs[|secs| - 1].reward.barcode == b then Some(|secs| - 1)
    else LastReward(secs[..|secs| - 1], b)
  }

  lemma {:induction false} NoteFoldAppend(secs: seq<Section>, s: Section, b: string, n: Note)
    ensures NoteFold(secs + [s], b, n) == NoteStep(NoteFold(secs, b, n), s, b)
  {
    if |secs| > 0 {
      assert (secs + [s])[1..] == secs[1..] + [s];
      NoteFoldAppend(secs[1..], s, b, NoteStep(n, secs[0], b));
    }
  }

  /** The annotation, as a reference definition: the name of the last
      section mentioning the barcode, and the flag and discount of the last
      section rewarding it; nothing is summed. */
  lemma {:induction false} NoteFoldIsLast(secs: seq<Section>, b: string)
    ensures var n := NoteFold(secs, b, Note(None, false, 0.0));
      (n.promotionName == match LastMention(secs, b)
                          case None => None
                          case Some(i) => Some(secs[i].programName)) &&
      (n.isReward == match LastReward(secs, b)
                     case None => false
                     case Some(i) => secs[i].reward.freeQty > 0) &&
      (n.discount == match LastReward(secs, b)
                     case None => 0.0
                     case Some(i) => secs[i].reward.discountAmount)
  {
    if |secs| > 0 {
      var front := secs[..|secs| - 1];
      var s := secs[|secs| - 1];
      assert secs == front + [s];
      NoteFoldAppend(front, s, b, Note(None, false, 0.0));
      NoteFoldIsLast(front, b);
    }
  }

  /** Each order line's promotion name, reward flag and discount come from
      the last matching section of the breakdown. */
  lemma OrderItemsFromLastSection(cart: seq<CartLine>, ps: seq<Program>, sel: Selections, i: nat)
    requires i < |cart|
    ensures var secs := Breakdown(cart, ps, sel).0;
            var it := OrderItems(cart, ps, sel)[i];
            var b := cart[i].barcode;
      (it.promotionName == match LastMention(secs, b)
                           case None => None
                           case Some(j) => Some(secs[j].programName)) &&
      (it.isReward == match LastReward(secs, b)
                      case None => false
                      case Some(j) => secs[j].reward.freeQty > 0) &&
      (it.discount == match LastReward(secs, b)
                      case None => 0.0
                      case Some(j) => secs[j].reward.discountAmount)
  {
    NoteFoldIsLast(Breakdown(cart, ps, sel).0, cart[i].barcode);
  }
}

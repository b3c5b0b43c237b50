/** The older per-item promotions calculator of the first point-of-sale
    screen: every cart line collects the buy-X-get-free loyalties and the
    discount promotions that match it, takes their discounts off its
    subtotal and is taxed on what is left. */
module LegacyPromotions {
  import opened Common
  import opened Cart

  /** A loyalty of the older catalog. `isBogo` is `type === 'BOGO'`; a missing
      product barcode or category is the empty string, a missing
      `buyQuantity` is `None`. */
  datatype LegacyLoyalty = LegacyLoyalty(name: string, isBogo: bool, productBarcode: string, category: string,
                                         buyQuantity: Option<nat>, freeQuantity: nat)

  /** `discountType`: the two kinds the calculator prices, and any other. */
  datatype DiscountType = Percentage | FixedAmount | OtherDiscount

  datatype Promotion = Promotion(name: string, discountType: DiscountType, productBarcode: string,
                                 category: string, discountValue: real)

  /** One entry of `getApplicablePromotions(item)`. */
  datatype Applied = BogoApplied(name: string, freeItems: nat)
                   | DiscountApplied(kind: DiscountType, name: string, value: real)

  /** The targeting rule shared by loyalties and promotions: the same barcode,
      the same category, or no target at all. */
  predicate Targets(productBarcode: string, category: string, item: CartLine)
  {
    productBarcode == item.barcode || category == item.category || (productBarcode == "" && category == "")
  }

  /** The line's quantity is divided by `buyQuantity` only for a BOGO loyalty
      that targets the line. A zero there against a line with units would
      record infinitely many free items; that is the one case left out. A
      missing `buyQuantity`, or a zero against an empty line, gives no number
      of sets and records nothing. */
  predicate DividesSafely(l: LegacyLoyalty, item: CartLine)
  {
    l.isBogo && Targets(l.productBarcode, l.category, item) && item.quantity > 0 ==> l.buyQuantity != Some(0)
  }

  /** Every loyalty of the catalog can be applied to the line. */
  predicate SafeFor(ls: seq<LegacyLoyalty>, item: CartLine)
  {
    forall i :: 0 <= i < |ls| ==> DividesSafely(ls[i], item)
  }

  /** Every loyalty of the catalog can be applied to every line of the cart. */
  predicate SafeForCart(ls: seq<LegacyLoyalty>, cart: seq<CartLine>)
  {
    forall j :: 0 <= j < |cart| ==> SafeFor(ls, cart[j])
  }

  /** The BOGO entry a loyalty contributes for the item, if any. */
  function BogoOffer(l: LegacyLoyalty, item: CartLine): Option<Applied>
    requires DividesSafely(l, item)
  {
    if l.isBogo && Targets(l.productBarcode, l.category, item) && l.buyQuantity.Some? && l.buyQuantity.value >= 1
    then
      var sets := item.quantity / l.buyQuantity.value;
      if sets > 0 then Some(BogoApplied(l.name, sets * l.freeQuantity)) else None
    else None
  }

  /** A BOGO loyalty is recorded exactly when it is typed BOGO, targets the
      item and at least one full set of `buyQuantity` units is in the line;
      the recorded count is the number of full sets times `freeQuantity`. */
  lemma BogoOfferIff(l: LegacyLoyalty, item: CartLine)
    requires DividesSafely(l, item)
    ensures BogoOffer(l, item).Some? <==>
            l.isBogo && Targets(l.productBarcode, l.category, item) &&
            l.buyQuantity.Some? && 1 <= l.buyQuantity.value <= item.quantity
    ensures BogoOffer(l, item).Some? ==>
            BogoOffer(l, item).value.freeItems == (item.quantity / l.buyQuantity.value) * l.freeQuantity &&
            BogoOffer(l, item).value.freeItems <= item.quantity * l.freeQuantity
  {
    if l.buyQuantity.Some? && l.buyQuantity.value >= 1 {
      var q, b := item.quantity, l.buyQuantity.value;
      if q >= b {
        DivAtLeastOne(q, b);
      }
      DivLe(q, b);
      MulMono(q / b, q, l.freeQuantity);
    }
  }

  lemma DivAtLeastOne(q: nat, b: nat)
    requires b >= 1 && q >= b
    ensures q / b >= 1
  {
  }

  lemma DivLe(q: nat, b: nat)
    requires b >= 1
    ensures q / b <= q
  {
  }

  lemma MulMono(x: nat, y: nat, k: nat)
    requires x <= y
    ensures x * k <= y * k
  {
  }

  /** The BOGO entries of the item, in catalog order: every loyalty that
      gives the item free units is recorded. */
  function BogoOffers(ls: seq<LegacyLoyalty>, item: CartLine): (r: seq<Applied>)
    requires SafeFor(ls, item)
    ensures |r| <= |ls|
    ensures forall a :: a in r ==> a.BogoApplied?
    ensures forall i :: 0 <= i < |ls| && BogoOffer(ls[i], item).Some? ==> BogoOffer(ls[i], item).value in r
  {
    if |ls| == 0 then []
    else
      var rest := BogoOffers(ls[1..], item);
      assert forall i :: 1 <= i < |ls| ==> ls[i] == ls[1..][i - 1];
      match BogoOffer(ls[0], item)
      case None => rest
      case Some(a) => [a] + rest
  }

  /** Every recorded BOGO entry is the one some loyalty of the catalog gives. */
  lemma {:induction false} BogoOffersSound(ls: seq<LegacyLoyalty>, item: CartLine)
    requires SafeFor(ls, item)
    ensures forall a :: a in BogoOffers(ls, item) ==> exists i :: 0 <= i < |ls| && BogoOffer(ls[i], item) == Some(a)
  {
    if |ls| > 0 {
      assert SafeFor(ls[1..], item) by {
        forall i | 0 <= i < |ls[1..]| ensures DividesSafely(ls[1..][i], item) {
          assert ls[1..][i] == ls[i + 1];
        }
      }
      BogoOffersSound(ls[1..], item);
      var rest := BogoOffers(ls[1..], item);
      forall a | a in rest ensures exists i :: 0 <= i < |ls| && BogoOffer(ls[i], item) == Some(a) {
        var j :| 0 <= j < |ls[1..]| && BogoOffer(ls[1..][j], item) == Some(a);
        assert ls[j + 1] == ls[1..][j];
      }
    }
  }

  /** Every promotion that targets the item is listed, in catalog order. */
  function PromotionOffers(ps: seq<Promotion>, item: CartLine): (r: seq<Applied>)
    ensures |r| <= |ps|
    ensures forall a :: a in r <==> exists p :: p in ps && Targets(p.productBarcode, p.category, item) &&
                                                 a == DiscountApplied(p.discountType, p.name, p.discountValue)
  {
    if |ps| == 0 then []
    else
      var rest := PromotionOffers(ps[1..], item);
      var p := ps[0];
      assert forall q :: q in ps <==> q == p || q in ps[1..];
      if Targets(p.productBarcode, p.category, item)
      then [DiscountApplied(p.discountType, p.name, p.discountValue)] + rest
      else rest
  }

  /** `getApplicablePromotions(item)`: loyalties first, then promotions. */
  function ApplicablePromotions(ls: seq<LegacyLoyalty>, ps: seq<Promotion>, item: CartLine): seq<Applied>
    requires SafeFor(ls, item)
  {
    BogoOffers(ls, item) + PromotionOffers(ps, item)
  }

  /** The money one entry takes off a line of `subtotal` at unit `price`. */
  function DiscountOf(a: Applied, subtotal: real, price: real): real
  {
    match a
    case BogoApplied(_, free) => free as real * price
    case DiscountApplied(Percentage, _, v) => subtotal * v / 100.0
    case DiscountApplied(FixedAmount, _, v) => if v <= subtotal then v else subtotal
    case DiscountApplied(OtherDiscount, _, _) => 0.0
  }

  /** A fixed amount never takes off more than the line's subtotal, and a
      percentage between 0 and 100 of a non-negative subtotal stays within it. */
  lemma DiscountOfBounds(a: Applied, subtotal: real, price: real)
    ensures a.DiscountApplied? && a.kind == FixedAmount ==> DiscountOf(a, subtotal, price) <= subtotal
    ensures a.DiscountApplied? && a.kind == Percentage && 0.0 <= a.value <= 100.0 && subtotal >= 0.0 ==>
      0.0 <= DiscountOf(a, subtotal, price) <= subtotal
    ensures a.DiscountApplied? && a.kind == OtherDiscount ==> DiscountOf(a, subtotal, price) == 0.0
  {
    if a.DiscountApplied? && a.kind == Percentage && 0.0 <= a.value <= 100.0 && subtotal >= 0.0 {
      PercentWithin(subtotal, a.value);
    }
  }

  lemma PercentWithin(x: real, pct: real)
    requires x >= 0.0 && 0.0 <= pct <= 100.0
    ensures 0.0 <= x * pct / 100.0 <= x
  {
    assert x * pct <= x * 100.0;
  }

  /** Σ of the entries' discounts. */
  function DiscountSum(as_: seq<Applied>, subtotal: real, price: real): real
  {
    if |as_| == 0 then 0.0
    else DiscountSum(as_[..|as_| - 1], subtotal, price) + DiscountOf(as_[|as_| - 1], subtotal, price)
  }

  /** Σ of the BOGO entries' free items. */
  function FreeItems(as_: seq<Applied>): nat
  {
    if |as_| == 0 then 0
    else FreeItems(as_[..|as_| - 1]) + (if as_[|as_| - 1].BogoApplied? then as_[|as_| - 1].freeItems else 0)
  }

  /** One entry of `itemDetails`. */
  datatype ItemDetail = ItemDetail(line: CartLine, itemSubtotal: real, itemDiscount: real, itemTax: real,
                                   freeItems: nat, promos: seq<Applied>)

  /** The details of one cart line: its subtotal, the summed discounts of its
      applicable entries, and tax on what is left at `taxRate || 0`. */
  function Detail(ls: seq<LegacyLoyalty>, ps: seq<Promotion>, item: CartLine): ItemDetail
    requires SafeFor(ls, item)
  {
    var sub := item.price * item.quantity as real;
    var promos := ApplicablePromotions(ls, ps, item);
    var disc := DiscountSum(promos, sub, item.price);
    ItemDetail(item, sub, disc, (sub - disc) * item.taxRate, FreeItems(promos), promos)
  }

  datatype LegacyTotals = LegacyTotals(subtotal: real, totalTax: real, totalDiscount: real, total: real,
                                       itemDetails: seq<ItemDetail>)

  function SubtotalSum(ds: seq<ItemDetail>): real
  {
    if |ds| == 0 then 0.0 else SubtotalSum(ds[..|ds| - 1]) + ds[|ds| - 1].itemSubtotal
  }

  function TaxSum(ds: seq<ItemDetail>): real
  {
    if |ds| == 0 then 0.0 else TaxSum(ds[..|ds| - 1]) + ds[|ds| - 1].itemTax
  }

  function ItemDiscountSum(ds: seq<ItemDetail>): real
  {
    if |ds| == 0 then 0.0 else ItemDiscountSum(ds[..|ds| - 1]) + ds[|ds| - 1].itemDiscount
  }

  /** `calculateTotals()` of the older screen. */
  function CalculateLegacyTotals(cart: seq<CartLine>, ls: seq<LegacyLoyalty>, ps: seq<Promotion>): (t: LegacyTotals)
    requires SafeForCart(ls, cart)
    ensures |t.itemDetails| == |cart|
    ensures forall i :: 0 <= i < |cart| ==> t.itemDetails[i].line == cart[i]
    ensures forall i :: 0 <= i < |cart| ==> t.itemDetails[i] == Detail(ls, ps, cart[i])
    ensures t.subtotal == SubtotalSum(t.itemDetails)
    ensures t.subtotal == CartGross(cart)
    ensures t.totalTax == TaxSum(t.itemDetails)
    ensures t.totalDiscount == ItemDiscountSum(t.itemDetails)
    ensures t.total == t.subtotal - t.totalDiscount + t.totalTax
  {
    var ds := seq(|cart|, i requires 0 <= i < |cart| => Detail(ls, ps, cart[i]));
    DetailsGross(cart, ls, ps, ds);
    var sub, tax, disc := SubtotalSum(ds), TaxSum(ds), ItemDiscountSum(ds);
    LegacyTotals(sub, tax, disc, sub - disc + tax, ds)
  }

  /** Σ price × quantity over the cart's lines: the gross before any promotion. */
  function CartGross(cart: seq<CartLine>): real
  {
    if |cart| == 0 then 0.0
    else CartGross(cart[..|cart| - 1]) + cart[|cart| - 1].price * cart[|cart| - 1].quantity as real
  }

  /** Details that carry each line's price × quantity add up to the cart's
      gross, whatever promotions they record. */
  lemma {:induction false} GrossOfDetails(cart: seq<CartLine>, ds: seq<ItemDetail>)
    requires |ds| == |cart|
    requires forall i :: 0 <= i < |cart| ==> ds[i].itemSubtotal == cart[i].price * cart[i].quantity as real
    ensures SubtotalSum(ds) == CartGross(cart)
  {
    if |cart| > 0 {
      GrossOfDetails(cart[..|cart| - 1], ds[..|ds| - 1]);
    }
  }

  lemma DetailsGross(cart: seq<CartLine>, ls: seq<LegacyLoyalty>, ps: seq<Promotion>, ds: seq<ItemDetail>)
    requires SafeForCart(ls, cart)
    requires |ds| == |cart| && forall i :: 0 <= i < |cart| ==> ds[i] == Detail(ls, ps, cart[i])
    ensures SubtotalSum(ds) == CartGross(cart)
  {
    forall i | 0 <= i < |cart| ensures ds[i].itemSubtotal == cart[i].price * cart[i].quantity as real {
      DetailSubtotal(ls, ps, cart[i], ds[i]);
    }
    GrossOfDetails(cart, ds);
  }

  lemma DetailSubtotal(ls: seq<LegacyLoyalty>, ps: seq<Promotion>, item: CartLine, d: ItemDetail)
    requires SafeFor(ls, item) && d == Detail(ls, ps, item)
    ensures d.itemSubtotal == item.price * item.quantity as real
  {
  }

  /** A loyalty gives the item free units: it is BOGO, targets the item and
      at least one full set of `buyQuantity` units is in the line. */
  predicate GivesFree(l: LegacyLoyalty, item: CartLine)
  {
    l.isBogo && Targets(l.productBarcode, l.category, item) &&
    l.buyQuantity.Some? && 1 <= l.buyQuantity.value <= item.quantity
  }

  /** Free units the catalog's loyalties give the item, straight from the
      catalog: full sets times `freeQuantity`, summed over the loyalties that
      give free units. */
  function CatalogFree(ls: seq<LegacyLoyalty>, item: CartLine): nat
  {
    if |ls| == 0 then 0
    else
      var l := ls[0];
      (if GivesFree(l, item) then (item.quantity / l.buyQuantity.value) * l.freeQuantity else 0) + CatalogFree(ls[1..], item)
  }

  /** A line no loyalty gives free units and no promotion targets has no
      entries, and exactly those lines have none; such a line takes nothing
      off and is taxed on its full price times quantity. */
  lemma UndiscountedLine(ls: seq<LegacyLoyalty>, ps: seq<Promotion>, item: CartLine)
    requires SafeFor(ls, item)
    ensures Detail(ls, ps, item).promos == [] <==>
      (forall i :: 0 <= i < |ls| ==> !GivesFree(ls[i], item)) &&
      (forall p :: p in ps ==> !Targets(p.productBarcode, p.category, item))
    ensures var d := Detail(ls, ps, item);
      d.promos == [] ==>
      d.itemDiscount == 0.0 && d.freeItems == 0 && d.itemTax == item.price * item.quantity as real * item.taxRate
  {
    var bs, os := BogoOffers(ls, item), PromotionOffers(ps, item);
    assert Detail(ls, ps, item).promos == bs + os;
    BogoOffersSound(ls, item);
    forall i | 0 <= i < |ls| ensures BogoOffer(ls[i], item).Some? <==> GivesFree(ls[i], item) {
      BogoOfferIff(ls[i], item);
    }
    if bs != [] {
      assert bs[0] in bs;
    } else {
      forall i | 0 <= i < |ls| ensures !GivesFree(ls[i], item) {
        if BogoOffer(ls[i], item).Some? {
          assert false;
        }
      }
    }
    if os != [] {
      assert os[0] in os;
    } else {
      forall p | p in ps ensures !Targets(p.productBarcode, p.category, item) {
        var a := DiscountApplied(p.discountType, p.name, p.discountValue);
        assert Targets(p.productBarcode, p.category, item) ==> a in os;
      }
    }
  }

  /** A line no promotion targets gets exactly the free units its BOGO
      loyalties give it in the catalog. */
  lemma BogoOnlyFree(ls: seq<LegacyLoyalty>, ps: seq<Promotion>, item: CartLine)
    requires SafeFor(ls, item)
    requires forall p :: p in ps ==> !Targets(p.productBarcode, p.category, item)
    ensures Detail(ls, ps, item).freeItems == CatalogFree(ls, item)
  {
    NoPromotionOffers(ps, item);
    BogoOnlyPromos(ls, ps, item);
    BogoOffersFree(ls, item);
  }

  /** A line no promotion targets is discounted by its BOGO loyalties alone:
      each free unit is taken off at the unit price. */
  lemma BogoOnlyDiscount(ls: seq<LegacyLoyalty>, ps: seq<Promotion>, item: CartLine)
    requires SafeFor(ls, item)
    requires forall p :: p in ps ==> !Targets(p.productBarcode, p.category, item)
    ensures Detail(ls, ps, item).itemDiscount == Detail(ls, ps, item).freeItems as real * item.price
  {
    NoPromotionOffers(ps, item);
    BogoOnlyPromos(ls, ps, item);
    BogoEntriesOff(ls, ps, item, Detail(ls, ps, item));
  }

  lemma BogoEntriesOff(ls: seq<LegacyLoyalty>, ps: seq<Promotion>, item: CartLine, d: ItemDetail)
    requires SafeFor(ls, item)
    requires d == Detail(ls, ps, item) && d.promos == BogoOffers(ls, item)
    ensures d.itemDiscount == d.freeItems as real * item.price
  {
    FreeUnitsOff(d, d.promos, item.price);
  }

  /** Without promotion entries, a line's entries are its BOGO entries. */
  lemma BogoOnlyPromos(ls: seq<LegacyLoyalty>, ps: seq<Promotion>, item: CartLine)
    requires SafeFor(ls, item)
    requires PromotionOffers(ps, item) == []
    ensures Detail(ls, ps, item).promos == BogoOffers(ls, item)
  {
    assert BogoOffers(ls, item) + [] == BogoOffers(ls, item);
  }

  lemma FreeUnitsOff(d: ItemDetail, bs: seq<Applied>, price: real)
    requires forall a :: a in bs ==> a.BogoApplied?
    requires d.freeItems == FreeItems(bs) && d.itemDiscount == DiscountSum(bs, d.itemSubtotal, price)
    ensures d.itemDiscount == d.freeItems as real * price
  {
    BogoDiscount(bs, d.itemSubtotal, price);
  }

  /** No targeting promotion, no promotion entry. */
  lemma {:induction false} NoPromotionOffers(ps: seq<Promotion>, item: CartLine)
    requires forall p :: p in ps ==> !Targets(p.productBarcode, p.category, item)
    ensures PromotionOffers(ps, item) == []
  {
    if |ps| > 0 {
      assert ps[0] in ps;
      assert forall p :: p in ps[1..] ==> p in ps;
      NoPromotionOffers(ps[1..], item);
    }
  }

  /** The free units the recorded BOGO entries carry are the catalog's. */
  lemma {:induction false} BogoOffersFree(ls: seq<LegacyLoyalty>, item: CartLine)
    requires SafeFor(ls, item)
    ensures FreeItems(BogoOffers(ls, item)) == CatalogFree(ls, item)
  {
    if |ls| > 0 {
      assert SafeFor(ls[1..], item) by {
        forall i | 0 <= i < |ls[1..]| ensures DividesSafely(ls[1..][i], item) {
          assert ls[1..][i] == ls[i + 1];
        }
      }
      BogoOffersFree(ls[1..], item);
      BogoOfferIff(ls[0], item);
      var rest := BogoOffers(ls[1..], item);
      match BogoOffer(ls[0], item)
      case None =>
      case Some(a) =>
        FreeItemsPrepend(a, rest);
    }
  }

  lemma {:induction false} FreeItemsPrepend(a: Applied, as_: seq<Applied>)
    ensures FreeItems([a] + as_) == (if a.BogoApplied? then a.freeItems else 0) + FreeItems(as_)
    decreases |as_|
  {
    if |as_| > 0 {
      var front := as_[..|as_| - 1];
      assert ([a] + as_)[..|[a] + as_| - 1] == [a] + front;
      FreeItemsPrepend(a, front);
    } else {
      assert [a] + as_ == [a];
      assert [a][..0] == [];
    }
  }

  /** Entries that are all BOGO take off their free units at the unit price. */
  lemma {:induction false} BogoDiscount(as_: seq<Applied>, subtotal: real, price: real)
    requires forall a :: a in as_ ==> a.BogoApplied?
    ensures DiscountSum(as_, subtotal, price) == FreeItems(as_) as real * price
  {
    if |as_| > 0 {
      var front := as_[..|as_| - 1];
      var a := as_[|as_| - 1];
      assert forall x :: x in front ==> x in as_;
      assert a in as_;
      BogoDiscount(front, subtotal, price);
      LastFreeUnits(as_, subtotal, price);
      AddFreeUnits(DiscountSum(front, subtotal, price), FreeItems(front), a.freeItems, price);
    }
  }

  /** The last BOGO entry adds its free units to the count and their price to the discount. */
  lemma LastFreeUnits(as_: seq<Applied>, subtotal: real, price: real)
    requires |as_| > 0 && as_[|as_| - 1].BogoApplied?
    ensures var front, k := as_[..|as_| - 1], as_[|as_| - 1].freeItems;
      FreeItems(as_) == FreeItems(front) + k &&
      DiscountSum(as_, subtotal, price) == DiscountSum(front, subtotal, price) + k as real * price
  {
  }

  lemma AddFreeUnits(d: real, f: nat, k: nat, price: real)
    requires d == f as real * price
    ensures d + k as real * price == (f + k) as real * price
  {
    RightDistribute(f as real, k as real, price);
  }

  /** With one tax rate for every line, the total tax is that rate times the
      discounted subtotal: tax is charged on top of the discounted amount. */
  lemma {:induction false} UniformRateTax(ds: seq<ItemDetail>, rate: real)
    requires forall i :: 0 <= i < |ds| ==> ds[i].itemTax == (ds[i].itemSubtotal - ds[i].itemDiscount) * rate
    ensures TaxSum(ds) == (SubtotalSum(ds) - ItemDiscountSum(ds)) * rate
  {
    if |ds| > 0 {
      var front := ds[..|ds| - 1];
      var d := ds[|ds| - 1];
      assert forall i :: 0 <= i < |front| ==> front[i] == ds[i];
      UniformRateTax(front, rate);
      RightDistribute(SubtotalSum(front) - ItemDiscountSum(front), d.itemSubtotal - d.itemDiscount, rate);
      assert SubtotalSum(ds) - ItemDiscountSum(ds)
          == (SubtotalSum(front) - ItemDiscountSum(front)) + (d.itemSubtotal - d.itemDiscount);
      MulCongRight(SubtotalSum(ds) - ItemDiscountSum(ds),
                   (SubtotalSum(front) - ItemDiscountSum(front)) + (d.itemSubtotal - d.itemDiscount), rate);
    } else {
      MulCongRight(SubtotalSum(ds) - ItemDiscountSum(ds), 0.0, rate);
    }
  }

  lemma RightDistribute(x: real, y: real, rate: real)
    ensures (x + y) * rate == x * rate + y * rate
  {
  }

  lemma MulCongRight(a: real, b: real, rate: real)
    requires a == b
    ensures a * rate == b * rate
  {
  }

  lemma DetailsAtRate(cart: seq<CartLine>, ls: seq<LegacyLoyalty>, ps: seq<Promotion>, ds: seq<ItemDetail>, rate: real)
    requires SafeForCart(ls, cart)
    requires forall i :: 0 <= i < |cart| ==> cart[i].taxRate == rate
    requires |ds| == |cart| && forall i :: 0 <= i < |cart| ==> ds[i] == Detail(ls, ps, cart[i])
    ensures forall i :: 0 <= i < |ds| ==> ds[i].itemTax == (ds[i].itemSubtotal - ds[i].itemDiscount) * rate
  {
    forall i | 0 <= i < |ds|
      ensures ds[i].itemTax == (ds[i].itemSubtotal - ds[i].itemDiscount) * rate {
      DetailAtRate(ls, ps, cart[i], rate);
    }
  }

  lemma DetailAtRate(ls: seq<LegacyLoyalty>, ps: seq<Promotion>, item: CartLine, rate: real)
    requires SafeFor(ls, item) && item.taxRate == rate
    ensures var d := Detail(ls, ps, item);
            d.itemTax == (d.itemSubtotal - d.itemDiscount) * rate
  {
  }

  lemma LinesAtRate(cart: seq<CartLine>, ls: seq<LegacyLoyalty>, ps: seq<Promotion>, t: LegacyTotals, rate: real)
    requires SafeForCart(ls, cart)
    requires forall i :: 0 <= i < |cart| ==> cart[i].taxRate == rate
    requires t == CalculateLegacyTotals(cart, ls, ps)
    ensures forall i :: 0 <= i < |t.itemDetails| ==>
      t.itemDetails[i].itemTax == (t.itemDetails[i].itemSubtotal - t.itemDetails[i].itemDiscount) * rate
  {
    DetailsAtRate(cart, ls, ps, t.itemDetails, rate);
  }

  lemma TotalsTaxAtRate(t: LegacyTotals, rate: real)
    requires t.subtotal == SubtotalSum(t.itemDetails)
    requires t.totalTax == TaxSum(t.itemDetails)
    requires t.totalDiscount == ItemDiscountSum(t.itemDetails)
    requires forall i :: 0 <= i < |t.itemDetails| ==>
      t.itemDetails[i].itemTax == (t.itemDetails[i].itemSubtotal - t.itemDetails[i].itemDiscount) * rate
    ensures t.totalTax == (t.subtotal - t.totalDiscount) * rate
  {
    UniformRateTax(t.itemDetails, rate);
    MulCongRight(SubtotalSum(t.itemDetails) - ItemDiscountSum(t.itemDetails), t.subtotal - t.totalDiscount, rate);
  }

  /** On a cart whose lines all carry the same tax rate, the older screen's
      total is the discounted subtotal plus that rate of it. */
  lemma LegacyTotalsAtUniformRate(cart: seq<CartLine>, ls: seq<LegacyLoyalty>, ps: seq<Promotion>, rate: real,
                                  t: LegacyTotals)
    requires SafeForCart(ls, cart)
    requires forall i :: 0 <= i < |cart| ==> cart[i].taxRate == rate
    requires t == CalculateLegacyTotals(cart, ls, ps)
    ensures t.totalTax == (t.subtotal - t.totalDiscount) * rate
    ensures t.total == (t.subtotal - t.totalDiscount) * (1.0 + rate)
  {
    LinesAtRate(cart, ls, ps, t, rate);
    TotalsTaxAtRate(t, rate);
    RightDistribute(1.0, rate, t.subtotal - t.totalDiscount);
  }
}

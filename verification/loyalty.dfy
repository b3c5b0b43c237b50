/** Data model of the loyalty engine: programs as the catalog delivers them
    (trigger and reward barcode lists already split), conflict selections,
    the sections and remaining items the allocator emits, and the barcode
    index the engine builds from the cart. */
module Loyalty {
  import opened Common
  import opened Cart

  /** `type` 1 is buy-X-get-Y, `type` 0 is a percentage discount. */
  datatype ProgramType = PercentDiscount | BuyXGetY

  /** A loyalty program. `id` stands for `loyalty.id || loyalty.name`;
      `triggers` and `rewards` are the comma-separated id lists after
      splitting, trimming and dropping empty entries. */
  datatype Program = Program(
    id: string,
    name: string,
    active: bool,
    kind: ProgramType,
    triggers: seq<string>,
    rewards: seq<string>,
    minQuantity: nat,
    maxQuantity: nat,
    rewardQuantity: nat,
    discountPercent: real)

  /** `loyalty.minQuantity || 1`: trigger units per set. */
  function MinQty(p: Program): (r: nat)
    ensures r >= 1
    ensures p.minQuantity >= 1 ==> r == p.minQuantity
  {
    if p.minQuantity == 0 then 1 else p.minQuantity
  }

  /** `loyalty.rewardQuantity || 1`: reward units per set. */
  function RewardQty(p: Program): (r: nat)
    ensures r >= 1
    ensures p.rewardQuantity >= 1 ==> r == p.rewardQuantity
  {
    if p.rewardQuantity == 0 then 1 else p.rewardQuantity
  }

  /** The selection store: conflict key (a trigger barcode) to chosen program id. */
  type Selections = map<string, string>

  /** `selections[k]` is truthy: present and not the empty string. */
  predicate Chosen(sel: Selections, k: string)
  {
    k in sel && sel[k] != ""
  }

  /** `cartMap`: barcode to cart line, built by a left-to-right pass so the
      last line carrying a barcode wins. */
  function CartIndex(cart: seq<CartLine>): (m: map<string, CartLine>)
    ensures forall i :: 0 <= i < |cart| ==> cart[i].barcode in m
    ensures forall b :: b in m ==> m[b].barcode == b
  {
    if |cart| == 0 then map[]
    else
      var last := cart[|cart| - 1];
      CartIndex(cart[..|cart| - 1])[last.barcode := last]
  }

  /** Every indexed line is a line of the cart, and it is the LAST line
      carrying its barcode. */
  lemma {:induction false} CartIndexLast(cart: seq<CartLine>, b: string)
    requires b in CartIndex(cart)
    ensures exists i :: 0 <= i < |cart| && cart[i] == CartIndex(cart)[b] &&
                        forall j :: i < j < |cart| ==> cart[j].barcode != b
  {
    var n := |cart| - 1;
    var last := cart[n];
    if last.barcode != b {
      var front := cart[..n];
      CartIndexLast(front, b);
      var i :| 0 <= i < |front| && front[i] == CartIndex(front)[b] &&
               forall j :: i < j < |front| ==> front[j].barcode != b;
      assert cart[i] == CartIndex(cart)[b];
      forall j | i < j < |cart| ensures cart[j].barcode != b {
        if j < n {
          assert cart[j] == front[j];
        }
      }
    } else {
      assert cart[n] == CartIndex(cart)[b];
    }
  }

  /** On a cart with unique barcodes the index returns each line itself. */
  lemma CartIndexUnique(cart: seq<CartLine>, i: nat)
    requires Unique(cart) && i < |cart|
    ensures CartIndex(cart)[cart[i].barcode] == cart[i]
  {
    var b := cart[i].barcode;
    CartIndexLast(cart, b);
    var k :| 0 <= k < |cart| && cart[k] == CartIndex(cart)[b] &&
             forall j :: k < j < |cart| ==> cart[j].barcode != b;
  }

  /** Cart quantity of a barcode as the engine sees it (`cartMap[b]`), zero if absent. */
  function QtyIn(idx: map<string, CartLine>, b: string): nat
  {
    if b in idx then idx[b].quantity else 0
  }

  /** One trigger line of a section: units of the trigger product used by the sets. */
  datatype TriggerLine = TriggerLine(barcode: string, name: string, price: real, quantity: nat, lineTotal: real)

  /** One reward line of a section: units rewarded, how many are free, and the
      money taken off them. */
  datatype RewardLine = RewardLine(barcode: string, name: string, price: real, quantity: nat,
                                   freeQty: nat, discountAmount: real, lineTotal: real)

  /** One applied program/reward pairing. The source's `triggerItems` and
      `rewardItems` arrays always hold exactly one entry, so a section holds
      one of each. */
  datatype Section = Section(
    programId: string,
    programName: string,
    kind: ProgramType,
    discountPercent: real,
    trigger: TriggerLine,
    reward: RewardLine,
    sectionSubtotal: real,
    totalDiscount: real)

  /** Cart quantity that no section consumed, priced at the unit price. */
  datatype RemainingItem = RemainingItem(barcode: string, name: string, price: real, taxRate: real,
                                         quantity: nat, itemSubtotal: real)

  /** The programs of one type, in catalog order. */
  function OfKind(ps: seq<Program>, k: ProgramType): (r: seq<Program>)
    ensures |r| <= |ps|
  {
    if |ps| == 0 then []
    else if ps[0].kind == k then [ps[0]] + OfKind(ps[1..], k)
    else OfKind(ps[1..], k)
  }

  /** Selecting one type keeps exactly the programs of that type. */
  lemma {:induction false} OfKindMembers(ps: seq<Program>, k: ProgramType)
    ensures forall p :: p in OfKind(ps, k) <==> p in ps && p.kind == k
  {
    if |ps| > 0 {
      OfKindMembers(ps[1..], k);
      assert forall p :: p in ps <==> p == ps[0] || p in ps[1..];
    }
  }
}

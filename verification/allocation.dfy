/** The greedy allocator (`calculateLoyaltyBreakdown`): filter the programs
    by activity and conflict selection, put buy-X-get-Y before discounts,
    then let each program consume cart units through the shared counters
    `consumedTrigger` / `consumedReward`, emitting one section per applied
    program/reward pairing; what no counter claims is left as remaining items. */
module Allocation {
  import opened Common
  import opened Cart
  import opened Loyalty

  // ---------------------------------------------------------------------
  // Program filter and priority order

  /** The first trigger barcode of the program that has a truthy selection. */
  function FirstSelectedTrigger(triggers: seq<string>, sel: Selections): (r: Option<string>)
    ensures r.Some? ==> Chosen(sel, r.value)
    ensures r.Some? ==> exists i :: 0 <= i < |triggers| && triggers[i] == r.value &&
                                    forall j :: 0 <= j < i ==> !Chosen(sel, triggers[j])
    ensures r.None? ==> forall t :: t in triggers ==> !Chosen(sel, t)
  {
    if |triggers| == 0 then None
    else if Chosen(sel, triggers[0]) then
      assert triggers[0] == triggers[0];
      Some(triggers[0])
    else
      var r := FirstSelectedTrigger(triggers[1..], sel);
      if r.Some? then
        var i :| 0 <= i < |triggers[1..]| && triggers[1..][i] == r.value &&
                 forall j :: 0 <= j < i ==> !Chosen(sel, triggers[1..][j]);
        assert triggers[i + 1] == r.value;
        assert forall j :: 0 <= j < i + 1 ==> !Chosen(sel, triggers[j]) by {
          forall j | 0 <= j < i + 1 ensures !Chosen(sel, triggers[j]) {
            if j > 0 { assert triggers[j] == triggers[1..][j - 1]; }
          }
        }
        r
      else r
  }

  /** The selection test of the filter: the first trigger barcode with a
      stored selection decides, admitting the program only if that selection
      is the program's own id; with no selection on any trigger it passes. */
  predicate Admitted(p: Program, sel: Selections)
  {
    match FirstSelectedTrigger(p.triggers, sel)
    case None => true
    case Some(t) => sel[t] == p.id
  }

  /** `activeLoyalties`: the active, admitted programs, in catalog order. */
  function ActivePrograms(ps: seq<Program>, sel: Selections): (r: seq<Program>)
    ensures forall p :: p in r <==> p in ps && p.active && Admitted(p, sel)
    ensures |r| <= |ps|
  {
    if |ps| == 0 then []
    else if ps[0].active && Admitted(ps[0], sel) then [ps[0]] + ActivePrograms(ps[1..], sel)
    else ActivePrograms(ps[1..], sel)
  }

  /** The order of a list of programs: buy-X-get-Y never after a discount. */
  predicate KindOrdered(ps: seq<Program>)
  {
    forall i, j :: 0 <= i < j < |ps| && ps[j].kind == BuyXGetY ==> ps[i].kind == BuyXGetY
  }

  /** `[...active].sort((a, b) => b.type - a.type)`: a stable sort on the type
      descending, which for two types is the buy-X-get-Y programs followed by
      the discount programs, each group in catalog order. */
  function Prioritised(ps: seq<Program>): (r: seq<Program>)
    ensures multiset(r) == multiset(ps)
    ensures KindOrdered(r)
    ensures OfKind(r, BuyXGetY) == OfKind(ps, BuyXGetY)
    ensures OfKind(r, PercentDiscount) == OfKind(ps, PercentDiscount)
  {
    var b := OfKind(ps, BuyXGetY);
    var d := OfKind(ps, PercentDiscount);
    PartitionMultiset(ps);
    OfKindMembers(ps, BuyXGetY);
    OfKindMembers(ps, PercentDiscount);
    OfKindIdempotent(b, d);
    b + d
  }

  lemma {:induction false} PartitionMultiset(ps: seq<Program>)
    ensures multiset(OfKind(ps, BuyXGetY) + OfKind(ps, PercentDiscount)) == multiset(ps)
  {
    if |ps| > 0 {
      PartitionMultiset(ps[1..]);
      var b, d := OfKind(ps[1..], BuyXGetY), OfKind(ps[1..], PercentDiscount);
      SplitStep(ps, b, d, OfKind(ps, BuyXGetY), OfKind(ps, PercentDiscount));
    }
  }

  /** Putting the first program in front of either half of a split of the
      rest gives a split of the whole. */
  lemma SplitStep(ps: seq<Program>, b: seq<Program>, d: seq<Program>, b': seq<Program>, d': seq<Program>)
    requires |ps| > 0 && multiset(b + d) == multiset(ps[1..])
    requires (b' == [ps[0]] + b && d' == d) || (b' == b && d' == [ps[0]] + d)
    ensures multiset(b' + d') == multiset(ps)
  {
    assert ps == [ps[0]] + ps[1..];
  }

  lemma {:induction false} OfKindAppend(a: seq<Program>, b: seq<Program>, k: ProgramType)
    ensures OfKind(a + b, k) == OfKind(a, k) + OfKind(b, k)
  {
    if |a| > 0 {
      assert (a + b)[0] == a[0];
      assert (a + b)[1..] == a[1..] + b;
      OfKindAppend(a[1..], b, k);
    } else {
      assert a + b == b;
    }
  }

  lemma {:induction false} OfKindAll(ps: seq<Program>, k: ProgramType)
    requires forall p :: p in ps ==> p.kind == k
    ensures OfKind(ps, k) == ps
    ensures forall k' :: k' != k ==> OfKind(ps, k') == []
  {
    if |ps| > 0 {
      OfKindAll(ps[1..], k);
    }
  }

  lemma OfKindIdempotent(b: seq<Program>, d: seq<Program>)
    requires forall p :: p in b ==> p.kind == BuyXGetY
    requires forall p :: p in d ==> p.kind == PercentDiscount
    ensures KindOrdered(b + d)
    ensures OfKind(b + d, BuyXGetY) == b && OfKind(b + d, PercentDiscount) == d
  {
    OfKindAppend(b, d, BuyXGetY);
    OfKindAppend(b, d, PercentDiscount);
    OfKindAll(b, BuyXGetY);
    OfKindAll(d, PercentDiscount);
    forall i, j | 0 <= i < j < |b + d| && (b + d)[j].kind == BuyXGetY ensures (b + d)[i].kind == BuyXGetY {
      if i < |b| {
        assert (b + d)[i] == b[i];
      }
    }
  }

  // ---------------------------------------------------------------------
  // Set arithmetic

  /** Number of sets a program grants: as many as the trigger and reward
      availability both allow, capped at `maxQuantity` when that is not 0. */
  function SetsFor(trigAvail: nat, rewAvail: nat, p: Program): nat
  {
    var possible := Min(trigAvail / MinQty(p), rewAvail / RewardQty(p));
    if p.maxQuantity == 0 then possible else Min(possible, p.maxQuantity)
  }

  /** The sets never use more trigger or reward units than available and
      never exceed a non-zero cap. */
  lemma SetsForFits(trigAvail: nat, rewAvail: nat, p: Program)
    ensures SetsFor(trigAvail, rewAvail, p) * MinQty(p) <= trigAvail
    ensures SetsFor(trigAvail, rewAvail, p) * RewardQty(p) <= rewAvail
    ensures p.maxQuantity > 0 ==> SetsFor(trigAvail, rewAvail, p) <= p.maxQuantity
  {
    var n := SetsFor(trigAvail, rewAvail, p);
    DivMulLe(trigAvail, MinQty(p), n);
    DivMulLe(rewAvail, RewardQty(p), n);
  }

  lemma DivMulLe(a: nat, d: nat, n: nat)
    requires d >= 1 && n <= a / d
    ensures n * d <= a
  {
    MulLe(n, a / d, d);
  }

  lemma MulLe(x: int, y: int, d: nat)
    requires x <= y
    ensures x * d <= y * d
  {
  }

  /** `SetsFor` is the greatest number of sets that fits: one more set would
      overrun the trigger units, the reward units or the non-zero cap. */
  lemma SetsForMaximal(trigAvail: nat, rewAvail: nat, p: Program)
    ensures var n := SetsFor(trigAvail, rewAvail, p);
            (n + 1) * MinQty(p) > trigAvail || (n + 1) * RewardQty(p) > rewAvail ||
            (p.maxQuantity > 0 && n + 1 > p.maxQuantity)
  {
    var n := SetsFor(trigAvail, rewAvail, p);
    var m, q := MinQty(p), RewardQty(p);
    if p.maxQuantity == 0 || n < p.maxQuantity {
      if n == trigAvail / m {
        DivPlusOne(trigAvail, m);
      } else {
        DivPlusOne(rewAvail, q);
      }
    }
  }

  lemma DivPlusOne(a: nat, d: nat)
    requires d >= 1
    ensures (a / d + 1) * d > a
  {
  }

  // ---------------------------------------------------------------------
  // The pass state and the sections it emits

  /** Running state of one pass: the two consumption counters, the barcodes a
      buy-X-get-Y program has rewarded, and the sections so far. */
  datatype Pass = Pass(consumedTrigger: map<string, nat>, consumedReward: map<string, nat>,
                       rewarded: set<string>, sections: seq<Section>)

  const Start := Pass(map[], map[], {}, [])

  /** The buy-X-get-Y section for `sets` sets: trigger units at full price,
      reward units free. */
  function BxgySection(p: Program, t: CartLine, r: CartLine, sets: nat): Section
  {
    var used := sets * MinQty(p);
    var free := sets * RewardQty(p);
    Section(p.id, p.name, BuyXGetY, 0.0,
            TriggerLine(t.barcode, t.name, t.price, used, t.price * used as real),
            RewardLine(r.barcode, r.name, r.price, free, free, free as real * r.price, 0.0),
            t.price * used as real, free as real * r.price)
  }

  /** The discount section for `sets` sets: `pct` percent off the reward units. */
  function DiscountSection(p: Program, t: CartLine, r: CartLine, sets: nat): Section
  {
    var used := sets * MinQty(p);
    var qty := sets * RewardQty(p);
    var off := r.price * qty as real * p.discountPercent / 100.0;
    Section(p.id, p.name, PercentDiscount, p.discountPercent,
            TriggerLine(t.barcode, t.name, t.price, used, t.price * used as real),
            RewardLine(r.barcode, r.name, r.price, qty, 0, off, r.price * qty as real),
            t.price * used as real + r.price * qty as real - off, off)
  }

  /** Record a section: bump both counters and, for buy-X-get-Y, mark the
      reward barcode as rewarded. */
  function Emit(st: Pass, s: Section): Pass
  {
    Pass(Bump(st.consumedTrigger, s.trigger.barcode, s.trigger.quantity),
         Bump(st.consumedReward, s.reward.barcode, s.reward.quantity),
         if s.kind == BuyXGetY then st.rewarded + {s.reward.barcode} else st.rewarded,
         st.sections + [s])
  }

  /** `cartMap[b].quantity - (consumed[b] || 0)`, which may be negative. */
  function Avail(idx: map<string, CartLine>, counter: map<string, nat>, b: string): int
  {
    QtyIn(idx, b) - Get(counter, b)
  }

  /** A trigger barcode in the cart with at least `minQty` units not yet
      consumed as trigger. */
  predicate TriggerReady(idx: map<string, CartLine>, st: Pass, t: string, minQty: nat)
  {
    t in idx && Avail(idx, st.consumedTrigger, t) >= minQty
  }

  /** The first listed trigger barcode that is ready. */
  function FindTrigger(triggers: seq<string>, idx: map<string, CartLine>, st: Pass, minQty: nat): (r: Option<string>)
    ensures r.Some? ==> r.value in triggers && TriggerReady(idx, st, r.value, minQty)
    ensures r.Some? ==> exists i :: 0 <= i < |triggers| && triggers[i] == r.value &&
                                    forall j :: 0 <= j < i ==> !TriggerReady(idx, st, triggers[j], minQty)
    ensures r.None? ==> forall t :: t in triggers ==> !TriggerReady(idx, st, t, minQty)
  {
    if |triggers| == 0 then None
    else if TriggerReady(idx, st, triggers[0], minQty) then
      assert triggers[0] == triggers[0];
      Some(triggers[0])
    else
      var r := FindTrigger(triggers[1..], idx, st, minQty);
      if r.Some? then
        var i :| 0 <= i < |triggers[1..]| && triggers[1..][i] == r.value &&
                 forall j :: 0 <= j < i ==> !TriggerReady(idx, st, triggers[1..][j], minQty);
        assert triggers[i + 1] == r.value;
        assert forall j :: 0 <= j < i + 1 ==> !TriggerReady(idx, st, triggers[j], minQty) by {
          forall j | 0 <= j < i + 1 ensures !TriggerReady(idx, st, triggers[j], minQty) {
            if j > 0 { assert triggers[j] == triggers[1..][j - 1]; }
          }
        }
        r
      else r
  }

  /** Sets a reward barcode would get: zero when it is not in the cart or has
      no unconsumed reward units. */
  function RewardSets(p: Program, idx: map<string, CartLine>, st: Pass, trigAvail: nat, rb: string): nat
  {
    if rb in idx && Avail(idx, st.consumedReward, rb) > 0
    then SetsFor(trigAvail, Avail(idx, st.consumedReward, rb) as nat, p)
    else 0
  }

  /** Buy-X-get-Y: the first reward barcode that yields at least one set gets
      one section, and the scan stops. */
  function BxgyScan(p: Program, idx: map<string, CartLine>, t: CartLine, trigAvail: nat,
                    rewards: seq<string>, st: Pass): (r: Pass)
  {
    if |rewards| == 0 then st
    else
      var sets := RewardSets(p, idx, st, trigAvail, rewards[0]);
      if sets > 0 then Emit(st, BxgySection(p, t, idx[rewards[0]], sets))
      else BxgyScan(p, idx, t, trigAvail, rewards[1..], st)
  }

  /** Percentage discount: every reward barcode not already rewarded by a
      buy-X-get-Y program that yields at least one set gets its own section.
      The trigger availability is the value computed once before the loop. */
  function DiscountScan(p: Program, idx: map<string, CartLine>, t: CartLine, trigAvail: nat,
                        rewards: seq<string>, st: Pass): (r: Pass)
  {
    if |rewards| == 0 then st
    else
      var rb := rewards[0];
      var sets := if rb in st.rewarded then 0 else RewardSets(p, idx, st, trigAvail, rb);
      var next := if sets > 0 then Emit(st, DiscountSection(p, t, idx[rb], sets)) else st;
      DiscountScan(p, idx, t, trigAvail, rewards[1..], next)
  }

  /** One program's turn. */
  function ApplyProgram(p: Program, idx: map<string, CartLine>, st: Pass): Pass
  {
    if |p.triggers| == 0 || |p.rewards| == 0 then st
    else match FindTrigger(p.triggers, idx, st, MinQty(p))
      case None => st
      case Some(tb) =>
        var trigAvail := Avail(idx, st.consumedTrigger, tb) as nat;
        if p.kind == BuyXGetY then BxgyScan(p, idx, idx[tb], trigAvail, p.rewards, st)
        else DiscountScan(p, idx, idx[tb], trigAvail, p.rewards, st)
  }

  /** `sorted.forEach(...)`. */
  function Run(ps: seq<Program>, idx: map<string, CartLine>, st: Pass): Pass
  {
    if |ps| == 0 then st else Run(ps[1..], idx, ApplyProgram(ps[0], idx, st))
  }

  // ---------------------------------------------------------------------
  // Remaining items

  /** What is left of one cart line after the counters: the quantity minus
      the consumed units, clamped so it never goes below zero. */
  function Leftover(l: CartLine, consumedTrigger: map<string, nat>, consumedReward: map<string, nat>): nat
  {
    var used := Get(consumedTrigger, l.barcode) + Get(consumedReward, l.barcode);
    l.quantity - Min(l.quantity, used)
  }

  function RemainderOf(l: CartLine, consumedTrigger: map<string, nat>, consumedReward: map<string, nat>): RemainingItem
  {
    var q := Leftover(l, consumedTrigger, consumedReward);
    RemainingItem(l.barcode, l.name, l.price, l.taxRate, q, l.price * q as real)
  }

  /** The remaining items: one per cart line with a positive leftover, in cart order. */
  function RemainingItems(cart: seq<CartLine>, consumedTrigger: map<string, nat>,
                          consumedReward: map<string, nat>): (r: seq<RemainingItem>)
    ensures |r| <= |cart|
    ensures forall it :: it in r ==> it.quantity > 0
    ensures forall it :: it in r ==> exists l :: l in cart && it == RemainderOf(l, consumedTrigger, consumedReward)
    ensures forall l :: l in cart && Leftover(l, consumedTrigger, consumedReward) > 0 ==>
      RemainderOf(l, consumedTrigger, consumedReward) in r
  {
    if |cart| == 0 then []
    else
      var l := cart[0];
      var rest := RemainingItems(cart[1..], consumedTrigger, consumedReward);
      if Leftover(l, consumedTrigger, consumedReward) > 0 then [RemainderOf(l, consumedTrigger, consumedReward)] + rest
      else rest
  }

  /** The remaining items follow the cart: the items of two runs of lines
      laid end to end are the two runs' items laid end to end. With
      RemainingItemsOfLine, each line contributes at most one item, in cart
      order. */
  lemma {:induction false} RemainingItemsAppend(a: seq<CartLine>, b: seq<CartLine>,
                                                consumedTrigger: map<string, nat>, consumedReward: map<string, nat>)
    ensures RemainingItems(a + b, consumedTrigger, consumedReward) ==
            RemainingItems(a, consumedTrigger, consumedReward) + RemainingItems(b, consumedTrigger, consumedReward)
  {
    if |a| == 0 {
      assert a + b == b;
    } else {
      assert (a + b)[1..] == a[1..] + b;
      assert (a + b)[0] == a[0];
      RemainingItemsAppend(a[1..], b, consumedTrigger, consumedReward);
    }
  }

  /** A single line gives its leftover when that is positive, and nothing
      otherwise. */
  lemma RemainingItemsOfLine(l: CartLine, consumedTrigger: map<string, nat>, consumedReward: map<string, nat>)
    ensures RemainingItems([l], consumedTrigger, consumedReward) ==
            if Leftover(l, consumedTrigger, consumedReward) > 0 then [RemainderOf(l, consumedTrigger, consumedReward)] else []
  {
    assert [l][1..] == [];
  }

  /** `calculateLoyaltyBreakdown(cart)`. */
  function Breakdown(cart: seq<CartLine>, ps: seq<Program>, sel: Selections): (seq<Section>, seq<RemainingItem>)
  {
    var idx := CartIndex(cart);
    var st := Run(Prioritised(ActivePrograms(ps, sel)), idx, Start);
    (st.sections, RemainingItems(cart, st.consumedTrigger, st.consumedReward))
  }
}

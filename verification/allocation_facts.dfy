/** What the allocator guarantees about its output: every section comes from
    an active, admitted program and is priced by that program's rule; the
    counters are exactly the units the sections claim; no barcode's reward
    units are claimed beyond its cart quantity; buy-X-get-Y sections precede
    discount sections and never share a reward barcode with one; and the
    remaining items are the unclaimed units of each cart line. */
module AllocationFacts {
  import opened Common
  import opened Cart
  import opened Loyalty
  import opened Allocation

  // ---------------------------------------------------------------------
  // Units claimed by a list of sections

  /** Trigger units of barcode `b` claimed by the sections. */
  function TriggerUse(secs: seq<Section>, b: string): nat
  {
    if |secs| == 0 then 0
    else
      var s := secs[|secs| - 1];
      TriggerUse(secs[..|secs| - 1], b) + (if s.trigger.barcode == b then s.trigger.quantity else 0)
  }

  /** Reward units of barcode `b` claimed by the sections. */
  function RewardUse(secs: seq<Section>, b: string): nat
  {
    if |secs| == 0 then 0
    else
      var s := secs[|secs| - 1];
      RewardUse(secs[..|secs| - 1], b) + (if s.reward.barcode == b then s.reward.quantity else 0)
  }

  // ---------------------------------------------------------------------
  // Where a section comes from

  /** The section the program's rule builds for `n` sets. */
  function Build(p: Program, t: CartLine, r: CartLine, n: nat): Section
  {
    if p.kind == BuyXGetY then BxgySection(p, t, r, n) else DiscountSection(p, t, r, n)
  }

  /** `s` is what program `p` builds from the indexed cart lines of its
      trigger and reward barcodes for `n` sets. */
  ghost predicate BuiltWith(s: Section, p: Program, idx: map<string, CartLine>, n: nat)
  {
    s.trigger.barcode in idx && s.reward.barcode in idx &&
    s == Build(p, idx[s.trigger.barcode], idx[s.reward.barcode], n)
  }

  /** `s` is a section of program `p`: a listed trigger and a listed reward,
      at least one set, at most `maxQuantity` sets when that is not 0. */
  ghost predicate FromProgram(s: Section, p: Program, idx: map<string, CartLine>)
  {
    s.kind == p.kind && s.programId == p.id && s.programName == p.name &&
    s.trigger.barcode in p.triggers && s.reward.barcode in p.rewards &&
    exists n: nat :: 1 <= n && (p.maxQuantity > 0 ==> n <= p.maxQuantity) && BuiltWith(s, p, idx, n)
  }

  /** The numbers of a buy-X-get-Y section for `n` sets: `n` times the
      program's trigger units are used, `n` times its reward units are all
      free, their price is the discount, and the subtotal is the trigger line. */
  lemma BxgyMeaning(s: Section, p: Program, t: CartLine, r: CartLine, n: nat)
    requires s == BxgySection(p, t, r, n)
    ensures s.trigger.quantity == n * MinQty(p) && s.reward.quantity == n * RewardQty(p)
    ensures s.kind == BuyXGetY &&
      s.trigger.barcode == t.barcode && s.reward.barcode == r.barcode &&
      s.trigger.price == t.price && s.reward.price == r.price &&
      s.trigger.lineTotal == s.trigger.price * s.trigger.quantity as real &&
      s.totalDiscount == s.reward.discountAmount &&
      s.reward.freeQty == s.reward.quantity && s.reward.lineTotal == 0.0 &&
      s.reward.discountAmount == s.reward.quantity as real * s.reward.price &&
      s.sectionSubtotal == s.trigger.lineTotal && s.discountPercent == 0.0
  {
  }

  /** The numbers of a discount section for `n` sets: `n` times the
      program's trigger and reward units, the reward units are charged, the
      program's percentage of their price is taken off, and the subtotal is
      both lines less that discount. */
  lemma DiscountMeaning(s: Section, p: Program, t: CartLine, r: CartLine, n: nat)
    requires s == DiscountSection(p, t, r, n)
    ensures s.trigger.quantity == n * MinQty(p) && s.reward.quantity == n * RewardQty(p)
    ensures s.kind == PercentDiscount &&
      s.trigger.barcode == t.barcode && s.reward.barcode == r.barcode &&
      s.trigger.price == t.price && s.reward.price == r.price &&
      s.trigger.lineTotal == s.trigger.price * s.trigger.quantity as real &&
      s.totalDiscount == s.reward.discountAmount &&
      s.reward.freeQty == 0 && s.discountPercent == p.discountPercent &&
      s.reward.lineTotal == s.reward.price * s.reward.quantity as real &&
      s.reward.discountAmount == s.reward.lineTotal * p.discountPercent / 100.0 &&
      s.sectionSubtotal == s.trigger.lineTotal + s.reward.lineTotal - s.reward.discountAmount
  {
  }

  /** Trigger and reward units of a section stand in the program's ratio. */
  lemma SetsRatio(p: Program, t: CartLine, r: CartLine, n: nat)
    requires n >= 1
    ensures var s := Build(p, t, r, n);
      s.trigger.quantity >= MinQty(p) && s.reward.quantity >= RewardQty(p) &&
      s.trigger.quantity * RewardQty(p) == s.reward.quantity * MinQty(p)
  {
    var m, q := MinQty(p), RewardQty(p);
    MulLe(1, n, m);
    MulLe(1, n, q);
    MulComm3(n, m, q);
  }

  /** The set count is recovered from the trigger units. */
  lemma MulDivCancel(n: nat, m: nat)
    requires m >= 1
    ensures n * m / m == n
  {
    var q, r := n * m / m, n * m % m;
    assert n * m == q * m + r && 0 <= r < m;
    if q < n {
      MulLe(q + 1, n, m);
      assert false;
    } else if q > n {
      MulLe(n + 1, q, m);
      assert false;
    }
  }

  lemma MulComm3(n: nat, m: nat, q: nat)
    ensures n * m * q == n * q * m
  {
  }

  /** The numbers of a section of program `p`, as the allocator promises them. */
  lemma SectionMeaning(s: Section, p: Program, idx: map<string, CartLine>)
    requires FromProgram(s, p, idx)
    ensures s.trigger.barcode in idx && s.reward.barcode in idx
    ensures s.trigger.price == idx[s.trigger.barcode].price && s.reward.price == idx[s.reward.barcode].price
    ensures s.trigger.lineTotal == s.trigger.price * s.trigger.quantity as real
    ensures s.totalDiscount == s.reward.discountAmount
    ensures s.trigger.quantity >= MinQty(p) && s.reward.quantity >= RewardQty(p)
    ensures s.trigger.quantity * RewardQty(p) == s.reward.quantity * MinQty(p)
    ensures var n := s.trigger.quantity / MinQty(p);
      1 <= n && (p.maxQuantity > 0 ==> n <= p.maxQuantity) &&
      s.trigger.quantity == n * MinQty(p) && s.reward.quantity == n * RewardQty(p)
    ensures p.kind == BuyXGetY ==>
      s.reward.freeQty == s.reward.quantity && s.reward.lineTotal == 0.0 &&
      s.reward.discountAmount == s.reward.quantity as real * s.reward.price &&
      s.sectionSubtotal == s.trigger.lineTotal && s.discountPercent == 0.0
    ensures p.kind == PercentDiscount ==>
      s.reward.freeQty == 0 && s.discountPercent == p.discountPercent &&
      s.reward.lineTotal == s.reward.price * s.reward.quantity as real &&
      s.reward.discountAmount == s.reward.lineTotal * p.discountPercent / 100.0 &&
      s.sectionSubtotal == s.trigger.lineTotal + s.reward.lineTotal - s.reward.discountAmount
  {
    var n: nat :| 1 <= n && (p.maxQuantity > 0 ==> n <= p.maxQuantity) && BuiltWith(s, p, idx, n);
    var t, r := idx[s.trigger.barcode], idx[s.reward.barcode];
    SetsRatio(p, t, r, n);
    MulDivCancel(n, MinQty(p));
    if p.kind == BuyXGetY {
      BxgyMeaning(s, p, t, r, n);
    } else {
      DiscountMeaning(s, p, t, r, n);
    }
  }

  /** With a percentage between 0 and 100 and non-negative prices, a
      discount section takes off no more than its reward units cost, so its
      subtotal is never negative. */
  lemma DiscountSectionBounds(p: Program, t: CartLine, r: CartLine, n: nat)
    requires 0.0 <= p.discountPercent <= 100.0 && t.price >= 0.0 && r.price >= 0.0
    ensures var s := DiscountSection(p, t, r, n);
            0.0 <= s.totalDiscount <= s.reward.lineTotal && s.sectionSubtotal >= s.trigger.lineTotal >= 0.0
  {
    var s := DiscountSection(p, t, r, n);
    DiscountMeaning(s, p, t, r, n);
    RealMulNonNeg(s.reward.price, s.reward.quantity as real);
    RealMulNonNeg(s.trigger.price, s.trigger.quantity as real);
    SectionWithin(s.trigger.lineTotal, s.reward.lineTotal, s.reward.discountAmount, s.sectionSubtotal, p.discountPercent);
  }

  lemma SectionWithin(tl: real, rl: real, off: real, sub: real, pct: real)
    requires tl >= 0.0 && rl >= 0.0 && 0.0 <= pct <= 100.0
    requires off == rl * pct / 100.0 && sub == tl + rl - off
    ensures 0.0 <= off <= rl && sub >= tl
  {
    RealPercentLe(rl, pct);
  }

  lemma RealMulNonNeg(a: real, b: real)
    requires a >= 0.0 && b >= 0.0
    ensures a * b >= 0.0
  {
  }

  lemma RealPercentLe(x: real, pct: real)
    requires x >= 0.0 && 0.0 <= pct <= 100.0
    ensures 0.0 <= x * pct / 100.0 <= x
  {
    assert x * pct <= x * 100.0;
  }

  // ---------------------------------------------------------------------
  // The pass invariant

  /** Each indexed line carries the barcode it is indexed under, as
      `CartIndex` guarantees. */
  predicate Keyed(idx: map<string, CartLine>)
  {
    forall b :: b in idx ==> idx[b].barcode == b
  }

  /** The counters hold exactly the units the sections claim. */
  ghost predicate CountersMatch(st: Pass)
  {
    forall b :: Get(st.consumedTrigger, b) == TriggerUse(st.sections, b) &&
                Get(st.consumedReward, b) == RewardUse(st.sections, b)
  }

  /** No barcode has more reward units claimed than the cart holds. */
  ghost predicate RewardsWithin(idx: map<string, CartLine>, secs: seq<Section>)
  {
    forall b :: RewardUse(secs, b) <= QtyIn(idx, b)
  }

  /** Buy-X-get-Y sections come first. */
  predicate SectionsOrdered(secs: seq<Section>)
  {
    forall i, j :: 0 <= i < j < |secs| && secs[j].kind == BuyXGetY ==> secs[i].kind == BuyXGetY
  }

  predicate AllBxgy(secs: seq<Section>)
  {
    forall i :: 0 <= i < |secs| ==> secs[i].kind == BuyXGetY
  }

  /** The rewarded set holds the reward barcode of every buy-X-get-Y section
      and of no discount section. */
  ghost predicate MarksMatch(st: Pass)
  {
    (forall i :: 0 <= i < |st.sections| && st.sections[i].kind == BuyXGetY ==> st.sections[i].reward.barcode in st.rewarded) &&
    (forall i :: 0 <= i < |st.sections| && st.sections[i].kind == PercentDiscount ==> st.sections[i].reward.barcode !in st.rewarded)
  }

  /** Every section comes from one of the programs `all`. */
  ghost predicate Provenance(idx: map<string, CartLine>, all: seq<Program>, secs: seq<Section>)
  {
    forall i :: 0 <= i < |secs| ==> exists p :: p in all && FromProgram(secs[i], p, idx)
  }

  ghost predicate Inv(idx: map<string, CartLine>, all: seq<Program>, st: Pass)
  {
    CountersMatch(st) && RewardsWithin(idx, st.sections) && SectionsOrdered(st.sections) &&
    MarksMatch(st) && Provenance(idx, all, st.sections)
  }

  lemma StartInv(idx: map<string, CartLine>, all: seq<Program>)
    ensures Inv(idx, all, Start)
  {
  }

  lemma {:induction false} UseAppend(secs: seq<Section>, s: Section, b: string)
    ensures TriggerUse(secs + [s], b) == TriggerUse(secs, b) + (if s.trigger.barcode == b then s.trigger.quantity else 0)
    ensures RewardUse(secs + [s], b) == RewardUse(secs, b) + (if s.reward.barcode == b then s.reward.quantity else 0)
  {
    assert (secs + [s])[..|secs|] == secs;
  }

  /** Emitting a section of a program in `all` that fits the unclaimed
      reward units keeps the invariant, provided a buy-X-get-Y section only
      follows buy-X-get-Y sections and a discount section's reward barcode
      was not rewarded. */
  lemma EmitKeeps(idx: map<string, CartLine>, all: seq<Program>, st: Pass, s: Section, p: Program)
    requires Inv(idx, all, st)
    requires p in all && FromProgram(s, p, idx)
    requires s.reward.quantity <= Avail(idx, st.consumedReward, s.reward.barcode)
    requires s.kind == BuyXGetY ==> AllBxgy(st.sections)
    requires s.kind == PercentDiscount ==> s.reward.barcode !in st.rewarded
    ensures Inv(idx, all, Emit(st, s))
  {
    EmitCounters(st, s);
    EmitWithin(idx, st, s);
    EmitOrdered(st.sections, s);
    EmitMarks(st, s);
    EmitProvenance(idx, all, st.sections, s, p);
  }

  lemma EmitCounters(st: Pass, s: Section)
    requires CountersMatch(st)
    ensures CountersMatch(Emit(st, s))
  {
    var st' := Emit(st, s);
    forall b ensures Get(st'.consumedTrigger, b) == TriggerUse(st'.sections, b) &&
                     Get(st'.consumedReward, b) == RewardUse(st'.sections, b) {
      UseAppend(st.sections, s, b);
    }
  }

  lemma EmitWithin(idx: map<string, CartLine>, st: Pass, s: Section)
    requires CountersMatch(st) && RewardsWithin(idx, st.sections)
    requires s.reward.quantity <= Avail(idx, st.consumedReward, s.reward.barcode)
    ensures RewardsWithin(idx, Emit(st, s).sections)
  {
    forall b ensures RewardUse(st.sections + [s], b) <= QtyIn(idx, b) {
      UseAppend(st.sections, s, b);
    }
  }

  lemma EmitOrdered(secs: seq<Section>, s: Section)
    requires SectionsOrdered(secs)
    requires s.kind == BuyXGetY ==> AllBxgy(secs)
    ensures SectionsOrdered(secs + [s])
  {
    assert forall i :: 0 <= i < |secs| ==> (secs + [s])[i] == secs[i];
  }

  lemma EmitMarks(st: Pass, s: Section)
    requires MarksMatch(st)
    requires s.kind == BuyXGetY ==> AllBxgy(st.sections)
    requires s.kind == PercentDiscount ==> s.reward.barcode !in st.rewarded
    ensures MarksMatch(Emit(st, s))
  {
    var st' := Emit(st, s);
    assert forall i :: 0 <= i < |st.sections| ==> st'.sections[i] == st.sections[i];
    assert st'.sections[|st.sections|] == s;
  }

  lemma EmitProvenance(idx: map<string, CartLine>, all: seq<Program>, secs: seq<Section>, s: Section, p: Program)
    requires Provenance(idx, all, secs)
    requires p in all && FromProgram(s, p, idx)
    ensures Provenance(idx, all, secs + [s])
  {
    assert forall i :: 0 <= i < |secs| ==> (secs + [s])[i] == secs[i];
    assert (secs + [s])[|secs|] == s;
  }

  /** Common premises of the two reward scans of program `p`. */
  ghost predicate ScanReady(p: Program, idx: map<string, CartLine>, t: CartLine, rewards: seq<string>)
  {
    Keyed(idx) && t.barcode in idx && idx[t.barcode] == t && t.barcode in p.triggers &&
    forall rb :: rb in rewards ==> rb in p.rewards
  }

  /** The section a scan emits for reward `rb` comes from the program. */
  lemma ScanSectionFromProgram(p: Program, idx: map<string, CartLine>, t: CartLine, trigAvail: nat,
                               st: Pass, rb: string)
    requires Keyed(idx) && t.barcode in idx && idx[t.barcode] == t && t.barcode in p.triggers && rb in p.rewards
    requires RewardSets(p, idx, st, trigAvail, rb) > 0
    ensures rb in idx
    ensures FromProgram(Build(p, t, idx[rb], RewardSets(p, idx, st, trigAvail, rb)), p, idx)
    ensures Build(p, t, idx[rb], RewardSets(p, idx, st, trigAvail, rb)).reward.quantity
            <= Avail(idx, st.consumedReward, rb)
  {
    var n := RewardSets(p, idx, st, trigAvail, rb);
    SetsForFits(trigAvail, Avail(idx, st.consumedReward, rb) as nat, p);
    var s := Build(p, t, idx[rb], n);
    if p.kind == BuyXGetY {
      BxgyMeaning(s, p, t, idx[rb], n);
    } else {
      DiscountMeaning(s, p, t, idx[rb], n);
    }
    assert BuiltWith(s, p, idx, n);
  }

  lemma {:induction false} BxgyScanKeeps(p: Program, idx: map<string, CartLine>, all: seq<Program>,
                                         t: CartLine, trigAvail: nat, rewards: seq<string>, st: Pass)
    requires Inv(idx, all, st) && AllBxgy(st.sections)
    requires p in all && p.kind == BuyXGetY && ScanReady(p, idx, t, rewards)
    ensures var r := BxgyScan(p, idx, t, trigAvail, rewards, st);
            Inv(idx, all, r) && AllBxgy(r.sections)
    ensures var r := BxgyScan(p, idx, t, trigAvail, rewards, st);
            r == st || (|r.sections| == |st.sections| + 1 && r.sections[..|st.sections|] == st.sections)
  {
    if |rewards| > 0 {
      var rb := rewards[0];
      var n := RewardSets(p, idx, st, trigAvail, rb);
      if n > 0 {
        BxgyEmitKeeps(p, idx, all, t, trigAvail, st, rb);
      } else {
        assert ScanReady(p, idx, t, rewards[1..]) by {
          assert forall x :: x in rewards[1..] ==> x in rewards;
        }
        BxgyScanKeeps(p, idx, all, t, trigAvail, rewards[1..], st);
      }
    }
  }

  /** The one section a buy-X-get-Y scan emits keeps the invariant and is
      appended after the earlier sections. */
  lemma BxgyEmitKeeps(p: Program, idx: map<string, CartLine>, all: seq<Program>,
                      t: CartLine, trigAvail: nat, st: Pass, rb: string)
    requires Inv(idx, all, st) && AllBxgy(st.sections)
    requires p in all && p.kind == BuyXGetY
    requires Keyed(idx) && t.barcode in idx && idx[t.barcode] == t && t.barcode in p.triggers && rb in p.rewards
    requires RewardSets(p, idx, st, trigAvail, rb) > 0
    ensures rb in idx
    ensures var r := Emit(st, BxgySection(p, t, idx[rb], RewardSets(p, idx, st, trigAvail, rb)));
            Inv(idx, all, r) && AllBxgy(r.sections) &&
            |r.sections| == |st.sections| + 1 && r.sections[..|st.sections|] == st.sections
  {
    ScanSectionFromProgram(p, idx, t, trigAvail, st, rb);
    var s := BxgySection(p, t, idx[rb], RewardSets(p, idx, st, trigAvail, rb));
    EmitKeeps(idx, all, st, s, p);
    var r := Emit(st, s);
    assert r.sections[..|st.sections|] == st.sections;
  }

  lemma {:induction false} DiscountScanKeeps(p: Program, idx: map<string, CartLine>, all: seq<Program>,
                                             t: CartLine, trigAvail: nat, rewards: seq<string>, st: Pass)
    requires Inv(idx, all, st)
    requires p in all && p.kind == PercentDiscount && ScanReady(p, idx, t, rewards)
    ensures Inv(idx, all, DiscountScan(p, idx, t, trigAvail, rewards, st))
  {
    if |rewards| > 0 {
      var rb := rewards[0];
      var n := if rb in st.rewarded then 0 else RewardSets(p, idx, st, trigAvail, rb);
      var next := st;
      if n > 0 {
        ScanSectionFromProgram(p, idx, t, trigAvail, st, rb);
        EmitKeeps(idx, all, st, DiscountSection(p, t, idx[rb], n), p);
        next := Emit(st, DiscountSection(p, t, idx[rb], n));
      }
      DiscountScanKeeps(p, idx, all, t, trigAvail, rewards[1..], next);
    }
  }

  lemma ApplyKeeps(p: Program, idx: map<string, CartLine>, all: seq<Program>, st: Pass)
    requires Keyed(idx) && Inv(idx, all, st) && p in all
    requires p.kind == BuyXGetY ==> AllBxgy(st.sections)
    ensures Inv(idx, all, ApplyProgram(p, idx, st))
    ensures p.kind == BuyXGetY ==> AllBxgy(ApplyProgram(p, idx, st).sections)
  {
    if |p.triggers| > 0 && |p.rewards| > 0 {
      match FindTrigger(p.triggers, idx, st, MinQty(p))
      case None =>
      case Some(tb) =>
        var trigAvail := Avail(idx, st.consumedTrigger, tb) as nat;
        if p.kind == BuyXGetY {
          BxgyScanKeeps(p, idx, all, idx[tb], trigAvail, p.rewards, st);
        } else {
          DiscountScanKeeps(p, idx, all, idx[tb], trigAvail, p.rewards, st);
        }
    }
  }

  lemma {:induction false} RunKeeps(ps: seq<Program>, idx: map<string, CartLine>, all: seq<Program>, st: Pass)
    requires Keyed(idx) && Inv(idx, all, st)
    requires forall p :: p in ps ==> p in all
    requires KindOrdered(ps)
    requires (exists p :: p in ps && p.kind == BuyXGetY) ==> AllBxgy(st.sections)
    ensures Inv(idx, all, Run(ps, idx, st))
  {
    if |ps| > 0 {
      ApplyKeeps(ps[0], idx, all, st);
      var next := ApplyProgram(ps[0], idx, st);
      if exists p :: p in ps[1..] && p.kind == BuyXGetY {
        var p :| p in ps[1..] && p.kind == BuyXGetY;
        var j :| 0 <= j < |ps[1..]| && ps[1..][j] == p;
        assert ps[j + 1].kind == BuyXGetY;
      }
      assert KindOrdered(ps[1..]) by {
        forall i, j | 0 <= i < j < |ps[1..]| && ps[1..][j].kind == BuyXGetY
          ensures ps[1..][i].kind == BuyXGetY {
          assert ps[1..][i] == ps[i + 1] && ps[1..][j] == ps[j + 1];
        }
      }
      RunKeeps(ps[1..], idx, all, next);
    }
  }

  // ---------------------------------------------------------------------
  // The breakdown as a whole

  /** The pass state `Breakdown` ends in. */
  function FinalPass(cart: seq<CartLine>, ps: seq<Program>, sel: Selections): Pass
  {
    Run(Prioritised(ActivePrograms(ps, sel)), CartIndex(cart), Start)
  }

  lemma FinalInv(cart: seq<CartLine>, ps: seq<Program>, sel: Selections)
    ensures Inv(CartIndex(cart), ActivePrograms(ps, sel), FinalPass(cart, ps, sel))
  {
    var act := ActivePrograms(ps, sel);
    var sorted := Prioritised(act);
    forall p | p in sorted ensures p in act {
      assert p in multiset(sorted);
    }
    StartInv(CartIndex(cart), act);
    RunKeeps(sorted, CartIndex(cart), act, Start);
  }

  /** Every section of the breakdown comes from an active program admitted by
      the selections, is built by that program's rule from the indexed cart
      lines, and the buy-X-get-Y sections come before the discount sections. */
  lemma BreakdownSections(cart: seq<CartLine>, ps: seq<Program>, sel: Selections, i: nat)
    requires i < |Breakdown(cart, ps, sel).0|
    ensures exists p :: p in ps && p.active && Admitted(p, sel) &&
                        FromProgram(Breakdown(cart, ps, sel).0[i], p, CartIndex(cart))
    ensures SectionsOrdered(Breakdown(cart, ps, sel).0)
  {
    FinalInv(cart, ps, sel);
    var act := ActivePrograms(ps, sel);
    var p :| p in act && FromProgram(FinalPass(cart, ps, sel).sections[i], p, CartIndex(cart));
  }

  /** No barcode gives more reward units than the cart holds, and no barcode
      rewarded by a buy-X-get-Y section is also discounted by a
      percentage section. */
  lemma BreakdownRewards(cart: seq<CartLine>, ps: seq<Program>, sel: Selections)
    ensures forall b :: RewardUse(Breakdown(cart, ps, sel).0, b) <= QtyIn(CartIndex(cart), b)
    ensures var secs := Breakdown(cart, ps, sel).0;
      forall i, j :: 0 <= i < |secs| && 0 <= j < |secs| && secs[i].kind == BuyXGetY && secs[j].kind == PercentDiscount ==>
        secs[i].reward.barcode != secs[j].reward.barcode
  {
    FinalInv(cart, ps, sel);
  }

  /** With counters that match the sections, the remainder of a line with a
      positive leftover is its unclaimed part. */
  lemma RemainderUnclaimed(l: CartLine, st: Pass, it: RemainingItem)
    requires CountersMatch(st)
    requires it == RemainderOf(l, st.consumedTrigger, st.consumedReward) && it.quantity > 0
    ensures Unclaimed(l, st.sections, it)
  {
    assert Get(st.consumedTrigger, l.barcode) == TriggerUse(st.sections, l.barcode);
    assert Get(st.consumedReward, l.barcode) == RewardUse(st.sections, l.barcode);
  }

  /** With counters that match the sections, each remaining item is the
      unclaimed part of a cart line, and each cart line with unclaimed units
      has a remaining item. */
  lemma RemainingAgainstUse(cart: seq<CartLine>, st: Pass)
    requires CountersMatch(st)
    ensures forall it :: it in RemainingItems(cart, st.consumedTrigger, st.consumedReward) ==>
      exists l :: l in cart && Unclaimed(l, st.sections, it)
    ensures forall l :: l in cart && TriggerUse(st.sections, l.barcode) + RewardUse(st.sections, l.barcode) < l.quantity ==>
      exists it :: it in RemainingItems(cart, st.consumedTrigger, st.consumedReward) && Unclaimed(l, st.sections, it)
  {
    var rem := RemainingItems(cart, st.consumedTrigger, st.consumedReward);
    forall it | it in rem ensures exists l :: l in cart && Unclaimed(l, st.sections, it) {
      var l :| l in cart && it == RemainderOf(l, st.consumedTrigger, st.consumedReward);
      RemainderUnclaimed(l, st, it);
    }
    forall l | l in cart && TriggerUse(st.sections, l.barcode) + RewardUse(st.sections, l.barcode) < l.quantity
      ensures exists it :: it in rem && Unclaimed(l, st.sections, it) {
      var it := RemainderOf(l, st.consumedTrigger, st.consumedReward);
      assert Get(st.consumedTrigger, l.barcode) == TriggerUse(st.sections, l.barcode);
      assert Get(st.consumedReward, l.barcode) == RewardUse(st.sections, l.barcode);
      assert it in rem;
      RemainderUnclaimed(l, st, it);
    }
  }

  /** The part of cart line `l` the sections leave unclaimed, counted from
      the sections themselves rather than from the pass counters. */
  function UnclaimedPart(l: CartLine, secs: seq<Section>): RemainingItem
  {
    var q := l.quantity - Min(l.quantity, TriggerUse(secs, l.barcode) + RewardUse(secs, l.barcode));
    RemainingItem(l.barcode, l.name, l.price, l.taxRate, q, l.price * q as real)
  }

  /** The unclaimed parts of the cart lines, in cart order, leaving out the
      lines the sections claim in full. */
  function UnclaimedParts(cart: seq<CartLine>, secs: seq<Section>): seq<RemainingItem>
  {
    if |cart| == 0 then []
    else
      var it := UnclaimedPart(cart[0], secs);
      (if it.quantity > 0 then [it] else []) + UnclaimedParts(cart[1..], secs)
  }

  /** With counters that match the sections, the remaining items are exactly
      the unclaimed parts, line by line in cart order. */
  lemma {:induction false} RemainingIsUnclaimedParts(cart: seq<CartLine>, st: Pass)
    requires CountersMatch(st)
    ensures RemainingItems(cart, st.consumedTrigger, st.consumedReward) == UnclaimedParts(cart, st.sections)
  {
    if |cart| > 0 {
      var l, ct, cr := cart[0], st.consumedTrigger, st.consumedReward;
      LinePartAgrees(l, st);
      assert cart == [l] + cart[1..];
      RemainingItemsAppend([l], cart[1..], ct, cr);
      RemainingItemsOfLine(l, ct, cr);
      RemainingIsUnclaimedParts(cart[1..], st);
    }
  }

  lemma LinePartAgrees(l: CartLine, st: Pass)
    requires CountersMatch(st)
    ensures Leftover(l, st.consumedTrigger, st.consumedReward) == UnclaimedPart(l, st.sections).quantity
    ensures RemainderOf(l, st.consumedTrigger, st.consumedReward) == UnclaimedPart(l, st.sections)
  {
    assert Get(st.consumedTrigger, l.barcode) == TriggerUse(st.sections, l.barcode);
    assert Get(st.consumedReward, l.barcode) == RewardUse(st.sections, l.barcode);
  }

  /** `it` is the part of cart line `l` that the sections leave unclaimed:
      same product, the line's quantity less the claimed units, positive and
      priced at the unit price. */
  predicate Unclaimed(l: CartLine, secs: seq<Section>, it: RemainingItem)
  {
    it.barcode == l.barcode && it.name == l.name && it.price == l.price && it.taxRate == l.taxRate &&
    it.quantity == l.quantity - Min(l.quantity, TriggerUse(secs, l.barcode) + RewardUse(secs, l.barcode)) &&
    0 < it.quantity <= l.quantity && it.itemSubtotal == l.price * it.quantity as real
  }

  /** The remaining items are, in cart order, the cart lines with units that
      no section claimed, each carrying its quantity minus the units claimed
      as trigger or reward (clamped at zero) priced at the unit price. */
  lemma BreakdownRemaining(cart: seq<CartLine>, ps: seq<Program>, sel: Selections)
    ensures var (secs, rem) := Breakdown(cart, ps, sel);
      forall it :: it in rem ==> exists l :: l in cart && Unclaimed(l, secs, it)
    ensures var (secs, rem) := Breakdown(cart, ps, sel);
      forall l :: l in cart && TriggerUse(secs, l.barcode) + RewardUse(secs, l.barcode) < l.quantity ==>
        exists it :: it in rem && Unclaimed(l, secs, it)
    ensures var (secs, rem) := Breakdown(cart, ps, sel);
      rem == UnclaimedParts(cart, secs)
  {
    FinalInv(cart, ps, sel);
    RemainingAgainstUse(cart, FinalPass(cart, ps, sel));
    RemainingIsUnclaimedParts(cart, FinalPass(cart, ps, sel));
  }

  // ---------------------------------------------------------------------
  // How one program's turn behaves

  /** A buy-X-get-Y program emits for the first reward barcode that yields a
      set, with the greatest number of sets that fits, and for no other. */
  lemma {:induction false} BxgyScanPicksFirst(p: Program, idx: map<string, CartLine>, t: CartLine, trigAvail: nat,
                                              rewards: seq<string>, st: Pass, k: nat)
    requires k < |rewards| && RewardSets(p, idx, st, trigAvail, rewards[k]) > 0
    requires forall j :: 0 <= j < k ==> RewardSets(p, idx, st, trigAvail, rewards[j]) == 0
    ensures BxgyScan(p, idx, t, trigAvail, rewards, st) ==
            Emit(st, BxgySection(p, t, idx[rewards[k]], RewardSets(p, idx, st, trigAvail, rewards[k])))
  {
    if k > 0 {
      assert RewardSets(p, idx, st, trigAvail, rewards[0]) == 0;
      BxgyScanPicksFirst(p, idx, t, trigAvail, rewards[1..], st, k - 1);
    }
  }

  /** A buy-X-get-Y program none of whose rewards yields a set changes nothing. */
  lemma {:induction false} BxgyScanNone(p: Program, idx: map<string, CartLine>, t: CartLine, trigAvail: nat,
                                        rewards: seq<string>, st: Pass)
    requires forall j :: 0 <= j < |rewards| ==> RewardSets(p, idx, st, trigAvail, rewards[j]) == 0
    ensures BxgyScan(p, idx, t, trigAvail, rewards, st) == st
  {
    if |rewards| > 0 {
      BxgyScanNone(p, idx, t, trigAvail, rewards[1..], st);
    }
  }

  /** A program that finds no ready trigger barcode changes nothing. */
  lemma ApplyWithoutTrigger(p: Program, idx: map<string, CartLine>, st: Pass)
    requires forall t :: t in p.triggers ==> !TriggerReady(idx, st, t, MinQty(p))
    ensures ApplyProgram(p, idx, st) == st
  {
  }
}

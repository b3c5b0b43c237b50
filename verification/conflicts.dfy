/** Conflict detection between buy-X-get-Y programs that share a trigger
    barcode, the pruning of stale selections after every cart change, the
    write performed when the cashier picks a program, and the gate that
    refuses payment while a conflict has no selection. */
module Conflicts {
  import opened Common
  import opened Cart
  import opened Loyalty

  /** A trigger barcode in the cart with at least `minQty` units. */
  predicate Qualifies(idx: map<string, CartLine>, t: string, minQty: nat)
  {
    t in idx && idx[t].quantity >= minQty
  }

  /** The first listed trigger barcode that qualifies. */
  function QualifyingTrigger(triggers: seq<string>, idx: map<string, CartLine>, minQty: nat): (r: Option<string>)
    ensures r.Some? ==> r.value in triggers && Qualifies(idx, r.value, minQty)
    ensures r.Some? ==> exists i :: 0 <= i < |triggers| && triggers[i] == r.value &&
                                    forall j :: 0 <= j < i ==> !Qualifies(idx, triggers[j], minQty)
    ensures r.None? ==> forall t :: t in triggers ==> !Qualifies(idx, t, minQty)
  {
    if |triggers| == 0 then None
    else if Qualifies(idx, triggers[0], minQty) then
      assert triggers[0] == triggers[0];
      Some(triggers[0])
    else
      var r := QualifyingTrigger(triggers[1..], idx, minQty);
      if r.Some? then
        var i :| 0 <= i < |triggers[1..]| && triggers[1..][i] == r.value &&
                 forall j :: 0 <= j < i ==> !Qualifies(idx, triggers[1..][j], minQty);
        assert triggers[i + 1] == r.value;
        assert forall j :: 0 <= j < i + 1 ==> !Qualifies(idx, triggers[j], minQty) by {
          forall j | 0 <= j < i + 1 ensures !Qualifies(idx, triggers[j], minQty) {
            if j > 0 { assert triggers[j] == triggers[1..][j - 1]; }
          }
        }
        r
      else r
  }

  /** `rewardBarcodes.filter(rb => cartMap[rb] && cartMap[rb].quantity > 0)`. */
  function RewardsInCart(rewards: seq<string>, idx: map<string, CartLine>): (r: seq<string>)
    ensures forall rb :: rb in r <==> rb in rewards && QtyIn(idx, rb) > 0
    ensures |r| <= |rewards|
  {
    if |rewards| == 0 then []
    else if QtyIn(idx, rewards[0]) > 0 then [rewards[0]] + RewardsInCart(rewards[1..], idx)
    else RewardsInCart(rewards[1..], idx)
  }

  /** A program that could fire on this cart, under the trigger it would use. */
  datatype Candidate = Candidate(program: Program, trigger: string, rewardsInCart: seq<string>)

  /** The per-program test of the detector: active buy-X-get-Y with both lists
      non-empty, a qualifying trigger, and at least one reward in the cart. */
  function CandidateOf(p: Program, idx: map<string, CartLine>): (r: Option<Candidate>)
    ensures r.Some? <==>
      p.active && p.kind == BuyXGetY && |p.triggers| > 0 && |p.rewards| > 0 &&
      QualifyingTrigger(p.triggers, idx, MinQty(p)).Some? &&
      (exists rb :: rb in p.rewards && QtyIn(idx, rb) > 0)
    ensures r.Some? ==> r.value.program == p && Qualifies(idx, r.value.trigger, MinQty(p)) &&
                        r.value.trigger == QualifyingTrigger(p.triggers, idx, MinQty(p)).value &&
                        r.value.rewardsInCart == RewardsInCart(p.rewards, idx)
  {
    if !p.active || p.kind != BuyXGetY || |p.triggers| == 0 || |p.rewards| == 0 then None
    else match QualifyingTrigger(p.triggers, idx, MinQty(p))
      case None => None
      case Some(t) =>
        var inCart := RewardsInCart(p.rewards, idx);
        if |inCart| == 0 then None
        else
          assert inCart[0] in inCart;
          Some(Candidate(p, t, inCart))
  }

  /** The candidates, in catalog order. */
  function Candidates(ps: seq<Program>, idx: map<string, CartLine>): (r: seq<Candidate>)
    ensures forall c :: c in r ==> c.program in ps && CandidateOf(c.program, idx) == Some(c)
    ensures forall p :: p in ps && CandidateOf(p, idx).Some? ==> CandidateOf(p, idx).value in r
  {
    if |ps| == 0 then []
    else match CandidateOf(ps[0], idx)
      case None => Candidates(ps[1..], idx)
      case Some(c) => [c] + Candidates(ps[1..], idx)
  }

  /** The trigger barcode of every candidate, with repeats. */
  function TriggersOf(cands: seq<Candidate>): (r: seq<string>)
    ensures |r| == |cands|
    ensures forall i :: 0 <= i < |cands| ==> r[i] == cands[i].trigger
  {
    seq(|cands|, i requires 0 <= i < |cands| => cands[i].trigger)
  }

  /** The distinct trigger barcodes of the candidates, in first-seen order
      (the insertion order of the `triggerGroups` object). */
  function TriggerKeys(cands: seq<Candidate>): (r: seq<string>)
    ensures forall i, j :: 0 <= i < j < |r| ==> r[i] != r[j]
    ensures forall t :: t in r <==> t in TriggersOf(cands)
  {
    if |cands| == 0 then []
    else
      var front := cands[..|cands| - 1];
      var keys := TriggerKeys(front);
      var t := cands[|cands| - 1].trigger;
      assert TriggersOf(cands) == TriggersOf(front) + [t];
      if t in keys then keys else keys + [t]
  }

  /** `triggerGroups[key]`: the candidates filed under one trigger barcode. */
  function GroupOf(cands: seq<Candidate>, key: string): (r: seq<Candidate>)
    ensures forall c :: c in r <==> c in cands && c.trigger == key
    ensures |r| <= |cands|
  {
    if |cands| == 0 then []
    else if cands[0].trigger == key then [cands[0]] + GroupOf(cands[1..], key)
    else GroupOf(cands[1..], key)
  }

  /** One choice offered to the cashier. */
  datatype ConflictOption = ConflictOption(programId: string, programName: string,
                                           rewardProducts: seq<string>, potentialSavings: real)

  /** A trigger barcode claimed by two or more programs. */
  datatype Conflict = Conflict(key: string, triggerName: string, options: seq<ConflictOption>)

  /** `potentialSavings`: for each reward barcode in the cart, its unit price
      times the program's reward units per set, summed left to right. */
  function Savings(rewardsInCart: seq<string>, idx: map<string, CartLine>, perSet: nat): real
  {
    if |rewardsInCart| == 0 then 0.0
    else
      var price := if rewardsInCart[0] in idx then idx[rewardsInCart[0]].price else 0.0;
      price * perSet as real + Savings(rewardsInCart[1..], idx, perSet)
  }

  /** Sum of the unit prices of the listed barcodes. */
  function PriceSum(bs: seq<string>, idx: map<string, CartLine>): real
  {
    if |bs| == 0 then 0.0
    else (if bs[0] in idx then idx[bs[0]].price else 0.0) + PriceSum(bs[1..], idx)
  }

  /** The savings shown for an option are the reward units per set times the
      combined unit price of the program's rewards in the cart. */
  lemma {:induction false} SavingsFactor(rewardsInCart: seq<string>, idx: map<string, CartLine>, perSet: nat)
    ensures Savings(rewardsInCart, idx, perSet) == perSet as real * PriceSum(rewardsInCart, idx)
  {
    if |rewardsInCart| > 0 {
      SavingsFactor(rewardsInCart[1..], idx, perSet);
    }
  }

  function OptionOf(c: Candidate, idx: map<string, CartLine>): ConflictOption
  {
    ConflictOption(c.program.id, c.program.name, c.rewardsInCart,
                   Savings(c.rewardsInCart, idx, RewardQty(c.program)))
  }

  function OptionsOf(group: seq<Candidate>, idx: map<string, CartLine>): (r: seq<ConflictOption>)
    ensures |r| == |group|
    ensures forall i :: 0 <= i < |group| ==> r[i] == OptionOf(group[i], idx)
  {
    seq(|group|, i requires 0 <= i < |group| => OptionOf(group[i], idx))
  }

  /** The trigger barcodes filed under by two or more candidates. */
  function ClashingKeys(keys: seq<string>, cands: seq<Candidate>): (r: seq<string>)
    ensures forall k :: k in r <==> k in keys && |GroupOf(cands, k)| > 1
    ensures (forall i, j :: 0 <= i < j < |keys| ==> keys[i] != keys[j]) ==>
            forall i, j :: 0 <= i < j < |r| ==> r[i] != r[j]
  {
    if |keys| == 0 then []
    else if |GroupOf(cands, keys[0])| > 1 then
      var rest := ClashingKeys(keys[1..], cands);
      assert (forall i, j :: 0 <= i < j < |keys| ==> keys[i] != keys[j]) ==> keys[0] !in rest by {
        if keys[0] in rest {
          var j :| 0 <= j < |keys[1..]| && keys[1..][j] == keys[0];
          assert keys[j + 1] == keys[0];
        }
      }
      [keys[0]] + rest
    else ClashingKeys(keys[1..], cands)
  }

  /** The conflict keys, in order. */
  function KeysOf(conflicts: seq<Conflict>): (r: seq<string>)
    ensures |r| == |conflicts|
    ensures forall i :: 0 <= i < |conflicts| ==> r[i] == conflicts[i].key
  {
    seq(|conflicts|, i requires 0 <= i < |conflicts| => conflicts[i].key)
  }

  function NameOf(idx: map<string, CartLine>, b: string): string
  {
    if b in idx then idx[b].name else ""
  }

  /** `detectConflicts(cart)`: one conflict per trigger barcode that two or
      more candidate programs would use, its options those programs in
      catalog order. */
  function DetectConflicts(ps: seq<Program>, cart: seq<CartLine>): (r: seq<Conflict>)
    ensures forall i, j :: 0 <= i < j < |r| ==> r[i].key != r[j].key
    ensures forall k :: k in KeysOf(r) <==> |GroupOf(Candidates(ps, CartIndex(cart)), k)| >= 2
    ensures forall i :: 0 <= i < |r| ==> |r[i].options| >= 2
    ensures forall i :: 0 <= i < |r| ==>
      r[i].options == OptionsOf(GroupOf(Candidates(ps, CartIndex(cart)), r[i].key), CartIndex(cart))
  {
    var idx := CartIndex(cart);
    var cands := Candidates(ps, idx);
    var keys := ClashingKeys(TriggerKeys(cands), cands);
    var r := seq(|keys|, i requires 0 <= i < |keys| =>
                 Conflict(keys[i], NameOf(idx, keys[i]), OptionsOf(GroupOf(cands, keys[i]), idx)));
    assert KeysOf(r) == keys;
    ClashingKeysExact(cands);
    r
  }

  /** The clashing keys are exactly the triggers filed under by two or more
      candidates, each once. */
  lemma ClashingKeysExact(cands: seq<Candidate>)
    ensures var keys := ClashingKeys(TriggerKeys(cands), cands);
            (forall i, j :: 0 <= i < j < |keys| ==> keys[i] != keys[j]) &&
            forall k :: k in keys <==> |GroupOf(cands, k)| >= 2
  {
    var keys := ClashingKeys(TriggerKeys(cands), cands);
    forall k | |GroupOf(cands, k)| >= 2 ensures k in keys {
      var g := GroupOf(cands, k);
      assert g[0] in g;
      var i :| 0 <= i < |cands| && cands[i] == g[0];
      assert TriggersOf(cands)[i] == k;
    }
  }

  /** An option is an active buy-X-get-Y program of the catalog with
      non-empty trigger and reward lists, whose first qualifying trigger is
      `key` and which has a reward barcode in the cart; its savings are summed
      over exactly those rewards (see `SavingsFactor` for the closed form). */
  ghost predicate OptionFromProgram(ps: seq<Program>, idx: map<string, CartLine>, key: string, o: ConflictOption)
  {
    exists p :: p in ps && p.id == o.programId && p.name == o.programName &&
                p.active && p.kind == BuyXGetY && |p.triggers| > 0 && |p.rewards| > 0 &&
                QualifyingTrigger(p.triggers, idx, MinQty(p)) == Some(key) &&
                o.rewardProducts == RewardsInCart(p.rewards, idx) && |o.rewardProducts| > 0 &&
                o.potentialSavings == Savings(o.rewardProducts, idx, RewardQty(p))
  }

  lemma GroupOptionFromProgram(ps: seq<Program>, idx: map<string, CartLine>, key: string, j: nat)
    requires j < |GroupOf(Candidates(ps, idx), key)|
    ensures OptionFromProgram(ps, idx, key, OptionsOf(GroupOf(Candidates(ps, idx), key), idx)[j])
  {
    var group := GroupOf(Candidates(ps, idx), key);
    var cand := group[j];
    assert cand in group;
    var p := cand.program;
    assert CandidateOf(p, idx) == Some(cand);
    assert |cand.rewardsInCart| > 0;
    assert OptionsOf(group, idx)[j] == OptionOf(cand, idx);
  }

  /** Every option of every detected conflict comes from a qualifying
      buy-X-get-Y program filed under that conflict's key. */
  lemma ConflictOptionsAreBuyXGetY(ps: seq<Program>, cart: seq<CartLine>, i: nat, j: nat)
    requires i < |DetectConflicts(ps, cart)| && j < |DetectConflicts(ps, cart)[i].options|
    ensures OptionFromProgram(ps, CartIndex(cart), DetectConflicts(ps, cart)[i].key,
                              DetectConflicts(ps, cart)[i].options[j])
  {
    var c := DetectConflicts(ps, cart)[i];
    GroupOptionFromProgram(ps, CartIndex(cart), c.key, j);
  }

  /** Percentage-discount programs play no part in conflict detection. */
  lemma {:induction false} DiscountProgramsIgnored(ps: seq<Program>, cart: seq<CartLine>)
    ensures DetectConflicts(ps, cart) == DetectConflicts(OfKind(ps, BuyXGetY), cart)
  {
    CandidatesOfKind(ps, CartIndex(cart));
  }

  lemma {:induction false} CandidatesOfKind(ps: seq<Program>, idx: map<string, CartLine>)
    ensures Candidates(ps, idx) == Candidates(OfKind(ps, BuyXGetY), idx)
  {
    if |ps| > 0 {
      CandidatesOfKind(ps[1..], idx);
      if ps[0].kind == BuyXGetY {
        assert OfKind(ps, BuyXGetY) == [ps[0]] + OfKind(ps[1..], BuyXGetY);
        assert OfKind(ps, BuyXGetY)[1..] == OfKind(ps[1..], BuyXGetY);
      }
    }
  }

  // ---------------------------------------------------------------------
  // Selection store

  /** The option list of `c` contains program `id` (`options.find`). */
  predicate OfferedBy(c: Conflict, id: string)
  {
    exists o :: o in c.options && o.programId == id
  }

  predicate IsConflictKey(conflicts: seq<Conflict>, k: string)
  {
    k in KeysOf(conflicts)
  }

  /** A stored choice that survives the validity loop: empty (falsy, so the
      loop never tests it) or offered by every conflict filed under the key. */
  predicate ValidChoice(conflicts: seq<Conflict>, k: string, id: string)
  {
    id == "" || forall c :: c in conflicts && c.key == k ==> OfferedBy(c, id)
  }

  /** The validity loop: delete a truthy selection none of whose conflict's
      options carries that program id. */
  function DropInvalid(cleaned: Selections, conflicts: seq<Conflict>): (r: Selections)
    ensures forall k :: k in r <==> k in cleaned && ValidChoice(conflicts, k, cleaned[k])
    ensures forall k :: k in r ==> r[k] == cleaned[k]
  {
    if |conflicts| == 0 then cleaned
    else
      var c := conflicts[0];
      var next := if c.key in cleaned && cleaned[c.key] != "" && !OfferedBy(c, cleaned[c.key])
                  then cleaned - {c.key} else cleaned;
      var r := DropInvalid(next, conflicts[1..]);
      assert forall k :: k in r <==> k in cleaned && ValidChoice(conflicts, k, cleaned[k]) by {
        forall k ensures k in r <==> k in cleaned && ValidChoice(conflicts, k, cleaned[k]) {
          if k in cleaned && ValidChoice(conflicts, k, cleaned[k]) {
            assert k in next;
          }
          if k in r && cleaned[k] != "" {
            forall d | d in conflicts && d.key == k ensures OfferedBy(d, cleaned[k]) {
              if d != c { assert d in conflicts[1..]; }
            }
          }
        }
      }
      r
  }

  /** The pruning effect run after every cart change: an empty cart clears
      every selection; otherwise a selection is kept only when its key is a
      current conflict and its program is one of that conflict's options. */
  function PruneSelections(ps: seq<Program>, cart: seq<CartLine>, sel: Selections): (r: Selections)
    ensures |cart| == 0 ==> r == map[]
    ensures |cart| > 0 ==> forall k :: k in r <==>
      k in sel && IsConflictKey(DetectConflicts(ps, cart), k) && ValidChoice(DetectConflicts(ps, cart), k, sel[k])
    ensures forall k :: k in r ==> k in sel && r[k] == sel[k]
  {
    if |cart| == 0 then map[]
    else
      var conflicts := DetectConflicts(ps, cart);
      var cleaned := map k | k in sel && IsConflictKey(conflicts, k) :: sel[k];
      DropInvalid(cleaned, conflicts)
  }

  /** Pruning twice changes nothing more than pruning once. */
  lemma PruneIdempotent(ps: seq<Program>, cart: seq<CartLine>, sel: Selections)
    ensures PruneSelections(ps, cart, PruneSelections(ps, cart, sel)) == PruneSelections(ps, cart, sel)
  {
    var r := PruneSelections(ps, cart, sel);
    var r2 := PruneSelections(ps, cart, r);
    if |cart| > 0 {
      forall k ensures k in r2 <==> k in r {
        if k in r {
          assert r[k] == sel[k];
        }
      }
      SameMaps(r2, r);
    }
  }

  lemma SameMaps(a: Selections, b: Selections)
    requires forall k :: k in a <==> k in b
    requires forall k :: k in a ==> a[k] == b[k]
    ensures a == b
  {
  }

  /** The first conflict without a (truthy) selection: the one whose dialog
      opens next. `hasUnresolvedConflicts` runs the same loop. */
  function PendingConflict(conflicts: seq<Conflict>, sel: Selections): (r: Option<Conflict>)
    ensures r.Some? ==> r.value in conflicts && !Chosen(sel, r.value.key)
    ensures r.Some? ==> exists i :: 0 <= i < |conflicts| && conflicts[i] == r.value &&
                                    forall j :: 0 <= j < i ==> Chosen(sel, conflicts[j].key)
    ensures r.None? <==> forall c :: c in conflicts ==> Chosen(sel, c.key)
  {
    if |conflicts| == 0 then None
    else if !Chosen(sel, conflicts[0].key) then
      assert conflicts[0] == conflicts[0];
      Some(conflicts[0])
    else
      var r := PendingConflict(conflicts[1..], sel);
      assert forall c :: c in conflicts <==> c == conflicts[0] || c in conflicts[1..];
      if r.Some? then
        var i :| 0 <= i < |conflicts[1..]| && conflicts[1..][i] == r.value &&
                 forall j :: 0 <= j < i ==> Chosen(sel, conflicts[1..][j].key);
        assert conflicts[i + 1] == r.value;
        assert forall j :: 0 <= j < i + 1 ==> Chosen(sel, conflicts[j].key) by {
          forall j | 0 <= j < i + 1 ensures Chosen(sel, conflicts[j].key) {
            if j > 0 { assert conflicts[j] == conflicts[1..][j - 1]; }
          }
        }
        r
      else r
  }

  /** `hasUnresolvedConflicts()`: some current conflict has no selection. */
  function HasUnresolvedConflicts(ps: seq<Program>, cart: seq<CartLine>, sel: Selections): (r: bool)
    ensures r <==> exists c :: c in DetectConflicts(ps, cart) && !Chosen(sel, c.key)
  {
    PendingConflict(DetectConflicts(ps, cart), sel).Some?
  }

  /** `handleConflictSelect`: store the choice under the conflict key, then
      report which conflict (if any) still needs a dialog. */
  function HandleConflictSelect(ps: seq<Program>, cart: seq<CartLine>, sel: Selections,
                                key: string, id: string): (r: (Selections, Option<Conflict>))
    ensures key in r.0 && r.0[key] == id
    ensures forall k :: k != key ==> (k in r.0 <==> k in sel) && (k in sel ==> r.0[k] == sel[k])
    ensures r.1.Some? ==> r.1.value in DetectConflicts(ps, cart) && !Chosen(r.0, r.1.value.key)
    ensures r.1.None? <==> !HasUnresolvedConflicts(ps, cart, r.0)
  {
    var next := sel[key := id];
    (next, PendingConflict(DetectConflicts(ps, cart), next))
  }

  /** After pruning a non-empty cart's selections, a conflict is unresolved
      exactly when the cashier has not chosen one of its own options. */
  lemma UnresolvedAfterPrune(ps: seq<Program>, cart: seq<CartLine>, sel: Selections)
    requires |cart| > 0
    ensures HasUnresolvedConflicts(ps, cart, PruneSelections(ps, cart, sel)) <==>
      exists c :: c in DetectConflicts(ps, cart) &&
                  !(Chosen(sel, c.key) && ValidChoice(DetectConflicts(ps, cart), c.key, sel[c.key]))
  {
    var conflicts := DetectConflicts(ps, cart);
    var pruned := PruneSelections(ps, cart, sel);
    forall c | c in conflicts
      ensures Chosen(pruned, c.key) <==> Chosen(sel, c.key) && ValidChoice(conflicts, c.key, sel[c.key])
    {
      assert IsConflictKey(conflicts, c.key);
    }
  }
}

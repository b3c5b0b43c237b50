# Point-of-sale promotions engine — a Dafny model

This project models the pricing core of a point-of-sale web client for a
Saudi retail shop. The parts modelled are:

- **The cart.** Add a product, change a line's quantity by a delta, remove a barcode.
- **The loyalty engine of the cashier screen.**
  - Conflict detection between buy-X-get-Y programs that share a trigger product.
  - The cashier's stored choices per conflict, and pruning of stale ones.
  - The allocation pass that turns the cart into promotion sections and remaining items.
  - Totals with per-barcode VAT.
  - The checkout and payment gates.
  - The promotion annotation of the submitted order.
  - Conflict detection, choice pruning, the allocation pass and the totals appear twice in the repository, once in `src/apCust.js` and once in `src/oldApp.js`, with the same logic. They are modelled once and both files are cited. The gates and the order annotation come from `src/apCust.js` alone: `src/oldApp.js` has no VAT-number gate, checks out from a button handler (src/oldApp.js:672-682), and sends only barcode and quantity per order line (src/oldApp.js:468).
- **The older calculator in `src/App.js`.** Per cart line it collects the applicable BOGO loyalties and percentage or fixed-amount promotions, then computes discount and tax.
- **The return screen.** Selecting an order, ticking lines (a promotion group all at once), typing a return quantity, the refund totals with 15% VAT, and the return request.
- **The receipt's ZATCA QR payload.** The seller name, VAT number, timestamp, total and VAT are written as tag-length-value records, in hex. The code then reads them back into bytes. The receipt header figures (paid, change, invoice title, "Other Items" header) are modelled too.
- **The products table.** Search filter, ten-row pages, Previous/Next buttons and the stock badge.

Conventions:

- Money is `real` and quantities are `nat`.
- A field that JavaScript reads as `x || default` is modelled with the default written out. Examples: a missing barcode or name is `""`, a missing rate or discount is `0`, and `minQuantity || 1` becomes `MinQty`.
- Stored selections are a `map<string, string>`. A key counts as chosen when it is present with a non-empty value.
- Everything is pure functions over immutable datatypes. The one exception is the hex-to-byte loop, which is a method with a loop invariant.
- I/O, React state, timers, printing and the network are not modelled. The current selections and catalog come in as parameters.

Modules:

| file | module | models |
|---|---|---|
| common.dfy | Common | `Option`, `counter[k] \|\| 0` counters, clamps |
| text.dfy | Text | `trim`, ASCII `toLowerCase`, `includes` |
| cart.dfy | Cart | cart lines and the three cart operations |
| loyalty.dfy | Loyalty | programs, selections, the `cartMap` index, sections |
| conflicts.dfy | Conflicts | `detectConflicts`, pruning, `handleConflictSelect`, `hasUnresolvedConflicts` |
| allocation.dfy | Allocation | `calculateLoyaltyBreakdown` |
| allocation_facts.dfy | AllocationFacts | the invariant of the allocation pass and its consequences |
| totals.dfy | Totals | `calculateTotals`, checkout and payment gates, order annotation |
| legacy_promotions.dfy | LegacyPromotions | `getApplicablePromotions` and `calculateTotals` of `src/App.js` |
| returns.dfy | Returns | the return screen |
| receipt_qr.dfy | ReceiptQr | the QR TLV payload and receipt header |
| products_table.dfy | ProductsTable | filter, pagination, stock badge |

## Model

| member | source | states |
|---|---|---|
| Text.TrimEmptyIffBlank | public/src/components/ReturnPOS.js:144 | `trim()` leaves nothing exactly when every character is whitespace |
| Text.IncludesIffOccurs | src/components/ProductsTable.js:129 | the left-to-right `includes` scan succeeds exactly when the needle occurs at some position |
| Cart.AddToCart | src/apCust.js:799-805 | an existing barcode gains one unit on its own line and every other line is unchanged; a new barcode is appended with quantity 1; barcodes stay unique (same code at src/oldApp.js:87-93 and src/App.js:289-301) |
| Cart.AddToCartQty | src/App.js:289-301 | on a cart with unique barcodes, adding a product raises that barcode's total quantity by exactly one and leaves every other barcode's total unchanged |
| Cart.UpdateQuantity | src/apCust.js:807-809 | no line of the result has quantity 0 or less; lines of other barcodes are kept as they were, and only empty lines disappear; other barcodes' totals are unchanged |
| Cart.UpdateQuantityQty | src/oldApp.js:95-97 | with unique barcodes, the updated barcode's total becomes max(0, old + delta), or stays 0 when it was absent |
| Cart.DropEmpty | src/App.js:303-313 | the filter removes exactly the zero-quantity lines and keeps every barcode's total |
| Cart.RemoveFromCart | src/apCust.js:811 | exactly the lines of that barcode go; its total becomes 0, every other total is unchanged, and uniqueness is kept (same code at src/oldApp.js:99 and src/App.js:315-317) |
| Cart.RemoveFromCartAppend | src/apCust.js:811 | removal distributes over concatenation, so the surviving lines keep their cart order |
| Cart.DropEmptyAppend | src/App.js:303-313 | the empty-line filter distributes over concatenation, so the kept lines keep their cart order |
| Cart.UpdateQuantityAppend | src/apCust.js:807-809 | a quantity change distributes over concatenation, so the lines keep their cart order |
| Loyalty.MinQty | src/apCust.js:823 | `minQuantity \|\| 1`: always at least 1, and equal to the stored value whenever that is positive |
| Loyalty.RewardQty | src/apCust.js:843 | `rewardQuantity \|\| 1`: always at least 1, and equal to the stored value whenever that is positive |
| Loyalty.CartIndexLast | src/apCust.js:814-815 | the `cartMap` entry for a barcode is the last cart line with that barcode |
| Loyalty.CartIndexUnique | src/apCust.js:904 | on a cart with unique barcodes, `cartMap` maps each barcode to its own line |
| Loyalty.OfKindMembers | src/apCust.js:920 | selecting one type keeps exactly the programs of that type: a program is selected iff it is listed and has that type |
| Conflicts.QualifyingTrigger | src/apCust.js:825-829 | the chosen trigger is the first listed barcode whose cart quantity reaches `minQty`; none is chosen only when no listed barcode qualifies |
| Conflicts.RewardsInCart | src/apCust.js:831 | keeps exactly the reward barcodes with positive cart quantity |
| Conflicts.CandidateOf | src/apCust.js:818-834 | a program enters a trigger group exactly when it is active, buy-X-get-Y, has trigger and reward lists, has a qualifying trigger and has some reward in the cart |
| Conflicts.Candidates | src/apCust.js:818-835 | every candidate comes from the program list, and every program that qualifies is a candidate |
| Conflicts.TriggerKeys | src/apCust.js:838 | the group keys are distinct and are exactly the candidates' triggers |
| Conflicts.GroupOf | src/apCust.js:839 | a group holds exactly the candidates filed under that trigger |
| Conflicts.SavingsFactor | src/apCust.js:843-844 | `potentialSavings` is the reward quantity per set times the sum of the in-cart reward prices |
| Conflicts.ClashingKeys | src/apCust.js:840 | keeps exactly the keys whose group has more than one program |
| Conflicts.DetectConflicts | src/apCust.js:813-855 | the conflict keys are distinct; a key is reported exactly when two or more programs are grouped under it; every conflict offers at least two options, one per grouped program |
| Conflicts.ConflictOptionsAreBuyXGetY | src/apCust.js:842-850 | every option of a reported conflict comes from an active buy-X-get-Y program of that group, with that program's id, name and savings |
| Conflicts.DiscountProgramsIgnored | src/oldApp.js:101-113 | adding or removing percent-discount programs never changes the reported conflicts |
| Conflicts.DropInvalid | src/apCust.js:865-871 | a chosen key survives exactly when its value is the id of one of that conflict's options, and it keeps that value |
| Conflicts.PruneSelections | src/apCust.js:857-872 | an empty cart clears every selection; otherwise a selection survives exactly when its key is a current conflict and its value names one of that conflict's options |
| Conflicts.PruneIdempotent | src/oldApp.js:187-213 | pruning a pruned selection store changes nothing |
| Conflicts.PendingConflict | src/apCust.js:874-878 | the conflict shown is the first one without a choice; none is shown only when every conflict has one |
| Conflicts.HasUnresolvedConflicts | src/apCust.js:893-900 | true exactly when some current conflict has no choice |
| Conflicts.HandleConflictSelect | src/apCust.js:881-891 | records the chosen id under the key and leaves every other selection alone; it re-opens a conflict exactly when one is still unresolved |
| Conflicts.UnresolvedAfterPrune | src/apCust.js:857-879 | after pruning, a conflict counts as resolved exactly when it was chosen before and the choice names one of its options |
| Allocation.FirstSelectedTrigger | src/apCust.js:910-916 | finds the first trigger barcode that has a stored choice; none only when no trigger has one |
| Allocation.ActivePrograms | src/apCust.js:908-918 | a program is applied only if it is active, and if its first trigger with a stored choice names it; this holds for discount programs too |
| Allocation.Prioritised | src/apCust.js:920 | the sort is a permutation that puts every buy-X-get-Y program before every discount program and keeps the relative order within each type |
| Allocation.OfKindAppend | src/oldApp.js:270 | selecting one type distributes over concatenation, which is why the sort keeps the order within a type |
| Allocation.SetsForFits | src/apCust.js:951-954 | the sets granted never use more trigger units or reward units than are available, and never exceed `maxQuantity` when that is positive |
| Allocation.SetsForMaximal | src/oldApp.js:310-322 | one more set would overrun the trigger units, the reward units or the `maxQuantity` cap (0 means unlimited) |
| Allocation.FindTrigger | src/apCust.js:933-940 | the trigger used is the first listed barcode whose unconsumed quantity reaches `minQty`; none when no listed barcode does |
| Allocation.RemainingItems | src/apCust.js:998-1004 | every remaining item has a positive quantity and is the leftover of a cart line, qty − min(qty, usedT + usedR); every line with a positive leftover is listed |
| Allocation.RemainingItemsAppend | src/apCust.js:998-1004 | the remainder of a cart split in two is the remainder of the first part followed by that of the second: lines are visited in cart order, one entry at most per line |
| AllocationFacts.BxgyMeaning | src/apCust.js:956-963 | a buy-X-get-Y section granting `n` sets has `n × minQuantity` trigger units and `n × rewardQuantity` reward units, all free at a reward line total of 0; its subtotal is the trigger line total and its discount is free units × reward price |
| AllocationFacts.DiscountMeaning | src/apCust.js:983-990 | a discount section granting `n` sets has `n × minQuantity` trigger units and `n × rewardQuantity` reward units; it discounts `price × qty × pct / 100` of the reward line and its subtotal is trigger total + reward total − discount |
| AllocationFacts.SectionMeaning | src/oldApp.js:326-353 | every emitted section takes its prices from the cart and grants `n = trigger units / minQuantity` sets with 1 ≤ n (and n ≤ `maxQuantity` when that is positive), trigger units `n × minQuantity` and reward units `n × rewardQuantity`, with the per-type figures above |
| AllocationFacts.DiscountSectionBounds | src/apCust.js:985-990 | for a percentage in [0, 100] and non-negative prices, the discount lies between 0 and the reward line total, and the section subtotal is non-negative |
| AllocationFacts.EmitKeeps | src/apCust.js:958-966 | emitting a section keeps the pass invariant: the counters equal the sums over emitted sections, reward use stays within cart quantity, buy-X-get-Y sections come first, and rewarded barcodes are marked |
| AllocationFacts.BxgyScanKeeps | src/apCust.js:946-968 | a buy-X-get-Y program emits at most one section, appended after the earlier ones |
| AllocationFacts.BxgyScanPicksFirst | src/oldApp.js:302-359 | the section goes to the first reward barcode that yields a positive number of sets |
| AllocationFacts.BxgyScanNone | src/apCust.js:955 | when no reward barcode yields a set, nothing is emitted |
| AllocationFacts.DiscountScanKeeps | src/apCust.js:969-994 | the discount loop keeps the pass invariant; it skips barcodes rewarded by buy-X-get-Y programs |
| AllocationFacts.ApplyKeeps | src/apCust.js:925-996 | each program's turn keeps the pass invariant |
| AllocationFacts.RunKeeps | src/apCust.js:925 | the whole pass over the sorted programs keeps the invariant |
| AllocationFacts.FinalInv | src/apCust.js:902-1007 | the breakdown's final state satisfies the pass invariant |
| AllocationFacts.BreakdownSections | src/apCust.js:908-996 | every section comes from an active, admitted program of the list, built from cart lines; buy-X-get-Y sections precede discount sections |
| AllocationFacts.BreakdownRewards | src/apCust.js:949-983 | the units rewarded for a barcode never exceed its cart quantity, and no barcode is rewarded by both a buy-X-get-Y section and a discount section |
| AllocationFacts.BreakdownRemaining | src/oldApp.js:426-432 | every remaining item is a cart line's quantity less what the sections used on it, positive and at most the line's quantity; every line not fully used appears; the list is, in cart order, exactly each line's units left unclaimed by the emitted sections |
| AllocationFacts.RemainingIsUnclaimedParts | src/apCust.js:998-1004 | when the counters equal the sums over the emitted sections, the leftovers computed from the counters are the cart lines' unclaimed units, line by line in cart order |
| Totals.TotalsOf | src/apCust.js:1009-1030 | the subtotal is the sections' gross plus the remaining items' subtotals and the discount is the sum of section discounts; the tax is the clamped per-barcode nets times each barcode's cart rate; when each section's discount is its reward discount, subtotal − discount equals the sum of the per-barcode nets; with non-negative cart rates the tax is non-negative; total = subtotal − discount + tax |
| Totals.CalculateTotals | src/apCust.js:1008-1030 | on the breakdown of a cart, the tax is non-negative when the cart's rates are, and total = subtotal − discount + tax |
| Totals.NetBase | src/apCust.js:1011-1027 | when each section's discount is its reward discount, the per-barcode nets add up to the sections' gross plus the remaining subtotals minus the section discounts |
| Totals.CartTaxNonNegative | src/apCust.js:1028 | clamping each net at 0 and taxing it at a non-negative cart rate gives a non-negative tax |
| Totals.NetKeys | src/apCust.js:1022-1028 | the taxed barcodes are distinct and are exactly those with an entry |
| Totals.SectionEntriesAmount | src/apCust.js:1023-1026 | the per-barcode entries of the sections add up to their gross minus the reward discounts |
| Totals.NetsPartition | src/oldApp.js:449-455 | summing the per-barcode nets over the distinct barcodes gives the sum of all entries: nothing is counted twice or lost |
| Totals.NetsAreDiscountedSubtotal | src/apCust.js:1011-1027 | the per-barcode nets add up to subtotal − total discount |
| Totals.TaxNonNegative | src/oldApp.js:455 | with non-negative tax rates the tax is never negative, because each net is clamped at 0 |
| Totals.TaxUniform | src/apCust.js:1028 | when every barcode has the same rate and a non-negative net, the tax is that rate times the sum of the nets |
| Totals.CheckoutGate | src/apCust.js:1035-1039 | checkout proceeds exactly when the cart is non-empty and every current conflict has a choice; an empty cart is refused with "Cart is empty" |
| Totals.VatNameGate | src/apCust.js:1042 | payment is refused exactly when a non-blank VAT number comes without a customer name |
| Totals.PaymentMatchesCheckout | src/apCust.js:1047 | payment is allowed exactly when checkout is |
| Totals.OrderItems | src/apCust.js:1050-1060 | one order line per cart line, in cart order, with its barcode, quantity and price |
| Totals.LastMention | src/apCust.js:1054 | finds the last section whose trigger or reward is the barcode |
| Totals.LastReward | src/apCust.js:1056 | finds the last section whose reward is the barcode |
| Totals.NoteFoldIsLast | src/apCust.js:1053-1058 | the annotation fold equals the reference: the name of the last mentioning section, and the flag and discount of the last rewarding section; nothing is summed |
| Totals.OrderItemsFromLastSection | src/apCust.js:1050-1060 | each order line's promotion name, reward flag and discount come from the last matching section of the breakdown |
| LegacyPromotions.BogoOfferIff | src/App.js:321-333 | a BOGO loyalty is recorded exactly when it is typed BOGO, targets the item's barcode or category (or neither), has a `buyQuantity` of at least 1 and a full set is in the line (a missing `buyQuantity` records nothing); it then gives `floor(qty / buyQuantity) × freeQuantity` free items |
| LegacyPromotions.BogoOffers | src/App.js:320-335 | every qualifying BOGO loyalty is recorded, every entry is of BOGO type, and there are no more entries than loyalties |
| LegacyPromotions.BogoOffersSound | src/App.js:320-335 | every recorded BOGO entry is the entry of some loyalty of the list |
| LegacyPromotions.PromotionOffers | src/App.js:337-345 | lists exactly the promotions that target the item, with their type, name and value |
| LegacyPromotions.DiscountOfBounds | src/App.js:362-370 | a fixed amount never exceeds the item subtotal; a percentage in [0, 100] of a non-negative subtotal stays within it; other types take nothing off |
| LegacyPromotions.UndiscountedLine | src/App.js:318-375 | a line gets no promotion entry exactly when no BOGO loyalty gives it a full set and no promotion targets it; then its discount and free items are 0 and its tax is price × quantity × rate |
| LegacyPromotions.BogoOnlyFree | src/App.js:320-363 | on a line no promotion targets, the free items are Σ floor(qty / buyQuantity) × freeQuantity over the BOGO loyalties that target it with a full set |
| LegacyPromotions.BogoOnlyDiscount | src/App.js:356-364 | on a line no promotion targets, the discount is the free items times the unit price |
| LegacyPromotions.BogoOffersFree | src/App.js:320-335 | the free items of the recorded BOGO entries add up to the catalog's count of free units for the line |
| LegacyPromotions.CalculateLegacyTotals | src/App.js:350-393 | one detail per cart line; the subtotal is Σ price × quantity over the cart, whatever the promotions; tax and discount are the sums over lines; total = subtotal − discount + tax; only BOGO loyalties that target a line with units constrain `buyQuantity`, so a catalog of other loyalty types is always accepted |
| LegacyPromotions.UniformRateTax | src/App.js:373-379 | when every line is taxed at the same rate, the summed tax is that rate times (subtotal − discount) |
| LegacyPromotions.LegacyTotalsAtUniformRate | src/App.js:373-391 | on a cart with one tax rate, total tax = rate × (subtotal − discount) and total = (subtotal − discount) × (1 + rate) |
| Returns.SelectOrder | public/src/components/ReturnPOS.js:83-92 | every line of the chosen order starts unticked with return quantity 0 |
| Returns.FindId | public/src/components/ReturnPOS.js:108 | finds the first line carrying the id |
| Returns.ToggleItemReturn | public/src/components/ReturnPOS.js:94-126 | lines keep their order data; outside a promotion group only the clicked line flips, to its full quantity or 0 |
| Returns.GroupFoldSets | public/src/components/ReturnPOS.js:106-113 | with distinct ids, the group loop sets exactly the lines carrying the promotion name |
| Returns.ToggleGroup | public/src/components/ReturnPOS.js:99-115 | toggling a line in a group of two or more with a non-blank name gives every member the same new state, with its full quantity or 0; other lines are untouched |
| Returns.UpdateReturnQty | public/src/components/ReturnPOS.js:128-134 | the quantity is clamped to [0, \|sold\|], typed values in range are kept, the line is ticked exactly when the quantity is positive, and other lines are untouched |
| Returns.OperationsStayWithinSold | public/src/components/ReturnPOS.js:94-134 | toggling and typing never ask to return more than was sold |
| Returns.Selected | public/src/components/ReturnPOS.js:232 | keeps exactly the ticked lines with a positive return quantity |
| Returns.DiscountTermsAgree | public/src/components/ReturnPOS.js:153-156 | the request's per-item discount equals the totals' term for any non-negative stored discount; a negative discount goes into the request but not into the totals |
| Returns.ProportionalDiscount | public/src/components/ReturnPOS.js:242-247 | a full return refunds exactly the original discount, a partial one refunds between 0 and it, and a line with quantity 0 refunds none |
| Returns.CalculateReturnTotal | public/src/components/ReturnPOS.js:231-256 | the refund sums the selected lines; VAT is 15% of (subtotal − discount); total = (subtotal − discount) × 1.15 |
| Returns.RefundDiscountBounded | public/src/components/ReturnPOS.js:236-248 | with non-negative discounts, the refunded discount is between 0 and the lines' original discounts |
| Returns.ProcessReturn | public/src/components/ReturnPOS.js:136-166 | refused exactly when nothing is selected or the reason is blank; otherwise one request item per selected line, with its return quantity and proportional discount |
| Returns.RequestMatchesReceipt | public/src/components/ReturnPOS.js:150-198 | with non-negative stored discounts, the request's discounts add up to the discount printed on the return receipt |
| ReceiptQr.Hex2Width | src/components/receiptPrinter.js:68-69 | a value below 256 takes exactly two hex digits, and any larger value takes more |
| ReceiptQr.ToHex | src/components/receiptPrinter.js:68 | the output is hex, two digits per character for one-byte characters |
| ReceiptQr.TlvLength | src/components/receiptPrinter.js:69 | a record whose tag, length and characters fit in a byte is 4 + 2·\|value\| hex digits |
| ReceiptQr.SellerName | src/components/receiptPrinter.js:70 | `companyNameEn \|\| companyName`: the English name unless it is empty |
| ReceiptQr.HexToBytes | src/components/receiptPrinter.js:71 | the byte loop reads each pair of hex digits as one byte, and a dangling last digit on its own |
| ReceiptQr.DecodeAppend | src/components/receiptPrinter.js:70-71 | decoding an even-length prefix and the rest separately gives the same bytes as decoding the whole |
| ReceiptQr.Hex2RoundTrip | src/components/receiptPrinter.js:68-71 | decoding a byte's two hex digits gives the byte back |
| ReceiptQr.ToHexRoundTrip | src/components/receiptPrinter.js:68-71 | the byte loop inverts `toHex`: the bytes are the character codes |
| ReceiptQr.TlvBytes | src/components/receiptPrinter.js:69-71 | a record decodes to its tag byte, its length byte and its value's character codes |
| ReceiptQr.RecordsRoundTrip | src/components/receiptPrinter.js:69-71 | consecutive records read back as exactly their fields, in order |
| ReceiptQr.PayloadRoundTrip | src/components/receiptPrinter.js:69-71 | the QR payload reads back as exactly five fields, tags 1–5, holding seller name, VAT number, timestamp, total and VAT byte for byte |
| ReceiptQr.Head | src/components/receiptPrinter.js:59-65 | paid is the amount paid, or the total when none is given; without an explicit change the change is max(0, paid − total); the title is "Tax Invoice" exactly when the VAT number is non-blank; the "Other Items" header is shown exactly when there are sections and remaining items (src/components/receiptPrinter.js:104-105) |
| ProductsTable.Filter | src/components/ProductsTable.js:127-132 | keeps exactly the products whose lower-cased name or category contains the lower-cased search, or whose barcode contains the search as typed |
| ProductsTable.FilterAppend | src/components/ProductsTable.js:127 | filtering keeps catalog order: filtering a concatenation filters each part in place |
| ProductsTable.FilterEmptySearch | src/components/ProductsTable.js:127-132 | an empty search lists the whole catalog |
| ProductsTable.TotalPages | src/components/ProductsTable.js:134 | ceil(n / 10): zero only for no products, and (pages − 1)·10 < n ≤ pages·10 |
| ProductsTable.PageOf | src/components/ProductsTable.js:135-136 | a page holds at most ten products, the ones at positions (page − 1)·10 onward; it is non-empty exactly up to the last page |
| ProductsTable.PagesPartition | src/components/ProductsTable.js:134-136 | the pages read in order give back the filtered list whole |
| ProductsTable.FirstPagesPrefix | src/components/ProductsTable.js:135-136 | the first k pages are the first min(10k, n) products |
| ProductsTable.OnSearch | src/components/ProductsTable.js:152-155 | a new search goes back to page 1 |
| ProductsTable.SearchShowsFirstPage | src/components/ProductsTable.js:152-155 | after a new search the table shows the first ten matches |
| ProductsTable.Previous | src/components/ProductsTable.js:219 | one page back, never below 1 |
| ProductsTable.Next | src/components/ProductsTable.js:233 | one page on, never beyond the last page |
| ProductsTable.ButtonsStayInRange | src/components/ProductsTable.js:219-233 | from a page in [1, totalPages] both buttons stay in range, and each leaves the page alone exactly at its own end |
| ProductsTable.StockStyle | src/components/ProductsTable.js:138-142 | out of stock at 0 or below, low from 1 to 10, in stock above 10 |

## Left out

- Rendering, modals, toasts, timers, printing, the customer display window and all network calls are left out. They are display or I/O. The breakdown takes the current selections as a parameter instead of reading React state.
- Parsing of `triggerProductIds`/`rewardProductIds` (split on commas, trim, drop empties) is left out. Programs carry the parsed barcode lists.
- `loyalty.id || loyalty.name` is one `id` field.
- Floating-point arithmetic and `toFixed` rounding are left out: money is exact `real`. `parseFloat(discountPercent) || 0` is a `real` field.
- `toLowerCase` is modelled for ASCII letters only. `trim` is modelled for the common whitespace characters, not every Unicode space.
- Program types other than 0 and 1 are not represented. The source skips them in the allocation pass.
- Conflicts.DetectConflicts: lists conflicts in the first-insertion order of their trigger barcodes. JavaScript enumerates integer-like object keys first, in ascending numeric order, and only then the other keys in insertion order. Integer-like means all digits, no leading zero, below 2^32 − 1, and a numeric barcode such as "6281000000123" is not below that bound, but an eight-digit EAN-8 code or a short in-store code such as "1001" is. When two trigger barcodes of that kind conflict, the source lists them in numeric order (src/apCust.js:838). Conflicts.PendingConflict, and the conflict HandleConflictSelect opens next, then follow that order (src/apCust.js:874-878), and the model can pick a different first unresolved conflict. The per-barcode nets of Totals.NetKeys keep first-insertion order too; the tax is a sum over distinct barcodes, so that order does not change it.
- Loyalty.MinQty: models `minQuantity || 1` and `rewardQuantity || 1` as written, instead of assuming stored quantities of at least 1, so a 0 in the catalog behaves as the code makes it behave.
- AllocationFacts.BreakdownRemaining: does not claim trigger-plus-reward units used ≤ cart quantity per barcode. The code does not guarantee it: trigger availability ignores reward use, and the discount loop reuses one `triggerAvailable` for every reward barcode. Only reward use per barcode is bounded (BreakdownRewards), and remaining quantities are kept positive by the clamp.
- Totals.TaxUniform: the model has no single lemma stating total = (subtotal − discount) × (1 + rate) for a uniform-rate cart in the loyalty engine. It follows from TaxUniform with NetsAreDiscountedSubtotal and NetsPartition, which are stated separately.
- LegacyPromotions.BogoOffer: requires a `buyQuantity` other than 0 only of a BOGO loyalty that targets a line with units in it (`DividesSafely`). There the source divides a positive quantity by zero and records `Infinity` free items, which no natural number carries. Loyalties of other types, and loyalties that do not target the line, are never divided by and are unconstrained. A missing `buyQuantity` gives `NaN` sets in the source, which records no entry, and the model records none.
- A promotion (not a loyalty) whose `discountType` is `'BOGO'` is left out. The source would add an undefined `freeItems` and produce `NaN`. The model's third discount type takes nothing off.
- In the older calculator, a missing `category` on both loyalty and item compares equal in the source (`undefined === undefined`). It is modelled by treating a missing category as `""`; a `null` on one side and `undefined` on the other is not distinguished.
- Returns.ToggleGroup: assumes distinct order-line ids. With duplicate ids, the source's `findIndex` would update the first line with that id instead of the group member. The model's `ToggleItemReturn` keeps that behaviour, but the group property is stated only for distinct ids.
- `item.product?.barcode || item.productName` is modelled by an order line whose missing product barcode is `""`.
- The return request's other fields (payment method, notes, customer data, order number) are left out. The return receipt object is left out as well.
- ReceiptQr.TlvLength: stated only for tags, lengths and character codes below 256. Larger ones break the fixed two-digit width (Hex2Width shows this); the source uses UTF-16 code units for the length and the characters.
- The timestamp (`toISOString`) and the amounts (`toFixed(2)`) reach the QR payload as already-formatted strings. The final `btoa` base64 step is not modelled.
- The Arabic invoice titles are left out; only the English titles are modelled, and they are chosen by the same test.
- A current page left beyond the last page after the catalog prop shrinks is not specially modelled. The page simply comes out empty, as the slice does.

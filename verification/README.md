# SokoWise: the books and the protocols around them

A Dafny model of the shop back end's hard core, with proofs about every run of it.

SokoWise keeps two append-only ledgers, stock movements and customer credit entries. Each has a
cached total on the row it belongs to. Sales, voids, repayments, receipts and M-Pesa messages write
to both. The model follows the services branch by branch. It proves what holds in every reachable
state and in every interleaving of the protocols that span several transactions.

Check the project with `dafny verify dfyconfig.toml`.

## How it is laid out

| module | what it holds |
|---|---|
| `Prelude`, `SaleRecords` | shared vocabulary: faults, sums over ledgers, sale rows |
| `Money`, `Decimal`, `Text` | cents, the discount split, the form's decimal strings, M-Pesa codes |
| `Inventory`, `Credit`, `DebtAgeing` | the two ledgers, their caches, recompute, first-in-first-out debt ageing |
| `MpesaLinks` | pasted messages and their links to tenders and repayments |
| `Shop` | one state holding both ledgers, sales and messages; every operation as a function; runs |
| `ShopInvariant`, `ShopRuns`, `ShopTheorems`, `MpesaTheorems` | what every run keeps and what that means |
| `SaleConditions`, `Outcomes` | when each operation is accepted, and what it then writes in the request's own terms |
| `ShopService` | the services as methods on tables, with loops and rollback, proved equal to `Shop` |
| `MessageRepayments` | recording a message as a repayment: the read and the transaction apart |
| `Concurrency`, `ConcurrencyFrames`, `ConcurrencyInvariant`, `ConcurrencyTheorems` | keyed requests interleaved step by step over the whole shop |
| `LockOrder` | row locks of concurrent transactions |
| `Copilot`, `CopilotShop`, `CopilotDesk` | proposals confirmed across two transactions: the protocol, the protocol over the shop, its methods |
| `Scenarios`, `ConcurrentScenarios` | concrete runs from the empty shop |
| `Receipts`, `ReceiptTheorems`, `ReceiptOutcomes`, `ReceiptDesk` | the receipt lifecycle with extractions in flight |
| `RefreshTokens`, `RateLimiter` | token families, the sliding-window limiter |
| `Analytics`, `Timeseries`, `ReportFigures`, `Export` | reports that must agree with each other and with the table, and the keyset export |

Conventions:

- Money is whole cents and quantities are whole thousandths.
- Rows are numbered in the order they were recorded.
- One `transaction` block is one step that commits whole or changes nothing
  (`backend/app/db/session.py:59-74`). Where a protocol spans several transactions, each one is an
  event and runs are sequences of events, so every interleaving is covered.
- Digests and derived keys are treated as injective.
- Clocks, expiry, extraction results and account states are parameters of the events.
- Recursive specification functions such as `SellItems(.., n, ..)` describe the first `n` rounds of
  a loop. The methods use them as loop invariants.

## Where the code does less than one might expect

- An applied stock recompute restores cache = ledger everywhere exactly when no untracked product
  was corrupted (`Inventory.RepairRestores`, `Inventory.UntrackedCorruptionSurvives`).
- CANCELLED is not a final receipt state. It is final exactly when no extraction of the receipt is
  running (`ReceiptTheorems.CancelledIsFinalIff`, `ReceiptTheorems.CancelledThenConfirmed`).
- A void can leave an UNMATCHED message beside an unlinked record with its code, exactly when
  another record carried the code too (`MpesaTheorems.NoOrphansEverIff`, `Scenarios.VoidCanOrphan`).
- A message may be matched to a tender after "record as a repayment" has read it; the repayment is
  posted all the same and stays unlinked (`MessageRepayments.LinkedIffStillUnmatched`,
  `Scenarios.MatchedBetweenReadAndRepayment`).
- A request whose key another request has just committed may be refused where a replay is due: rows
  are locked before the key is looked up again. An answer differs from that of the whole operation at
  that moment exactly when a row refuses the request while its key is taken
  (`ConcurrencyTheorems.AnsweredAtomicallyIff`, `ConcurrentScenarios.DuplicateRefused`).
- A copilot record can exist although its proposal ends REJECTED (`Scenarios.RejectedWithSale`). It
  cannot if there was none at the rejection and no confirm was on its way
  (`CopilotShop.RejectedStaysClean`); a confirm on its way leaves one exactly when the shop accepts its
  request (`CopilotShop.ServedAfterRejectionIff`). Where the protocol leaves acceptance open, the first
  condition is exact (`Copilot.RejectedStaysCleanIff`).
- The form and the server round a negative tie differently, and agree everywhere else
  (`Decimal.LineAgreesWithServer`, `Decimal.NegativeTieDisagrees`).
- SQL `trim` and Python `strip` spell a code alike exactly when nothing but blanks surrounds it, so
  always on stripped references, which is how the schemas store them (`Text.CodesAgreeIff`,
  `Text.StoredCodesAgree`).
- A receipt confirmation locks products in line order. It can deadlock with a sale exactly when that
  order is not ascending (`LockOrder.ConfirmationSafeIff`).
- A CREDIT sale to a customer who has overpaid is refused while the new balance would still be
  negative: `post_entry` guards charges too (`backend/app/services/credit.py:107-115`). The exact
  condition is part of `SaleConditions.SaleAcceptedIff`; `Scenarios.CreditRefusedAfterOverpayment` is a run.

## Model

| member | source | states |
|---|---|---|
| `Money.LineTotal` | backend/app/services/money.py:8-14 | a line total is within half a cent of quantity times price, ties rounded up |
| `Money.FewerLeftoverThanFractions` | backend/app/services/money.py:34-39 | fewer cents are left over than there are lines with a fractional share |
| `Money.LeftoverGoesToFractions` | backend/app/services/money.py:36-39 | a line that receives a leftover cent has a fractional share |
| `Money.AllocationSum` | backend/app/services/money.py:17-40 | the split adds up to the discount to the cent |
| `Money.AllocationShare` | backend/app/services/money.py:17-40 | each line gets the floor or ceiling of its exact share, at most its total, and nothing if its total is zero |
| `Money.AllocationMonotone` | backend/app/services/money.py:34-40 | a strictly larger line never gets less than a smaller one |
| `Money.LargestRemainderFirst` | backend/app/services/money.py:34-40 | a leftover cent goes to a larger fraction before a smaller one, and of two equal fractions to the earlier line |
| `Money.ExactShare` | backend/app/services/money.py:29-39 | a line whose share is a whole number of cents gets just that |
| `Money.AllocateDiscount` | backend/app/services/money.py:17-40 | the loop that floors the shares and hands out the leftover cents computes that split, and refuses exactly a discount above a positive subtotal |
| `Text.StoredCodesAgree` | backend/app/services/mpesa.py:491-495 | on stored references the SQL and the Python spelling of a code are the same |
| `Text.CodesAgreeIff` | backend/app/repositories/mpesa.py:25-27 | the SQL and the Python spelling of any reference agree iff nothing but blanks surrounds its text |
| `Text.UnstrippedCodesDiffer` | backend/app/services/mpesa.py:491-495 | a tab in front of any code is enough to tell them apart |
| `Text.TypingDoesNotMatter` | backend/app/services/mpesa.py:491-495 | however a code is typed, in either case and with any white space around it, it is read as that code |
| `Text.CodesStayApart` | backend/app/services/mpesa.py:491-495 | different codes never share a spelling |
| `Decimal.PrintThenRead` | frontend/src/lib/decimal.ts:8-22 | what is printed reads back as the same amount, for every integer |
| `Decimal.ReadForm` | frontend/src/lib/decimal.ts:8-15 | a sign, a whole part and two digits read as the amount they spell |
| `Decimal.ReadSpelling` | frontend/src/lib/decimal.ts:8-15 | a sign, digits and up to two decimals, with spaces around them, read as the amount they spell |
| `Decimal.SpellingOf` | frontend/src/lib/decimal.ts:8-15 | every accepted string is such a spelling |
| `Decimal.AcceptedIff` | frontend/src/lib/decimal.ts:8-15 | a string is accepted iff it is an optional minus, digits, and at most two decimals, once trimmed |
| `Decimal.TwelveAndAHalf` | frontend/src/lib/decimal.ts:8-22 | "12.5" reads as 1250 cents and prints as "12.50" |
| `Decimal.Reprinting` | frontend/src/lib/decimal.ts:8-22 | re-printing any accepted string is canonical and keeps its value |
| `Decimal.ReadThenPrint` | frontend/src/lib/decimal.ts:8-22 | a canonical string is accepted and printed back unchanged |
| `Decimal.LineAgreesWithServer` | frontend/src/lib/decimal.ts:25-31 | the form's line amount equals the server's half-up rounding exactly when it is no negative tie, so always for prices from zero up |
| `Decimal.TypedLineAgreesWithServer` | frontend/src/lib/decimal.ts:25-31 | the same for the typed strings: accepted iff both parse, and then equal to the server's amount iff it is no negative tie |
| `Decimal.NegativeTieDisagrees` | frontend/src/lib/decimal.ts:25-31 | a concrete negative tie on which they differ |
| `Inventory.ApplyMovementKeepsInv` | backend/app/services/inventory.py:52-96 | a movement keeps cache = ledger, running balances never negative, and movements only on tracked products |
| `Inventory.PrefixNeverNegative` | backend/app/services/inventory.py:65-96 | at no point of its history was a product's stock negative |
| `Inventory.LastAfterIsLedger` | backend/app/services/inventory.py:73-96 | the last `quantity_after` of a product is the sum of its movements |
| `Inventory.StockPromises` | backend/app/services/inventory.py:52-96 | cache = ledger = last running balance, no negative prefix, untracked products at zero without movements |
| `Inventory.RestockKeepsInv` | backend/app/services/inventory.py:141-182 | a restock with its optional cost update keeps the stock invariant |
| `Inventory.CreateProductKeepsInv` | backend/app/services/products.py:158-193 | creation with or without opening stock keeps the stock invariant |
| `Inventory.UpdateProductKeepsInv` | backend/app/services/products.py:196-227 | the tracking switch keeps it: a product with movements never becomes untracked |
| `Inventory.RepairRestores` | backend/app/services/inventory.py:309-354 | from any caches, an applied recompute restores cache = ledger iff no untracked cache was wrong; a second one finds nothing and changes nothing |
| `Inventory.UntrackedCorruptionSurvives` | backend/app/services/inventory.py:320-325 | a corrupted untracked product stays corrupted |
| `Inventory.NothingToRepair` | backend/app/services/inventory.py:309-354 | in a reachable state a recompute reports and changes nothing |
| `Inventory.FindingsExact` | backend/app/services/inventory.py:326-350 | the report names exactly the listed products whose cache is wrong, with both figures |
| `Inventory.FindingsInOrder` | backend/app/services/inventory.py:319-350 | the report is in ascending id order, each product once |
| `Credit.PostEntryKeepsInv` | backend/app/services/credit.py:82-133 | an entry keeps balance = ledger, `balance_after` = prefix sum, unique keys and signs by kind |
| `Credit.RecordKeepsInv` | backend/app/services/credit.py:181-312 | repayments and adjustments, replayed or posted, keep it |
| `Credit.RecordOutcome` | backend/app/services/credit.py:107-133 | a new request is posted iff its customer exists, it moves the balance, and leaves it at zero or more unless overpayment is allowed; it moves that balance and no other |
| `Credit.RecordTwice` | backend/app/services/credit.py:149-164 | a keyed request retried answers with the first entry and changes nothing |
| `Credit.RepairRestores` | backend/app/services/credit.py:404-452 | from any balances, an applied recompute restores them all; it changes nothing iff they were right |
| `Credit.FindingsExact` | backend/app/services/credit.py:425-449 | the report names exactly the customers whose balance is wrong, with both figures |
| `Credit.FindingsInOrder` | backend/app/services/credit.py:418-449 | the report is in ascending id order, each customer once |
| `DebtAgeing.WindowIsPrefix` | backend/app/repositories/credit.py:98-118 | the window sum at a charge is the sum of the charges up to it in time order |
| `DebtAgeing.QueryIsPayOff` | backend/app/repositories/credit.py:91-149 | the running-sum query returns the date that pouring all payments into the charges, oldest first, finds |
| `DebtAgeing.DateIffOwing` | backend/app/repositories/credit.py:91-149 | a date is found exactly for customers with a balance above zero |
| `ShopTheorems.DebtorsHaveDates` | backend/app/repositories/credit.py:91-149 | in every run, for any dating of the ledger rows, the cached balance is above zero iff the query finds a date, and it is the pay-off's date |
| `MpesaLinks.FindTender` | backend/app/repositories/mpesa.py:85-112 | the first recorded unlinked M-Pesa tender of a COMPLETED sale carrying the code, or none exists |
| `MpesaLinks.FindRepayment` | backend/app/repositories/mpesa.py:115-134 | the first recorded unlinked M-Pesa repayment carrying the code, or none exists |
| `MpesaLinks.UpdatesHitAtMostOneRow` | backend/app/repositories/mpesa.py:219-269 | the two UPDATEs with `one_or_none` never meet a second row |
| `MpesaLinks.LinkByCodeKeepsInv` | backend/app/repositories/mpesa.py:219-247 | linking by code keeps the links one-to-one and valid |
| `MpesaLinks.UnlinkKeepsInv` | backend/app/repositories/mpesa.py:250-269 | unlinking keeps them and leaves the tender unlinked |
| `MpesaLinks.PasteKeepsInv` | backend/app/services/mpesa.py:98-191 | a paste keeps them, whatever was read |
| `MpesaLinks.PasteOutcome` | backend/app/services/mpesa.py:122-177 | a known code adds nothing; a new one is linked to a tender iff an unlinked one carries it, else to a repayment iff one does, else waits |
| `MpesaLinks.MatchKeepsInv` | backend/app/services/mpesa.py:225-267 | a manual match keeps them |
| `MpesaLinks.IgnoreKeepsInv` | backend/app/services/mpesa.py:302-335 | ignoring keeps them |
| `MpesaLinks.LinkTendersKeepsInv` | backend/app/services/sales.py:312-323 | the hooks of a new sale keep them, tender by tender |
| `MpesaLinks.VoidKeepsInv` | backend/app/services/sales.py:489-494 | after a void no link points at the voided sale |
| `ShopInvariant.PricedSaleReconciles` | backend/app/services/sales.py:228-310 | tenders, lines less allocated discount, and subtotal less discount all give the total |
| `ShopInvariant.SellItemsSound` | backend/app/services/sales.py:325-337 | the sale's movements keep the stock invariant and all name the sale |
| `ShopInvariant.SellItemsTakesOut` | backend/app/services/sales.py:325-337 | exactly the sold quantity leaves each tracked product and nothing else changes |
| `ShopInvariant.ReverseMovementsSound` | backend/app/services/sales.py:452-467 | reversing the movements of a COMPLETED sale never fails |
| `ShopInvariant.ReverseMovementsPutBack` | backend/app/services/sales.py:454-467 | each reversal takes back what its movement took |
| `ShopInvariant.VoidNetsToZero` | backend/app/services/sales.py:452-467 | after the reversals the sale has moved nothing, product by product |
| `ShopInvariant.SaleKeepsCreditMatch` | backend/app/services/sales.py:339-351 | a sale and its charge keep every account equal to its credit tenders, adjustments and repayments |
| `ShopInvariant.VoidKeepsCreditMatch` | backend/app/services/sales.py:469-487 | so do a void and its reversal |
| `ShopRuns.RecordSaleKeepsInv` | backend/app/services/sales.py:265-351 | the rows of a sale keep the whole invariant |
| `ShopRuns.SellKeepsInv` | backend/app/services/sales.py:151-374 | a sale request, new or replayed, keeps it |
| `ShopRuns.VoidSucceeds` | backend/app/services/sales.py:443-488 | a COMPLETED sale of a reachable state can be voided, whatever happened since |
| `ShopRuns.VoidKeepsInv` | backend/app/services/sales.py:429-516 | a void keeps the whole invariant |
| `ShopRuns.RepaymentKeepsInv` | backend/app/services/credit.py:181-251 | a repayment and its link keep it |
| `ShopRuns.AdjustmentKeepsInv` | backend/app/services/credit.py:254-312 | an adjustment keeps it |
| `ShopRuns.StepKeepsInv` | backend/app/services/sales.py:206-516 | every one of the fifteen operations keeps it |
| `ShopRuns.EveryRunKeepsInv` | backend/app/services/sales.py:206-516 | it holds after every run from the empty shop |
| `ShopTheorems.BalancesInEveryRun` | backend/app/services/credit.py:107-133 | in every run a balance is the ledger sum, which is credit tenders of COMPLETED sales plus adjustments less repayments, and each `balance_after` is the prefix sum |
| `ShopTheorems.StockInEveryRun` | backend/app/services/inventory.py:65-96 | in every run stock is the ledger sum and the last running balance, never negative at any point, zero when untracked |
| `ShopTheorems.VoidCancels` | backend/app/services/sales.py:443-494 | a void succeeds, nets the sale to zero on both ledgers, gives each product and the customer back exactly what the sale took, and unlinks its messages |
| `ShopTheorems.VoidOnce` | backend/app/services/sales.py:443-450 | whatever happens after a void, the sale stays voided and a second void is refused |
| `ShopTheorems.VoidedForGood` | backend/app/services/sales.py:443-450 | a voided sale stays as it is in every continuation |
| `ShopTheorems.SaleTakesOut` | backend/app/services/sales.py:325-337 | a recorded sale takes its quantities out of tracked products and no others |
| `ShopTheorems.RecordedBalance` | backend/app/services/sales.py:339-351 | its credit tenders go onto the customer's balance and nobody else's |
| `ShopTheorems.NewSaleMoved` | backend/app/services/sales.py:325-337 | the movements of a new sale are the whole change in stock |
| `ShopTheorems.SaleThenVoid` | backend/app/services/sales.py:206-494 | a sale voided at once leaves every stock quantity and balance as it found them |
| `ShopTheorems.SaleRetried` | backend/app/services/sales.py:198-203 | a retry names the first sale and leaves stock, credit and messages alone |
| `ShopTheorems.LedgersAppendOnly` | backend/app/services/inventory.py:78-96 | no operation changes or removes a movement or a credit entry |
| `Outcomes.RefusedChangesNothing` | backend/app/db/session.py:59-74 | a refused operation changes nothing |
| `Outcomes.AddProductOutcome` | backend/app/services/products.py:158-193 | accepted iff the id is new and opening stock is tracked; exactly the product and its INITIAL movement are written |
| `Outcomes.EditProductOutcome` | backend/app/services/products.py:196-245 | tracking goes off only without stock and without history; the new fields are stored and the quantity stays |
| `Outcomes.RestockOutcome` | backend/app/services/inventory.py:141-182 | a restock adds its quantity with one movement and sets the product's cost iff asked to |
| `Outcomes.AdjustStockOutcome` | backend/app/services/inventory.py:194-218 | accepted iff the product is active and tracked and stock stays at zero or more; it moves by the signed delta |
| `Outcomes.InitialStockOutcome` | backend/app/services/inventory.py:221-251 | accepted iff the product never moved; it moves by the quantity |
| `Outcomes.PutCustomerOutcome` | backend/app/services/customers.py:53-66 | a new customer starts at zero with the given limit; saved again, its balance and every other account stay |
| `Outcomes.AdjustCreditOutcome` | backend/app/services/credit.py:254-312 | accepted iff the customer exists, the amount is not zero and the balance stays at zero or more; one ADJUSTMENT entry of the signed amount, that balance moved by it, nothing else |
| `Outcomes.RepayOutcome` | backend/app/services/credit.py:181-251 | accepted iff the customer exists and owes enough or overpayment is allowed; one REPAYMENT entry with its method and stripped reference, the balance lowered by the amount |
| `Outcomes.TakenKeyOutcome` | backend/app/services/credit.py:149-164 | a repayment under a taken key: the same payload changes nothing and another is refused |
| `Outcomes.TakenKeyAdjustment` | backend/app/services/credit.py:270-286 | the same for an adjustment |
| `Outcomes.TakenKeySale` | backend/app/services/sales.py:151-204 | a sale under a taken key names the first sale and changes nothing, or is refused for another payload |
| `Outcomes.NewSalePosts` | backend/app/services/sales.py:339-351 | a newly created sale posts exactly one CHARGE of its CREDIT tenders that names it, or nothing |
| `Outcomes.VoidPosts` | backend/app/services/sales.py:469-487 | a void posts exactly one REVERSAL of what the sale charged, or nothing |
| `Outcomes.VoidMirrors` | backend/app/services/sales.py:443-467 | in every run a void appends to the stock ledger the mirror image of each movement of the sale, in order, and nothing else |
| `Outcomes.MovementsOfIsFilter` | backend/app/services/sales.py:452-454 | the movements a void reverses are all of the sale's, once each, in posting order |
| `Outcomes.VoidUnlinksExactly` | backend/app/services/sales.py:489-494 | a void returns exactly the messages linked to the sale to UNMATCHED, code and amount kept |
| `SaleConditions.SellsIffCovered` | backend/app/services/sales.py:325-337 | item by item, stock runs out exactly when the items together ask more of some product than there is |
| `SaleConditions.SaleAcceptedIff` | backend/app/services/sales.py:214-351 | a new request is accepted iff it has lines and tenders and a customer for CREDIT, its date is allowed, its rows exist and are active, its tenders add up to its lines less the discount, its CREDIT tenders are within the limit or overridden, and the stock covers all its lines together; all sums are over the request itself |
| `SaleConditions.PricedFromRows` | backend/app/services/sales.py:228-303 | every line is priced and costed from its locked product row, quantity times price rounded half-up |
| `SaleConditions.SharesOwnDiscount` | backend/app/services/sales.py:228-253 | each line bears the floor or ceiling of its own share of the discount |
| `SaleConditions.TendersAreTheRequests` | backend/app/services/sales.py:255-309 | the recorded tenders are those of the request one by one, references stripped; customer, key and date are the request's |
| `SaleConditions.NewSaleRecordsRequest` | backend/app/services/sales.py:265-309 | every newly created sale is one new row that records its request: tenders, lines, prices, costs, shares of the discount, date |
| `SaleConditions.NewSaleMovesRequest` | backend/app/services/sales.py:325-351 | a newly created sale takes what the request's lines ask out of tracked products, puts the request's CREDIT tenders on its customer's balance, and changes no other quantity or balance |
| `SaleConditions.SaleMovementsExact` | backend/app/services/sales.py:325-337 | one SALE movement per tracked item, in order, with its product, quantity and cost, naming the sale |
| `SaleConditions.ReversalsMirror` | backend/app/services/sales.py:452-467 | one SALE_REVERSAL per SALE movement, in order, with the opposite quantity and the same cost |
| `Scenarios.CreditRefusedAfterOverpayment` | backend/app/services/credit.py:107-115 | a run from the empty shop in which a sale on credit to a customer who has overpaid is refused |
| `MpesaTheorems.LinksInEveryRun` | backend/app/services/mpesa.py:122-191 | in every run MATCHED means exactly one link, links are one-to-one and point at M-Pesa tenders of COMPLETED sales or M-Pesa repayments, and codes are unique |
| `MpesaTheorems.IgnoredIsFinal` | backend/app/services/mpesa.py:312-322 | an ignored message never changes again |
| `MpesaTheorems.NoOrphansWithoutVoids` | backend/app/services/mpesa.py:161-177 | without voids no UNMATCHED message coexists with an unlinked record carrying its code |
| `MpesaTheorems.VoidOrphansIff` | backend/app/services/sales.py:489-494 | a void keeps that exactly when no other unlinked record carries the code of a message it frees |
| `MpesaTheorems.NoOrphansEverIff` | backend/app/services/sales.py:489-494 | over every run: no such message ever exists iff every void of the run freed only messages no other record waited for |
| `Scenarios.VoidCanOrphan` | backend/app/services/sales.py:489-494 | a run from the empty shop, with two sales under one code and a void, that leaves such a message |
| `MpesaTheorems.PasteAndSaleCommute` | backend/app/services/mpesa.py:338-364 | paste-then-sale and sale-then-paste end with the same message and link |
| `MpesaTheorems.PasteAndRepaymentCommute` | backend/app/services/mpesa.py:338-364 | the same for a repayment |
| `Outcomes.MatchOutcome` | backend/app/services/mpesa.py:225-267 | accepted iff the message is UNMATCHED and the picked record is eligible and unlinked; that message is MATCHED to that record alone, its code and amount stay, and nothing else changes |
| `Outcomes.IgnoreOutcome` | backend/app/services/mpesa.py:302-335 | accepted iff the message is not MATCHED; it ends IGNORED and nothing else changes |
| `Outcomes.PasteUnreadOutcome` | backend/app/services/mpesa.py:98-121 | an unreadable text is kept as one UNPARSED message |
| `Outcomes.PasteCodeOutcome` | backend/app/services/mpesa.py:122-191 | a new code adds one message with its amount, linked to the first recorded waiting tender, else to the first waiting repayment, else UNMATCHED; a known code changes nothing |
| `Outcomes.SaleLinksExactly` | backend/app/services/sales.py:312-323 | the hooks of a sale link each UNMATCHED message to the first M-Pesa tender that spells its code and leave every other message alone |
| `Outcomes.NewSaleLinks` | backend/app/services/mpesa.py:338-364 | so every newly created sale does to each message exactly that |
| `Outcomes.RepayLinksExactly` | backend/app/services/mpesa.py:338-364 | an M-Pesa repayment links the UNMATCHED message its reference spells and no other |
| `Outcomes.LinksInEveryRun` | backend/app/repositories/mpesa.py:85-134 | in every run a MATCHED message has exactly one link, to an M-Pesa tender of a COMPLETED sale or to an M-Pesa repayment |
| `MessageRepayments.StepKeepsInv` | backend/app/services/mpesa.py:270-299 | every step keeps the shop's invariant, and each call asks for its message's amount under its message's code and key |
| `MessageRepayments.ReadOutcome` | backend/app/services/mpesa.py:270-297 | the request asks for the message's amount under its code with the derived key, exactly for an UNMATCHED message that has both |
| `MessageRepayments.RepayStep` | backend/app/services/mpesa.py:289-297 | what the repayment transaction does to ledger, balance and messages, for every state of the message |
| `MessageRepayments.LinkedIffStillUnmatched` | backend/app/services/mpesa.py:280-297 | in every run, with anything between the unlocked read and the transaction: the entry is linked to its message, and to no other, iff the message is still UNMATCHED then |
| `MessageRepayments.OneRepaymentPerMessage` | backend/app/services/mpesa.py:289-297 | in every run at most one repayment per M-Pesa message |
| `Scenarios.MatchedBetweenReadAndRepayment` | backend/app/services/mpesa.py:280-297 | a run from the empty shop that ends with a tender link and a repayment for one message |
| `ShopService.Database.ApplyMovement` | backend/app/services/inventory.py:52-96 | the update of cache and ledger, or the refusal that leaves both alone |
| `ShopService.Database.PostEntry` | backend/app/services/credit.py:82-133 | the same for balance and ledger |
| `ShopService.Database.LockProducts` | backend/app/services/sales.py:120-132 | succeeds exactly when every product of the request exists |
| `ShopService.Database.PriceLines` | backend/app/services/sales.py:228-240 | line totals from the locked rows, refused exactly when some product is archived |
| `ShopService.Database.PriceRequest` | backend/app/services/sales.py:214-297 | the checks in their order and the priced sale they lead to |
| `ShopService.Database.SellAll` | backend/app/services/sales.py:325-337 | the loop over items is the specified sequence of movements, or its first fault |
| `ShopService.Database.InsertSale` | backend/app/services/sales.py:265-351 | the rows of a sale, or the fault that rolls them back |
| `ShopService.Database.CreateSale` | backend/app/services/sales.py:151-351 | the whole request: replay, conflict, fault with rollback, or a new sale; keeps the invariant |
| `ShopService.Database.ReverseAll` | backend/app/services/sales.py:454-467 | the loop over movements is the specified sequence of reversals |
| `ShopService.Database.Void` | backend/app/services/sales.py:429-516 | succeeds exactly on a COMPLETED sale, does what the specification says, keeps the invariant |
| `ShopService.Database.Restock` | backend/app/services/inventory.py:141-191 | restock with optional cost update, or fault and no change |
| `ShopService.Database.AdjustStock` | backend/app/services/inventory.py:194-218 | signed correction, or fault and no change |
| `ShopService.Database.SetInitialStock` | backend/app/services/inventory.py:221-251 | first stock only, or fault and no change |
| `ShopService.Database.CreateProduct` | backend/app/services/products.py:158-193 | product and opening movement together or not at all |
| `ShopService.Database.UpdateProduct` | backend/app/services/products.py:196-245 | field update with the tracking guard |
| `ShopService.Database.RecordEntry` | backend/app/services/credit.py:196-214 | lock, replay or post |
| `ShopService.Database.Repay` | backend/app/services/credit.py:181-251 | repayment and link hook; keeps the invariant |
| `ShopService.Database.AdjustCredit` | backend/app/services/credit.py:254-312 | adjustment that never leaves a negative balance; keeps the invariant |
| `ShopService.Database.Paste` | backend/app/services/mpesa.py:98-191 | unread, known and new messages, linked to an earlier record if there is one |
| `ShopService.Database.MatchTo` | backend/app/services/mpesa.py:225-267 | manual match of an UNMATCHED message to an unlinked record |
| `ShopService.Database.Ignore` | backend/app/services/mpesa.py:302-335 | ignoring, idempotent, refused for a matched message |
| `ShopService.Database.RecomputeStock` | backend/app/services/inventory.py:309-354 | repairs every tracked cache or, on a dry run, nothing; reports exactly the discrepancies in id order |
| `ShopService.Database.RecomputeBalances` | backend/app/services/credit.py:404-452 | the same for balances |
| `ConcurrencyFrames.PriceFrame` | backend/app/services/sales.py:228-263 | the price of a sale depends on nothing but the rows it locks |
| `ConcurrencyFrames.CommitFrame` | backend/app/services/sales.py:265-351 | a commit changes no row the request does not lock |
| `ConcurrencyFrames.CommitIsOperation` | backend/app/services/sales.py:206-351 | committing a draft made under the locks does what the whole operation, run now at one stroke, would do |
| `ConcurrencyFrames.OtherFrame` | backend/app/services/sales.py:429-494 | every other operation changes only the rows it is said to touch and adds no key |
| `ConcurrencyInvariant.AdvanceKeepsInv` | backend/app/services/sales.py:159-227 | every step of every request keeps: the shop's invariant, exclusive locks, drafts that still hold, a winner behind every re-read, one author per row |
| `ConcurrencyInvariant.EveryRunKeepsInv` | backend/app/services/sales.py:159-227 | so does every interleaving of any number of sales, repayments and adjustments with failures and with everything else the shop does |
| `ConcurrencyTheorems.DraftStaysTrue` | backend/app/services/sales.py:214-263 | a sale priced under the locks is, until it commits, what pricing would give at that moment; likewise the balance an entry builds on |
| `ConcurrencyTheorems.AnswerIsAtomic` | backend/app/services/sales.py:206-227 | each answer, and the shop after it, are those of the whole operation at one stroke at that moment, iff it is not the case that a row refuses the request while its key is taken; a refusal at a row writes nothing and names a missing row or an archived customer |
| `ConcurrencyTheorems.AnsweredAtomicallyIff` | backend/app/services/sales.py:215-227 | the same in every run, and in the exceptional case a replay or a conflict was due and nothing is written |
| `ConcurrencyTheorems.LockFaultIsOperation` | backend/app/services/sales.py:120-148 | with the key free, what stops a request at a row stops the whole operation in the same way |
| `ConcurrentScenarios.DuplicateRefused` | backend/app/services/sales.py:215-227 | a run from the empty shop: two equal requests, the first commits, the customer is archived, the second is refused where a replay is due |
| `ConcurrencyTheorems.EveryRunIsSerial` | backend/app/models/sale.py:44 | the shop after any interleaving, with all its stock, credit and links, is the shop after the same operations one at a time |
| `ConcurrencyTheorems.ExactlyOnce` | backend/app/services/sales.py:159-203 | all successful answers for a key name its one row and share its payload; if the row is new exactly one request wrote it and was told so |
| `ConcurrencyTheorems.OneSetOfEffects` | backend/app/services/sales.py:159-203 | all requests sharing a key together change the shop once, by the stock movements and the charge of the one sale under the key, or never if the key was taken |
| `ConcurrencyTheorems.RefusedWritesNothing` | backend/app/services/sales.py:198-203 | a request not told that it wrote a row has at no step changed the shop |
| `ConcurrencyTheorems.ConflictHasCause` | backend/app/services/credit.py:196-251 | a conflict means the key is taken with another payload, by an older row or by another request of the run |
| `ConcurrencyTheorems.RereadFindsWinner` | backend/app/services/sales.py:168-186 | the re-read after a lost race always finds the row |
| `ConcurrencyTheorems.LocksAreProgram` | backend/app/services/sales.py:215-220 | the rows a request locks, then its key, are its program in the global lock order |
| `LockOrder.ProgramsInLockOrder` | backend/app/services/sales.py:120-132 | sales, voids, recomputes and single-row operations, and confirmations with ascending products, take their locks in one global order |
| `LockOrder.ProgramLocksExactly` | backend/app/services/sales.py:214-220 | each operation locks exactly its own products, customer, sale or receipt, and key |
| `LockOrder.LockedAtFirstLine` | backend/app/services/receipts.py:449-474 | a confirmation locks a product at the first line that names it |
| `LockOrder.EveryRunInLockOrder` | backend/app/services/sales.py:215-220 | so do all transactions of every such run |
| `LockOrder.NoWaitCycle` | backend/app/services/sales.py:444-475 | no set of them ever waits in a cycle |
| `LockOrder.SomeoneCanGoOn` | backend/app/services/inventory.py:321-325 | some transaction has its locks or can take the next one |
| `LockOrder.CollisionDeadlocks` | backend/app/services/receipts.py:450-468 | a confirmation that locks p before q with q < p has a run, with a sale of the two, that ends in a wait cycle |
| `LockOrder.ConfirmationSafeIff` | backend/app/services/receipts.py:450-468 | a confirmation beside any other operations is free of wait cycles iff its lines lock their products in ascending order |
| `Copilot.StepKeepsInv` | backend/app/services/ai_actions.py:73-182 | every step keeps: applied iff an entity is named, and the entity carries the key derived from the message |
| `Copilot.BeginOutcome` | backend/app/services/ai_actions.py:82-93 | a confirm starts exactly for a pending proposal that has not expired |
| `Copilot.MarkOutcome` | backend/app/services/ai_actions.py:177-194 | a served confirm marks its proposal APPLIED with the served row iff it is still pending and not expired |
| `Copilot.RejectOutcome` | backend/app/services/ai_actions.py:204-226 | a rejection marks exactly a pending, unexpired proposal and changes nothing else |
| `Copilot.OneRecordPerMessage` | backend/app/services/ai_actions.py:82-94 | a message has at most one record however confirms are retried, interleaved or cut off, and an applied message names it |
| `Copilot.RecordsNotShared` | backend/app/services/ai_actions.py:177-182 | two applied messages of one kind never name one record |
| `Copilot.SettledForGood` | backend/app/services/ai_actions.py:242-273 | an applied or rejected proposal never changes again |
| `Copilot.RetryFindsRecord` | backend/app/services/ai_actions.py:120-159 | a retry is served the existing record and writes nothing, or is refused for another payload |
| `Copilot.RejectedStaysCleanIff` | backend/app/services/ai_actions.py:204-226 | where acceptance by the services is left open: after an open proposal is rejected, no continuation without a foreign use of its key holds a record of it iff there is none at the rejection and no confirm has read it and is still to call the service |
| `Copilot.RejectedWithRecord` | backend/app/services/ai_actions.py:177-182 | a run that ends rejected although the record exists |
| `CopilotShop.CallIsSeen` | backend/app/services/ai_actions.py:94-159 | what a keyed service call does to the sales and entries: nothing, a replay, or one row under its key |
| `CopilotShop.ServeIsService` | backend/app/services/ai_actions.py:94-159 | a confirm hands the confirmed payload to the service unchanged, under the key derived from the message |
| `CopilotShop.BeginOutcome` | backend/app/services/ai_actions.py:82-93 | over the shop: a confirm starts exactly for an open proposal and a payload of its kind |
| `CopilotShop.MarkOutcome` | backend/app/services/ai_actions.py:177-194 | marking APPLIED touches the proposal and the confirm only |
| `CopilotShop.RejectOutcome` | backend/app/services/ai_actions.py:204-226 | rejecting touches the proposal only |
| `CopilotShop.EveryRunIsProtocolRun` | backend/app/services/ai_actions.py:73-182 | every run of the copilot over the whole shop is, seen from the two keyed tables, a run of the protocol |
| `CopilotShop.OneRecordPerMessage` | backend/app/services/ai_actions.py:82-94 | in every such run one message yields at most one sale or ledger entry, and an applied message names it |
| `CopilotShop.RejectedStaysClean` | backend/app/services/ai_actions.py:204-226 | over the shop: if a rejected proposal had no record and no confirm was on its way, no continuation in which nobody else sends its key holds a record of it |
| `CopilotShop.ServedAfterRejectionIff` | backend/app/services/ai_actions.py:94-159 | after such a rejection a confirm's service call leaves a record iff it had read this message before and the shop accepts its request |
| `CopilotShop.OtherKeyStaysUnused` | backend/app/services/sales.py:206-351 | no operation of the shop adds a row under a key it does not carry |
| `Scenarios.RejectedWithSale` | backend/app/services/ai_actions.py:177-182 | a run from the empty shop that ends with a rejected proposal and its sale on the books |
| `CopilotDesk.Desk.BeginConfirm` | backend/app/services/ai_actions.py:82-93 | starts a confirm exactly for an open proposal and a payload of its kind |
| `CopilotDesk.Desk.CallService` | backend/app/services/ai_actions.py:94-159 | the keyed service call is the step of the state machine |
| `CopilotDesk.Desk.MarkIt` | backend/app/services/ai_actions.py:177-194 | marks applied exactly when the call succeeded and the proposal is still open |
| `CopilotDesk.Desk.RejectIt` | backend/app/services/ai_actions.py:204-226 | rejects exactly an open proposal |
| `ReceiptTheorems.ConfirmLinesDecides` | backend/app/services/receipts.py:449-474 | each decided line names its own new RESTOCK movement with its product, quantity and cost; the others are skipped |
| `ReceiptTheorems.ConfirmLinesAdds` | backend/app/services/receipts.py:449-474 | the ledger gains exactly the applied quantities, product by product |
| `ReceiptTheorems.StepKeepsInv` | backend/app/services/receipts.py:281-523 | every step, with every other shop operation, keeps the receipt and the shop invariant |
| `ReceiptTheorems.OneExtraction` | backend/app/services/receipts.py:291-301 | in every run at most one extraction per receipt runs, only while PROCESSING or CANCELLED |
| `ReceiptTheorems.ConfirmedIsFinal` | backend/app/services/receipts.py:397-400 | CONFIRMED is never left, although a failing extraction overwrites the status unchecked |
| `ReceiptTheorems.ConfirmedAtMostOnce` | backend/app/services/receipts.py:431-438 | over a run a receipt is confirmed once if it ends CONFIRMED and otherwise never |
| `ReceiptTheorems.AddedIsApplied` | backend/app/services/receipts.py:449-480 | over every run, what confirming a receipt added to a product is the sum of its APPLIED lines |
| `ReceiptTheorems.AppliedLinesInEveryRun` | backend/app/services/receipts.py:469-474 | in every run no two applied lines share a movement |
| `ReceiptTheorems.CancelledIsFinalIff` | backend/app/services/receipts.py:345-360 | a cancelled receipt stays so in every continuation iff no extraction of it is running |
| `ReceiptTheorems.CancelledThenReady` | backend/app/services/receipts.py:397-400 | a receipt cancelled mid-extraction, failed and retried is open for review again |
| `ReceiptTheorems.CancelledThenConfirmed` | backend/app/services/receipts.py:504-511 | ... and can be confirmed |
| `ReceiptOutcomes.UploadOutcome` | backend/app/services/receipts.py:193-241 | an upload adds one UPLOADED receipt without lines |
| `ReceiptOutcomes.ProcessOutcome` | backend/app/services/receipts.py:281-301 | accepted iff the receipt is UPLOADED or FAILED and a provider is configured; it becomes PROCESSING with one extraction running |
| `ReceiptOutcomes.ExtractedOutcome` | backend/app/services/receipts.py:345-384 | lines open for review iff the receipt is still PROCESSING; the extraction ends in any case |
| `ReceiptOutcomes.FailedOutcome` | backend/app/services/receipts.py:387-413 | a failed extraction, or one without lines, marks the receipt FAILED whatever its status was |
| `ReceiptOutcomes.CrashOutcome` | backend/app/services/receipts.py:291-301 | a server that stops mid-extraction leaves the receipt PROCESSING and no extraction running |
| `ReceiptOutcomes.CancelOutcome` | backend/app/services/receipts.py:501-523 | accepted iff the receipt is not CONFIRMED; it ends CANCELLED and nothing else changes |
| `ReceiptOutcomes.ConfirmLinesOkIff` | backend/app/services/receipts.py:449-474 | the decided lines can all be restocked iff each names an active tracked product |
| `ReceiptOutcomes.ConfirmAcceptedIff` | backend/app/services/receipts.py:430-474 | in a reachable state a confirmation is accepted iff the receipt is READY, decides at least one of its own lines and no others, and every decided product is active and tracked |
| `ReceiptOutcomes.ConfirmOutcome` | backend/app/services/receipts.py:449-498 | decided lines are APPLIED with their decision, the others SKIPPED, other receipts and tables stay |
| `ReceiptOutcomes.ConfirmLinesCosts` | backend/app/services/receipts.py:449-474 | a product's cost becomes that of its last decision that asks for it; its other fields but the quantity stay |
| `ReceiptDesk.Desk.Start` | backend/app/services/receipts.py:291-301 | claims an UPLOADED or FAILED receipt |
| `ReceiptDesk.Desk.Finish` | backend/app/services/receipts.py:345-360 | delivers the lines unless the receipt was cancelled |
| `ReceiptDesk.Desk.FailExtraction` | backend/app/services/receipts.py:387-413 | the unchecked overwrite, safe because the invariant holds |
| `ReceiptDesk.Desk.ConfirmDecisions` | backend/app/services/receipts.py:416-498 | all decisions or none, one movement per decision |
| `ReceiptDesk.Desk.CancelIt` | backend/app/services/receipts.py:501-523 | cancels everything but a confirmed receipt |
| `RefreshTokens.RefreshKeepsInv` | backend/app/services/auth.py:258-306 | rotation keeps families linked and only their newest token live |
| `RefreshTokens.EveryRunKeepsInv` | backend/app/services/auth.py:258-373 | so does every run of sign-in, refresh, sign-out and password change |
| `RefreshTokens.OneLivePerFamily` | backend/app/repositories/refresh_tokens.py:53-66 | a family has at most one unrevoked token |
| `RefreshTokens.FamiliesAreChains` | backend/app/repositories/refresh_tokens.py:29-43 | a family is one chain of one user: each token's parent is the one before it |
| `RefreshTokens.ReuseEmptiesFamily` | backend/app/services/auth.py:273-285 | presenting a revoked token leaves its family without a live one |
| `RefreshTokens.RefreshOutcome` | backend/app/services/auth.py:268-306 | exactly when a token is exchanged, and exactly when its family loses its live token; an inactive membership leaves it alive, other families are untouched |
| `RefreshTokens.EmptiedForGood` | backend/app/services/auth.py:268-306 | an emptied family never gains a live token again |
| `RefreshTokens.ExchangedAtMostOnce` | backend/app/repositories/refresh_tokens.py:53-66 | over a run every token buys at most one successor |
| `RefreshTokens.PasswordChangeReplacesSessions` | backend/app/services/auth.py:350-371 | after a password change the new token, a family of its own, is the user's only live one, and nobody else's tokens change |
| `RefreshTokens.SignInOutcome` | backend/app/services/auth.py:216-256 | a sign-in adds one live token that starts its own family, and changes no other |
| `RefreshTokens.LogoutOutcome` | backend/app/services/auth.py:317-324 | a known token's whole family is revoked and no other token changes; an unknown token changes nothing |
| `RefreshTokens.LogoutAllOutcome` | backend/app/services/auth.py:330-334 | the user has no live token left and nobody else's changes |
| `RefreshTokens.PasswordChangeRefused` | backend/app/services/auth.py:350-362 | a wrong password or an inactive membership changes no session |
| `RefreshTokens.EmptiedGrowsNoMore` | backend/app/services/auth.py:268-306 | over any continuation tokens keep their family and user, and an emptied family gets no new one |
| `RefreshTokens.SignedOutForGood` | backend/app/services/auth.py:317-324 | after a sign-out no continuation revives the family or issues a token into it, and presenting any of its tokens is refused |
| `RefreshTokens.SignOutEndsSession` | backend/app/services/auth.py:317-324 | so in every run, for every token of the family, known then or later |
| `RefreshTokens.Store.Consume` | backend/app/repositories/refresh_tokens.py:53-66 | revokes and returns exactly a live, unexpired token |
| `RefreshTokens.Store.RevokeWhere` | backend/app/repositories/refresh_tokens.py:69-86 | leaves no live token the criterion hits and the others as they were; the count returned is by how many the live tokens became fewer |
| `RefreshTokens.Store.RefreshToken` | backend/app/services/auth.py:258-306 | rotation, reuse, inactive user and rolled-back membership failure |
| `RefreshTokens.Store.SignOutToken` | backend/app/services/auth.py:317-324 | revokes the family of the presented token, or nothing for an unknown one |
| `RefreshTokens.Store.SignOutEverywhere` | backend/app/services/auth.py:330-334 | revokes every token of the user and no other |
| `RefreshTokens.Store.ReplacePassword` | backend/app/services/auth.py:337-373 | revokes all of the user's tokens and issues one, or changes nothing |
| `RateLimiter.NthLastDecides` | backend/app/core/ratelimit.py:40-45 | in a sorted history the n-th last attempt decides whether n are recent |
| `RateLimiter.AcceptedIsSpaced` | backend/app/core/ratelimit.py:40-47 | any limit + 1 accepted attempts span a whole window |
| `RateLimiter.NoWindowHoldsMore` | backend/app/core/ratelimit.py:27-48 | no window, wherever it lies, holds more than `limit` accepted attempts |
| `RateLimiter.RetryAfterIsExact` | backend/app/core/ratelimit.py:43-45 | an attempt before the advertised wait is rejected, the first one after it accepted, whatever happens in between |
| `RateLimiter.WaitingSecondsIsEnough` | backend/app/api/deps.py:73-79 | waiting the advertised whole seconds is always enough, unless another attempt on the key comes first once the wait is over |
| `RateLimiter.Pruned` | backend/app/core/ratelimit.py:41-42 | popping from the front leaves exactly the attempts in the window |
| `RateLimiter.Limiter.Hit` | backend/app/core/ratelimit.py:27-48 | answers as a limiter that keeps every accepted attempt for ever; a table still above the threshold holds no stale bucket |
| `RateLimiter.Limiter.Sweep` | backend/app/core/ratelimit.py:53-56 | drops exactly the stale buckets and changes no later answer |
| `Analytics.GroupsAddUp` | backend/app/analytics/queries.py:147-159 | group totals add up to the total for any grouping |
| `Analytics.TenderSplitIsRevenue` | backend/app/analytics/queries.py:147-159 | the tender split adds up to revenue |
| `Analytics.CategoriesAreRevenue` | backend/app/analytics/queries.py:490-525 | category revenues add up to revenue, however products are categorised |
| `Analytics.SeparateRounding` | backend/app/analytics/queries.py:62-63 | K separately rounded costs differ from the rounded total by at most (K + 1) / 2 cents |
| `Analytics.CategoryCogsNearSummary` | backend/app/analytics/queries.py:490-525 | so do the category costs from the summary's |
| `Analytics.RoundingCanDrift` | backend/app/analytics/queries.py:62-63 | two half-cent costs that drift apart by a cent |
| `Analytics.CostBucketsAreSaleBuckets` | backend/app/analytics/queries.py:283-292 | every bucket with costs has sales |
| `Analytics.SaleBucketsAreCostBuckets` | backend/app/analytics/queries.py:283-292 | and the other way round, since a recorded sale has a line |
| `Analytics.TenderSplit` | backend/app/analytics/queries.py:156-159 | the filled dictionary has every method, zero when unused, and adds up to revenue |
| `Analytics.RevenueInEveryRun` | backend/app/analytics/queries.py:110-159 | in every reachable state and period, tenders, categories and revenue agree |
| `ReportFigures.RevenueIsTable` | backend/app/analytics/queries.py:110-121 | revenue and the number of sales are sums over the whole sales table of the COMPLETED rows sold in the period |
| `ReportFigures.TenderIsTable` | backend/app/analytics/queries.py:147-159 | so is each tender's total |
| `ReportFigures.CogsIsTable` | backend/app/analytics/queries.py:124-144 | so is the cost of goods, over lines with a known cost, rounded once |
| `ReportFigures.CategoryIsTable` | backend/app/analytics/queries.py:490-525 | so are each category's revenue and cost |
| `Timeseries.CashByBucket` | backend/app/analytics/queries.py:306-321 | tenders received plus repayments, bucket by bucket |
| `Timeseries.FillBuckets` | backend/app/analytics/queries.py:336-355 | every bucket read with its defaults says what its rows say |
| `Timeseries.BuildReport` | backend/app/analytics/queries.py:265-356 | the whole list, one bucket per key of the union, in order |
| `ReportFigures.BucketIsTable` | backend/app/analytics/queries.py:265-356 | every field of a bucket is a sum over the whole sales table and the dated repayments and expenses |
| `Timeseries.BucketsAddUp` | backend/app/analytics/queries.py:265-356 | bucket revenues, discounts, sale counts, expenses and lines without a cost add up exactly |
| `Timeseries.CashAddsUp` | backend/app/analytics/queries.py:294-321 | bucket cash adds up to tenders received plus repayments |
| `Timeseries.CashReconciles` | backend/app/analytics/queries.py:294-321 | bucket cash is revenue, less credit sold, plus repayments |
| `Timeseries.BucketCogsNearSummary` | backend/app/analytics/queries.py:283-356 | no cost bucket is lost, and K bucket costs are within (K + 1) / 2 cents of the summary's |
| `Timeseries.ReportInEveryRun` | backend/app/analytics/queries.py:265-356 | in every reachable state, for every period and bucketing, revenue and cash add up |
| `Export.OneOrder` | backend/app/repositories/sales.py:101 | a set of rows has only one listing by (sold_at, id) |
| `Export.RestAfter` | backend/app/repositories/sales.py:99-102 | the rows after the n-th of a listing are the rest of the listing |
| `Export.IterExport` | backend/app/services/sales.py:525-545 | the loop ends and yields exactly the matching rows in order, for every table and page size |
| `Export.ListingIsComplete` | backend/app/repositories/sales.py:84-102 | the listing names every sale dated in the bounds, and no other, once each, by date and then id |

## Left out

- HTTP routers, request schemas beyond the checks the services rely on, CSV writing, audit rows and logging.
- Argon2, JWT, SHA-256, `uuid5`, Google sign-in and SMS: only injectivity of digests and derived keys is used.
- SMS parsing and receipt line matching: messages arrive parsed and decisions arrive made.
- Image validation, blob storage and the extraction provider: an extraction delivers some number of lines or fails.
- Permissions, roles other than for backdating and the credit-limit override, and time zones: instants and buckets are abstract.
- NUMERIC overflow, the 28-digit Decimal context and JavaScript float precision: arithmetic is exact.
- `total_cost` on movements, product and customer names, notes and reasons: no figure proved here reads them.
- Read-committed effects inside one transaction: a transaction is one step, except where `Concurrency` splits it.
- MpesaLinks.FindTender: candidates are taken in recording order, where the query orders by `created_at`.
- MpesaLinks.FindRepayment: candidates are taken in recording order, as for tenders.
- Text.StoredCodesAgree: upper-casing covers ASCII letters only.
- Copilot.SettledForGood: the second locked read of a message is taken to return the committed row; the session keeps loaded attributes after a commit (`backend/app/db/session.py:46-49`), and whether a locking SELECT refreshes them is the mapper's behaviour, which is not modelled.
- CopilotDesk.Desk.MarkIt: assumes the same fresh read; `Copilot.OneRecordPerMessage` does not depend on it.
- ReceiptDesk.Desk.Finish: assumes the same fresh read of the receipt; `ReceiptTheorems.ConfirmedIsFinal` and `ReceiptTheorems.CancelledIsFinalIff` do not depend on it.
- LockOrder.NoWaitCycle: locks on M-Pesa message rows are not part of the order.
- ConcurrencyTheorems.EveryRunIsSerial: message rows are not locked, a transaction's links are written when it commits, and operations without a key run as one step on rows that nobody holds.
- Copilot proposals that create products or restock: those paths carry no idempotency key.
- `cash_collected` per payment method and `product_performance`: the same grouping argument as the tender split and the categories.
- The summary's count of products without a known cost: it feeds no other figure.
- Expenses, categories, members, business settings and reset codes: single-guard updates that would add only easy members.
- Lists, search, low-stock and slow-product queries, and the rest of the front end.

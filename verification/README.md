# Auto-shop invoicing: totals, stock and invoice numbers

A Dafny model of the core of an auto-repair shop's invoicing backend (an Express/Mongoose
service). It covers four things:

- the **total calculator** of the invoice create route. It derives subtotal, discount
  amount, taxable amount, tax amount and grand total from the line items and the
  discount, tax, deposit and refund of the request.
- the **inventory adjuster**. Creating an invoice lowers the on-hand quantity of each
  catalog item named by a line. Deleting it raises the quantities back.
- the **invoice-number generator** of the invoice schema's pre-save hook:
  `INV-` + two year digits + two month digits + a zero-padded counter.
- the **schema bounds** that decide whether a record may be written, and the **catalog
  routes** (create an item with a unique name, patch an item's quantity, search).

Everything is pure functions over immutable values. The shop state is a catalog (a
sequence of item records in insertion order) plus a map from document id to stored
invoice. The handlers return `Step(next state, result)`, because a refused invoice write
still leaves the stock decrements applied. Money is exact `real` and quantities are `int`.
The clock (year, month), the document count, fresh document ids and the search's regular
expression are parameters.

Modules, one per source component:

- `Outcomes`: result datatypes.
- `Decimal`: `toString`, `padStart` and `slice(-2)` on decimal strings, plus a decimal reader.
- `InvoiceNumber`: the pre-save hook.
- `Schema`: the line-item and invoice records and their bounds.
- `Totals`: the calculator.
- `Items`: the catalog and its routes.
- `Inventory`: the two stock loops.
- `Invoices`: the invoice create, read and delete routes.

Behaviour of the code that shapes the model:

- The create handler sums the **supplied** line `total` fields. It does not recompute
  quantity × unit price.
- The schema refuses a record whose grand total is negative (`min: 0`), so a refund larger
  than the taxed amount makes the write fail.
- The stock is decremented **before** the write is attempted, so a refused write leaves
  it taken (`Invoices.RefusedCreateKeepsDecrement`).
- The invoice routes' stock loops look up catalog items by name only; a line item carries no
  item id.
- A generated number with a four-digit counter has twelve characters: `INV-` plus 2 + 2 + 4.

## Model

| member | source | states |
|---|---|---|
| `Totals.ReduceSubtotal` | routes/invoices.js:31 | the left-to-right `reduce` over the line totals equals their sum, and an empty item list gives 0 |
| `Totals.SubtotalAppend` | routes/invoices.js:31 | the subtotal of a concatenation is the sum of the two subtotals |
| `Totals.SubtotalOnlyReadsTotals` | routes/invoices.js:31 | two item lists with the same line totals have the same subtotal, whatever their quantities, unit prices and names |
| `Totals.SubtotalNonNegative` | routes/invoices.js:31 | line items that pass the line-item schema have a non-negative subtotal |
| `Totals.DiscountSplitsSubtotal` | routes/invoices.js:32-33 | taxable amount + discount amount = subtotal; discount 0 takes nothing off; discount 100 leaves nothing taxable |
| `Totals.TotalsBounds` | routes/invoices.js:32-34 | with subtotal ≥ 0, discount in [0, 100] and tax ≥ 0, the discount amount and the taxable amount lie in [0, subtotal] and the tax amount is ≥ 0 |
| `Totals.GrandTotalLinear` | routes/invoices.js:35 | grand total = taxable + tax − deposit − refund; raising the deposit or the refund by x lowers it by exactly x, with no clamping |
| `Totals.WorkedExample` | routes/invoices.js:31-35 | two units at 50.00, 10% discount, 8% tax, 20.00 deposit give 100.00 / 10.00 / 90.00 / 7.20 / 77.20 |
| `Totals.RefundOnlyExample` | routes/invoices.js:35 | no items and a 15.00 refund give a grand total of −15.00 |
| `Items.FindByName` | routes/items.js:25 | the lookup by name finds the first record with that name, and finds none exactly when no record has it |
| `Items.FindById` | routes/items.js:44 | the lookup by id finds the first record with that id, and finds none exactly when no record has it |
| `Items.CreateItem` | routes/items.js:22-38 | a taken name is refused as already existing and the catalog is unchanged; otherwise an empty name fails the schema's required check and a taken id is a duplicate key, both leaving the catalog unchanged; the create succeeds exactly when the name is non-empty and the name and id are fresh, and then appends exactly one record with the given fields; name and id uniqueness are preserved |
| `Items.PatchQuantity` | routes/items.js:41-55 | an unknown id is refused as not found and nothing changes; otherwise only that record's quantity is set, and its name, its id and every other record stay as they were; uniqueness is preserved |
| `Items.PatchIdempotent` | routes/items.js:50 | patching the same quantity twice equals patching it once |
| `Items.Search` | routes/items.js:13-19 | the first min(10, number of matches) matching records in catalog order, each taken from the catalog and none more often than the catalog holds it; with fewer than 10, every matching record is among them |
| `Items.SearchDistinct` | routes/items.js:15-17 | with unique document ids, the search never returns the same item twice |
| `Inventory.AdjustByName` | routes/invoices.js:39-44 | one loop step: the record found by name moves by the delta, and every other record and field stays unchanged |
| `Inventory.Sweep` | routes/invoices.js:38-45 | either stock loop keeps every record's id, name and price and the catalog's length |
| `Inventory.SweepQuantities` | routes/invoices.js:38-45 | each record's quantity moves by the total quantity of the lines whose name lookup lands on it |
| `Inventory.DecrementByName` | routes/invoices.js:38-45 | with unique names, creating an invoice lowers each record by the summed quantity of the lines carrying its name (repeated names accumulate) |
| `Inventory.UnnamedRecordsUnchanged` | routes/invoices.js:38-45 | a record that no line names is left exactly as it was |
| `Inventory.SkipsUnmatchedLine` | routes/invoices.js:39-40 | a line whose name matches no record changes nothing |
| `Inventory.StockAfterDecrement` | routes/invoices.js:38-45 | on the name→quantity map, creation keeps the set of names and lowers each name's stock by the quantity of the lines carrying it |
| `Inventory.RestoreUndoesDecrement` | routes/invoices.js:88-95 | the delete loop over the same line items gives back exactly the catalog the create loop started from |
| `Inventory.RestoreReturnsWhatDecrementTook` | routes/invoices.js:88-95 | even after other stock changes, the delete loop returns exactly what the create loop took, as long as the catalog still holds the same records |
| `Inventory.NewRecordBreaksRoundTrip` | routes/invoices.js:88-95 | if an item with a line's name is created between an invoice's creation and its deletion, the deletion adds stock that was never taken |
| `Inventory.SweepsCommute` | routes/invoices.js:38-45 | the stock loops of two invoices give the same catalog in either order |
| `Inventory.OneLineSweep` | routes/invoices.js:41 | a single line naming the only record moves that record's quantity by the line quantity |
| `Schema.DefaultsAreValid` | models/Invoice.js:94-103 | a payment status or method left out takes a default that is in its enum; one that is given passes exactly when it is an enum member |
| `Invoices.Record` | routes/invoices.js:47-64 | the written record copies the request's vehicle, customer, items, percentages, deposit, refund, reason and notes, defaults a missing payment status to Paid and method to Cash, and carries the calculator's subtotal, discount amount, tax amount and grand total for those inputs |
| `Invoices.RecordValidIff` | models/Invoice.js:45-103 | the schema accepts the computed record exactly when the line items are valid, discount is in [0, 100], tax, deposit and refund are ≥ 0, the grand total is ≥ 0 and the enums pass |
| `Invoices.CreateInvoice` | routes/invoices.js:14-67 | the stock is decremented whether or not the write succeeds; the write succeeds exactly when the request is acceptable and the id and the generated number are unused; a refused write is `Invalid` for a bad request and `DuplicateKey` otherwise, and stores nothing; a stored record is the request's record under the generated number, valid and carrying the calculator's amounts; number distinctness and amount consistency of the stored invoices are preserved |
| `Invoices.GetInvoice` | routes/invoices.js:70-77 | found exactly when the id is stored; otherwise not found |
| `Invoices.DeleteInvoice` | routes/invoices.js:80-99 | an unknown id is not found and changes nothing; otherwise the stored items' stock is restored and exactly that invoice is removed; number distinctness and amount consistency of the stored invoices are preserved |
| `Invoices.CreateThenDelete` | routes/invoices.js:38-97 | a successful create followed by deleting the same invoice restores the catalog and the invoice collection |
| `Invoices.StockRoundTripExample` | routes/invoices.js:38-95 | five on hand and a line of three leave two; deleting the invoice brings back five |
| `Invoices.RefusedCreateKeepsDecrement` | routes/invoices.js:38-47 | a record refused for a negative grand total stores nothing but has already taken the stock (5 becomes 2) |
| `Invoices.CreateInvoiceByCount` | models/Invoice.js:113-117 | numbering with the current document count; when that number is already stored the creation fails |
| `Invoices.CountNumberingCollidesAfterDelete` | models/Invoice.js:113-117 | create, create, delete the first, create: the fourth request regenerates the second invoice's number and is refused as a duplicate key |
| `Invoices.CreateInvoiceNumbered` | models/Invoice.js:113-117 | corrected numbering: the counter is the number of numbers ever issued |
| `Invoices.IssuedNumberIsFresh` | models/Invoice.js:117 | under the corrected numbering the next number is never in use |
| `Invoices.NumberedCreateOkIff` | models/Invoice.js:113-117 | under the corrected numbering, creation succeeds exactly when the request is acceptable and the id is fresh |
| `Invoices.NumberedCreatePreserves` | models/Invoice.js:113-117 | corrected creation keeps every stored counter at or below the count of numbers issued |
| `Invoices.DeletePreservesNumbering` | routes/invoices.js:97 | deletion keeps every stored counter at or below the count of numbers issued |
| `Invoices.NumberedAfterDeleteSucceeds` | models/Invoice.js:113-117 | the create/create/delete/create scenario succeeds under the corrected numbering |
| `InvoiceNumber.AssignOnSave` | models/Invoice.js:111-120 | a number already set is kept; otherwise the number is the generated one (so the format, decoding and injectivity lemmas apply to it), starting with `INV-`; the result is never empty |
| `InvoiceNumber.GenerateFormat` | models/Invoice.js:115-117 | `INV-`, then two year digits reading the year mod 100, then month digits reading 1 to 12, then a counter reading count + 1; twelve characters exactly when count + 1 < 10000, and a longer counter from then on |
| `InvoiceNumber.DecodeGenerate` | models/Invoice.js:113-117 | decoding a generated number gives back (year mod 100, month, count + 1) |
| `InvoiceNumber.GenerateInjective` | models/Invoice.js:117 | two generated numbers are equal exactly when year mod 100, month and count agree, so within one month distinct counts give distinct numbers |
| `InvoiceNumber.CounterIgnoresPeriod` | models/Invoice.js:113-117 | the counter segment depends on the count alone: it is not reset per year or month |
| `InvoiceNumber.CounterSegmentDigits` | models/Invoice.js:117 | the counter segment is at least four digits, reads count + 1, and is exactly four digits when count + 1 < 10000 |
| `InvoiceNumber.YearSegmentDigits` | models/Invoice.js:115 | for a year ≥ 10 the year segment is two digits reading the year mod 100 |
| `InvoiceNumber.MonthSegmentDigits` | models/Invoice.js:116 | for months 1 to 12 the month segment is two digits reading the month |
| `Decimal.ToDecimal` | models/Invoice.js:117 | `toString` of a natural number is a non-empty digit string whose last digit is n mod 10, with two or more digits exactly when n ≥ 10 |
| `Decimal.ParseToDecimal` | models/Invoice.js:117 | reading back the decimal spelling gives the number |
| `Decimal.ToDecimalNoLeadingZero` | models/Invoice.js:117 | `toString` writes a leading zero only for zero |
| `Decimal.PadStart` | models/Invoice.js:117 | `padStart` keeps the whole string as a suffix and fills only on the left; it never truncates |
| `Decimal.PadStartPreservesValue` | models/Invoice.js:117 | zero-padding keeps the value of a digit string |
| `Decimal.ToDecimalLength` | models/Invoice.js:117 | the spelling fits in k characters exactly when n < 10^k |
| `Decimal.SliceLast2` | models/Invoice.js:115 | `slice(-2)` is the last two characters, or the whole string when it is shorter |
| `Decimal.LastTwoDigits` | models/Invoice.js:115 | for n ≥ 10, `slice(-2)` of the spelling is two digits reading n mod 100 |

## Left out

- Listing routes (all invoices newest first, all items by name): they only sort by
  timestamp or name and contain no logic.
- Timestamps (`createdAt`, `updatedAt`): clock values, not modelled.
- The order of Mongoose's validation and the pre-save hook. Mongoose validates before
  user pre-save hooks, so the `required` check on the invoice number would run before the
  hook assigns it. The model numbers the record first, then applies the schema bounds and
  the unique indexes.
- Mongoose type casting, `trim` on string fields, and request fields left undefined.
  An undefined discount, tax, deposit or refund makes the handler's arithmetic `NaN`.
  Numeric inputs are always present in the model.
- IEEE-754 rounding of the percentage arithmetic: amounts are exact reals.
- Fractional quantities: line and stock quantities are integers.
- Concurrency: the count-then-save race on invoice numbers and the non-transactional
  stock updates. A stock save failing partway through the loop is not modelled either.
- The catalog record shape. The item schema (models/Item.js:3-15) declares a required
  `price` and no `unitPrice` or `quantity`. The routes read and write `unitPrice` and
  `quantity`. Under Mongoose's default strict schemas, those fields would be dropped and
  the missing `price` would refuse every item create. The model follows the routes: a
  record carries a unit price and an on-hand quantity.
- Cast errors for malformed document ids (a 500 in the source): ids are naturals.
- Regular-expression matching in the item search: the match test is a parameter.
- The server's error middleware, the settings and customer routes, and the HTML/PDF
  renderer: outside this model.
- InvoiceNumber.GenerateFormat: requires a year of at least 10. For years 0 to 9,
  `slice(-2)` gives one digit and the fixed positions shift. Negative years are not
  modelled (the year is a natural).
- InvoiceNumber.DecodeGenerate: requires a year of at least 10, for the same reason.
- InvoiceNumber.GenerateInjective: requires a year of at least 10, for the same reason.
- InvoiceNumber.CounterIgnoresPeriod: requires a year of at least 10, for the same reason.
- Inventory.DecrementByName: requires unique catalog names (the item name's unique index).
  `Inventory.SweepQuantities` states the general first-match accounting without it.

## Findings

| source | as written | input that shows it | evidently intended | confidence | as-written member | corrected member |
|---|---|---|---|---|---|---|
| models/Invoice.js:113-117 | the counter is the current number of stored invoices plus one | in one month: create invoice A (counter 1), create B (counter 2), delete A, create C; C counts one stored invoice and regenerates B's number, so the unique index refuses C although the request is valid, and C's stock is already taken | a counter that never reuses a live number, e.g. the count of numbers ever issued | high, given that the hook runs before the required check on the number (see Left out); not executed | Invoices.CountNumberingCollidesAfterDelete | Invoices.NumberedCreateOkIff |

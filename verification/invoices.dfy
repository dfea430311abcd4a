/** The invoice routes over a small shop state: the item catalog and the stored invoices.
    Creating an invoice computes the totals, takes the stock, numbers the record in the
    pre-save hook and writes it, where the schema bounds and the unique indexes may still
    refuse it; deleting one checks that it exists, returns the stock and removes it. */
module Invoices {
  import opened Outcomes
  import opened Schema
  import opened Totals
  import opened Items
  import opened Inventory
  import opened InvoiceNumber

  type InvoiceId = nat

  /** The body of an invoice create request. The two payment enums may be left out. */
  datatype CreateRequest = CreateRequest(
    vin: string,
    yearModel: string,
    customer: Customer,
    items: seq<LineItem>,
    discount: real,
    tax: real,
    deposit: real,
    refundAmount: real,
    refundReason: string,
    notes: string,
    paymentStatus: Option<string>,
    paymentMethod: Option<string>)

  /** The shop's state: the catalog, the invoice collection keyed by document id, and the
      number of invoice numbers issued so far (used only by the corrected numbering). */
  datatype Shop = Shop(catalog: Catalog, invoices: map<InvoiceId, Invoice>, issued: nat)

  /** The record the create handler passes to the store, numbered by the hook: the request's
      fields copied over, the payment enums defaulted, and the calculator's amounts. */
  function Record(req: CreateRequest, number: string): (r: Invoice)
    ensures r.invoiceNumber == number
    ensures && r.vin == req.vin && r.yearModel == req.yearModel && r.customer == req.customer
            && r.items == req.items && r.discount == req.discount && r.tax == req.tax
            && r.deposit == req.deposit && r.refundAmount == req.refundAmount
            && r.refundReason == req.refundReason && r.notes == req.notes
    ensures req.paymentStatus.Some? ==> r.paymentStatus == req.paymentStatus.value
    ensures req.paymentStatus.None? ==> r.paymentStatus == DefaultPaymentStatus
    ensures req.paymentMethod.Some? ==> r.paymentMethod == req.paymentMethod.value
    ensures req.paymentMethod.None? ==> r.paymentMethod == DefaultPaymentMethod
    ensures TotalsConsistent(r)
  {
    var t := Compute(req.items, req.discount, req.tax, req.deposit, req.refundAmount);
    Invoice(number, req.vin, req.yearModel, req.customer, req.items,
            t.subtotal, req.discount, t.discountAmount, req.tax, t.taxAmount,
            req.deposit, req.refundAmount, req.refundReason, t.grandTotal, req.notes,
            OrDefault(req.paymentStatus, DefaultPaymentStatus),
            OrDefault(req.paymentMethod, DefaultPaymentMethod))
  }

  /** When the schema accepts a request's record, stated on the request: valid line items,
      a discount in [0, 100], non-negative tax rate, deposit and refund, a grand total that
      did not go negative, and payment enums that are left out or name a member. */
  predicate Acceptable(req: CreateRequest) {
    && ValidLineItems(req.items)
    && 0.0 <= req.discount <= 100.0
    && req.tax >= 0.0
    && req.deposit >= 0.0
    && req.refundAmount >= 0.0
    && Compute(req.items, req.discount, req.tax, req.deposit, req.refundAmount).grandTotal >= 0.0
    && (req.paymentStatus.None? || req.paymentStatus.value in PaymentStatuses)
    && (req.paymentMethod.None? || req.paymentMethod.value in PaymentMethods)
  }

  /** The schema accepts the computed record exactly when the request is acceptable: the
      subtotal, discount amount and tax amount bounds never fail on their own, because the
      calculator keeps them non-negative once the inputs pass. */
  lemma RecordValidIff(req: CreateRequest, number: string)
    requires number != ""
    ensures ValidInvoice(Record(req, number)) <==> Acceptable(req)
  {
    DefaultsAreValid(req.paymentStatus, req.paymentMethod);
    if Acceptable(req) {
      SubtotalNonNegative(req.items);
      TotalsBounds(req.items, req.discount, req.tax, req.deposit, req.refundAmount);
    }
  }

  predicate NumberInUse(invoices: map<InvoiceId, Invoice>, number: string) {
    exists k :: k in invoices && invoices[k].invoiceNumber == number
  }

  /** Every stored invoice carries the calculator's amounts for its own inputs. */
  predicate StoredTotalsConsistent(invoices: map<InvoiceId, Invoice>) {
    forall k :: k in invoices ==> TotalsConsistent(invoices[k])
  }

  /** The unique index on invoice numbers: no two stored invoices share a number. */
  predicate NumbersDistinct(invoices: map<InvoiceId, Invoice>) {
    forall a, b :: a in invoices && b in invoices && a != b ==>
      invoices[a].invoiceNumber != invoices[b].invoiceNumber
  }

  /** The invoice create handler, numbering with `count` as the hook's document count. The
      stock is taken before the write is attempted, so it stays taken when the write is
      refused; a refused write stores nothing. */
  function CreateInvoice(s: Shop, req: CreateRequest, id: InvoiceId, year: nat, month: nat,
                         count: nat): (r: Step<Shop, Invoice>)
    ensures r.next.catalog == Decrement(s.catalog, req.items)
    ensures r.result.Ok? <==>
      Acceptable(req) && id !in s.invoices && !NumberInUse(s.invoices, Generate(year, month, count))
    ensures r.result.Err? ==> r.next.invoices == s.invoices && r.next.issued == s.issued
    ensures r.result.Err? ==> r.result.error == (if Acceptable(req) then DuplicateKey else Invalid)
    ensures r.result.Ok? ==>
      && r.result.value == Record(req, Generate(year, month, count))
      && ValidInvoice(r.result.value)
      && TotalsConsistent(r.result.value)
      && r.next.invoices == s.invoices[id := r.result.value]
      && r.next.issued == s.issued + 1
    ensures NumbersDistinct(s.invoices) ==> NumbersDistinct(r.next.invoices)
    ensures StoredTotalsConsistent(s.invoices) ==> StoredTotalsConsistent(r.next.invoices)
  {
    var catalog := Decrement(s.catalog, req.items);
    var number := AssignOnSave("", year, month, count);
    var record := Record(req, number);
    RecordValidIff(req, number);
    if !ValidInvoice(record) then
      Step(s.(catalog := catalog), Err(Invalid))
    else if id in s.invoices || NumberInUse(s.invoices, number) then
      Step(s.(catalog := catalog), Err(DuplicateKey))
    else
      Step(Shop(catalog, s.invoices[id := record], s.issued + 1), Ok(record))
  }

  /** Fetching one invoice: a 404 for an unknown id. */
  function GetInvoice(s: Shop, id: InvoiceId): (r: Result<Invoice>)
    ensures r.Ok? <==> id in s.invoices
    ensures r.Ok? ==> r.value == s.invoices[id]
    ensures r.Err? ==> r.error == NotFound
  {
    if id in s.invoices then Ok(s.invoices[id]) else Err(NotFound)
  }

  /** The invoice delete handler: an unknown id is a 404 raised before any stock is touched;
      otherwise the stored line items' stock is returned and the invoice removed. */
  function DeleteInvoice(s: Shop, id: InvoiceId): (r: Step<Shop, ()>)
    ensures id !in s.invoices ==> r == Step(s, Err(NotFound))
    ensures r.result.Ok? <==> id in s.invoices
    ensures r.result.Ok? ==>
      && r.next.catalog == Restore(s.catalog, s.invoices[id].items)
      && r.next.invoices == s.invoices - {id}
      && r.next.issued == s.issued
    ensures NumbersDistinct(s.invoices) ==> NumbersDistinct(r.next.invoices)
    ensures StoredTotalsConsistent(s.invoices) ==> StoredTotalsConsistent(r.next.invoices)
  {
    if id !in s.invoices then Step(s, Err(NotFound))
    else
      var stored := s.invoices[id];
      Step(Shop(Restore(s.catalog, stored.items), s.invoices - {id}, s.issued), Ok(()))
  }

  /** Creating an invoice and then deleting it leaves the catalog and the invoice
      collection as they were before the creation. */
  lemma CreateThenDelete(s: Shop, req: CreateRequest, id: InvoiceId, year: nat, month: nat,
                         count: nat)
    requires CreateInvoice(s, req, id, year, month, count).result.Ok?
    ensures var after := DeleteInvoice(CreateInvoice(s, req, id, year, month, count).next, id);
      && after.result.Ok?
      && after.next.catalog == s.catalog
      && after.next.invoices == s.invoices
  {
    var created := CreateInvoice(s, req, id, year, month, count);
    RestoreUndoesDecrement(s.catalog, req.items);
    RemoveAfterInsert(s.invoices, id, created.result.value);
  }

  lemma RemoveAfterInsert<K, V>(m: map<K, V>, k: K, v: V)
    requires k !in m
    ensures m[k := v] - {k} == m
  {
  }

  /** The worked example of the stock loops: five on hand, an invoice line of three leaves
      two; deleting the invoice brings the stock back to five. */
  lemma StockRoundTripExample(oil: CatalogItem, line: LineItem, req: CreateRequest,
                              year: nat, month: nat, count: nat)
    requires oil.quantity == 5 && line.name == oil.name && line.quantity == 3
    requires req.items == [line] && Acceptable(req)
    ensures var created := CreateInvoice(Shop([oil], map[], 0), req, 1, year, month, count);
      && created.result.Ok?
      && created.next.catalog == [oil.(quantity := 2)]
      && DeleteInvoice(created.next, 1).next.catalog == [oil]
  {
    OneLineSweep(oil, line, Take);
    OneLineSweep(oil.(quantity := 2), line, Return);
  }

  /** A request whose grand total goes negative (here: three filters at no charge and a
      15.00 refund) is refused by the schema, but the stock it names has already been
      taken: five on hand become two although no invoice is stored. */
  lemma RefusedCreateKeepsDecrement(oil: CatalogItem, line: LineItem, req: CreateRequest,
                                    year: nat, month: nat, count: nat)
    requires oil.quantity == 5 && line.name == oil.name && line.quantity == 3
    requires line.total == 0.0 && req.items == [line]
    requires req.discount == 0.0 && req.tax == 8.0 && req.deposit == 0.0 && req.refundAmount == 15.0
    ensures var created := CreateInvoice(Shop([oil], map[], 0), req, 1, year, month, count);
      && created.result == Err(Invalid)
      && created.next.invoices == map[]
      && created.next.catalog == [oil.(quantity := 2)]
  {
    OneLineSweep(oil, line, Take);
    assert Subtotal([line]) == 0.0 by {
      assert [line][1..] == [];
    }
    assert Compute([line], 0.0, 8.0, 0.0, 15.0).grandTotal == -15.0;
  }

  // Numbering by document count, as the pre-save hook does.

  /** The hook's `countDocuments()`: how many invoices are stored now. */
  function CountDocuments(s: Shop): nat {
    |s.invoices|
  }

  /** Invoice creation numbered as the source numbers it. */
  function CreateInvoiceByCount(s: Shop, req: CreateRequest, id: InvoiceId, year: nat,
                                month: nat): (r: Step<Shop, Invoice>)
    ensures r.result.Ok? ==> r.result.value.invoiceNumber == Generate(year, month, |s.invoices|)
    ensures NumberInUse(s.invoices, Generate(year, month, |s.invoices|)) ==> r.result.Err?
  {
    CreateInvoice(s, req, id, year, month, CountDocuments(s))
  }

  /** Count-based numbering reuses a live number after a deletion: in any month, create
      invoices 1 and 2 (numbered with counts 0 and 1), delete invoice 1, and the next
      creation counts one stored invoice, generates invoice 2's number again, and is refused
      by the unique index although the request is acceptable and its id is fresh. */
  lemma CountNumberingCollidesAfterDelete(req: CreateRequest, year: nat, month: nat)
    requires Acceptable(req)
    requires year >= 10 && 1 <= month <= 12
    ensures var s0 := Shop([], map[], 0);
      var s1 := CreateInvoiceByCount(s0, req, 1, year, month);
      var s2 := CreateInvoiceByCount(s1.next, req, 2, year, month);
      var s3 := DeleteInvoice(s2.next, 1);
      var s4 := CreateInvoiceByCount(s3.next, req, 3, year, month);
      && s1.result.Ok? && s2.result.Ok? && s3.result.Ok?
      && 3 !in s3.next.invoices
      && s4.result == Err(DuplicateKey)
  {
    var s0 := Shop([], map[], 0);
    ByCountAccepts(s0, req, 1, year, month);
    var s1 := CreateInvoiceByCount(s0, req, 1, year, month);
    var r1 := s1.result.value;
    assert s1.next.invoices == map[1 := r1];
    GenerateInjective(year, month, 0, year, month, 1);
    SecondNumberFree(s1.next.invoices, r1, Generate(year, month, 1));
    ByCountAccepts(s1.next, req, 2, year, month);
    var s2 := CreateInvoiceByCount(s1.next, req, 2, year, month);
    var r2 := s2.result.value;
    var s3 := DeleteInvoice(s2.next, 1);
    DeleteFirstOfTwo(r1, r2);
    assert s3.next.invoices == map[2 := r2];
    ByCountRefuses(s3.next, req, 3, year, month, 2);
  }

  /** A fresh id and an unused number make the count-numbered creation succeed. */
  lemma ByCountAccepts(s: Shop, req: CreateRequest, id: InvoiceId, year: nat, month: nat)
    requires Acceptable(req) && id !in s.invoices
    requires !NumberInUse(s.invoices, Generate(year, month, |s.invoices|))
    ensures var r := CreateInvoiceByCount(s, req, id, year, month);
      && r.result.Ok?
      && r.result.value.invoiceNumber == Generate(year, month, |s.invoices|)
      && r.next.invoices == s.invoices[id := r.result.value]
  {
  }

  /** A count-numbered creation whose number is held by invoice `k` is a duplicate key. */
  lemma ByCountRefuses(s: Shop, req: CreateRequest, id: InvoiceId, year: nat, month: nat,
                       k: InvoiceId)
    requires Acceptable(req)
    requires k in s.invoices && s.invoices[k].invoiceNumber == Generate(year, month, |s.invoices|)
    ensures CreateInvoiceByCount(s, req, id, year, month).result == Err(DuplicateKey)
  {
  }

  lemma SecondNumberFree(invoices: map<InvoiceId, Invoice>, r1: Invoice, number: string)
    requires invoices == map[1 := r1] && r1.invoiceNumber != number
    ensures |invoices| == 1 && !NumberInUse(invoices, number)
  {
  }

  lemma DeleteFirstOfTwo(r1: Invoice, r2: Invoice)
    ensures map[1 := r1][2 := r2] - {1} == map[2 := r2]
    ensures |map[2 := r2]| == 1
  {
  }

  // Corrected numbering: a counter of numbers issued, never lowered by a deletion.

  /** Invoice creation numbered with the count of numbers ever issued. */
  function CreateInvoiceNumbered(s: Shop, req: CreateRequest, id: InvoiceId, year: nat,
                                 month: nat): (r: Step<Shop, Invoice>)
    ensures r.result.Ok? ==> r.result.value.invoiceNumber == Generate(year, month, s.issued)
  {
    CreateInvoice(s, req, id, year, month, s.issued)
  }

  /** Every stored number decodes to a counter no greater than the count of numbers
      issued. */
  predicate NumbersBelowIssued(s: Shop) {
    forall k :: k in s.invoices ==>
      Decode(s.invoices[k].invoiceNumber).Some?
      && Decode(s.invoices[k].invoiceNumber).value.counter <= s.issued
  }

  /** The next issued number is not in use. */
  lemma IssuedNumberIsFresh(s: Shop, year: nat, month: nat)
    requires NumbersBelowIssued(s)
    requires year >= 10 && 1 <= month <= 12
    ensures !NumberInUse(s.invoices, Generate(year, month, s.issued))
  {
    DecodeGenerate(year, month, s.issued);
  }

  /** With numbering by numbers issued, a creation succeeds exactly when the schema accepts
      the request and its document id is fresh: the number never collides. */
  lemma NumberedCreateOkIff(s: Shop, req: CreateRequest, id: InvoiceId, year: nat, month: nat)
    requires NumbersBelowIssued(s)
    requires year >= 10 && 1 <= month <= 12
    ensures CreateInvoiceNumbered(s, req, id, year, month).result.Ok?
            <==> Acceptable(req) && id !in s.invoices
  {
    IssuedNumberIsFresh(s, year, month);
  }

  /** Creation with numbering by numbers issued, and deletion, keep every stored counter at
      or below the count issued. */
  lemma NumberedCreatePreserves(s: Shop, req: CreateRequest, id: InvoiceId, year: nat, month: nat)
    requires NumbersBelowIssued(s)
    requires year >= 10 && 1 <= month <= 12
    ensures NumbersBelowIssued(CreateInvoiceNumbered(s, req, id, year, month).next)
  {
    var r := CreateInvoiceNumbered(s, req, id, year, month);
    if r.result.Ok? {
      var number := Generate(year, month, s.issued);
      DecodeGenerate(year, month, s.issued);
      forall k | k in r.next.invoices
        ensures Decode(r.next.invoices[k].invoiceNumber).Some?
        ensures Decode(r.next.invoices[k].invoiceNumber).value.counter <= r.next.issued
      {
        if k == id {
          assert r.next.invoices[k].invoiceNumber == number;
        } else {
          assert r.next.invoices[k] == s.invoices[k];
        }
      }
    }
  }

  lemma DeletePreservesNumbering(s: Shop, id: InvoiceId)
    requires NumbersBelowIssued(s)
    ensures NumbersBelowIssued(DeleteInvoice(s, id).next)
  {
  }

  /** The scenario that collides under count-based numbering succeeds under numbering by
      numbers issued. */
  lemma NumberedAfterDeleteSucceeds(req: CreateRequest, year: nat, month: nat)
    requires Acceptable(req)
    requires year >= 10 && 1 <= month <= 12
    ensures var s0 := Shop([], map[], 0);
      var s1 := CreateInvoiceNumbered(s0, req, 1, year, month);
      var s2 := CreateInvoiceNumbered(s1.next, req, 2, year, month);
      var s3 := DeleteInvoice(s2.next, 1);
      var s4 := CreateInvoiceNumbered(s3.next, req, 3, year, month);
      s4.result.Ok?
  {
    var s0 := Shop([], map[], 0);
    NumberedCreatePreserves(s0, req, 1, year, month);
    var s1 := CreateInvoiceNumbered(s0, req, 1, year, month);
    NumberedCreatePreserves(s1.next, req, 2, year, month);
    var s2 := CreateInvoiceNumbered(s1.next, req, 2, year, month);
    DeletePreservesNumbering(s2.next, 1);
    var s3 := DeleteInvoice(s2.next, 1);
    NumberedCreateOkIff(s3.next, req, 3, year, month);
    assert 3 !in s3.next.invoices by {
      assert s3.next.invoices.Keys <= s2.next.invoices.Keys;
      assert s2.next.invoices.Keys <= {1, 2};
    }
  }
}

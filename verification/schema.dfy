/** The records of the invoice schema and the bounds the schema enforces when an invoice is
    written: the line-item sub-schema (name required, quantity at least 1, unit price and
    line total at least 0) and the invoice schema (number required, discount between 0 and
    100, the other amounts at least 0, payment status and method from fixed lists). */
module Schema {
  import opened Outcomes

  /** One priced row of an invoice, as the client sends it and as it is stored. */
  datatype LineItem = LineItem(name: string, quantity: int, unitPrice: real, total: real)

  /** The customer sub-document embedded in an invoice. */
  datatype Customer = Customer(name: string, phone: string, address: string)

  /** A stored invoice. `taxableAmount` is computed by the create handler but not stored. */
  datatype Invoice = Invoice(
    invoiceNumber: string,
    vin: string,
    yearModel: string,
    customer: Customer,
    items: seq<LineItem>,
    subtotal: real,
    discount: real,
    discountAmount: real,
    tax: real,
    taxAmount: real,
    deposit: real,
    refundAmount: real,
    refundReason: string,
    grandTotal: real,
    notes: string,
    paymentStatus: string,
    paymentMethod: string)

  const PaymentStatuses: set<string> := {"Paid", "Unpaid"}
  const PaymentMethods: set<string> := {"Cash", "Card", "Cheque"}
  const DefaultPaymentStatus: string := "Paid"
  const DefaultPaymentMethod: string := "Cash"

  /** A required string field rejects the empty string. */
  predicate Present(s: string) {
    s != ""
  }

  predicate ValidLineItem(item: LineItem) {
    && Present(item.name)
    && item.quantity >= 1
    && item.unitPrice >= 0.0
    && item.total >= 0.0
  }

  predicate ValidLineItems(items: seq<LineItem>) {
    forall i :: 0 <= i < |items| ==> ValidLineItem(items[i])
  }

  predicate ValidInvoice(inv: Invoice) {
    && Present(inv.invoiceNumber)
    && ValidLineItems(inv.items)
    && inv.subtotal >= 0.0
    && 0.0 <= inv.discount <= 100.0
    && inv.discountAmount >= 0.0
    && inv.tax >= 0.0
    && inv.taxAmount >= 0.0
    && inv.deposit >= 0.0
    && inv.refundAmount >= 0.0
    && inv.grandTotal >= 0.0
    && inv.paymentStatus in PaymentStatuses
    && inv.paymentMethod in PaymentMethods
  }

  /** An enum field left out of the request takes the schema default; one that is given is
      kept as sent, to be checked against the enum at write time. */
  function OrDefault(given: Option<string>, default: string): string {
    match given
    case Some(s) => s
    case None => default
  }

  /** The defaults of the two payment enums belong to their enums, so a request that leaves
      them out never fails on them, and one that gives them passes exactly when it names an
      enum member. */
  lemma DefaultsAreValid(status: Option<string>, payMethod: Option<string>)
    ensures OrDefault(status, DefaultPaymentStatus) in PaymentStatuses
            <==> status.None? || status.value in PaymentStatuses
    ensures OrDefault(payMethod, DefaultPaymentMethod) in PaymentMethods
            <==> payMethod.None? || payMethod.value in PaymentMethods
  {
  }
}

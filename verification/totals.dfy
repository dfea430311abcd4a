/** The total calculator of the invoice create handler: the subtotal is the sum of the line
    totals as supplied (quantity and unit price are not consulted), the discount and tax are
    simple percentages of the preceding stage, and the grand total subtracts deposit and
    refund without clamping. Amounts are exact reals: no floating-point rounding. */
module Totals {
  import opened Schema

  /** The five derived amounts. */
  datatype Totals = Totals(
    subtotal: real,
    discountAmount: real,
    taxableAmount: real,
    taxAmount: real,
    grandTotal: real)

  /** The sum of the line totals. */
  function Subtotal(items: seq<LineItem>): real {
    if |items| == 0 then 0.0 else items[0].total + Subtotal(items[1..])
  }

  /** The amounts the create handler derives from the line items and the four percentages
      and adjustments of the request. */
  function Compute(items: seq<LineItem>, discount: real, tax: real, deposit: real,
                   refundAmount: real): Totals
  {
    var subtotal := Subtotal(items);
    var discountAmount := subtotal * (discount / 100.0);
    var taxableAmount := subtotal - discountAmount;
    var taxAmount := taxableAmount * (tax / 100.0);
    Totals(subtotal, discountAmount, taxableAmount, taxAmount,
           taxableAmount + taxAmount - deposit - refundAmount)
  }

  /** A stored invoice whose subtotal, discount amount, tax amount and grand total are the
      calculator's output for its own line items, percentages, deposit and refund. */
  predicate TotalsConsistent(inv: Invoice) {
    var t := Compute(inv.items, inv.discount, inv.tax, inv.deposit, inv.refundAmount);
    && inv.subtotal == t.subtotal
    && inv.discountAmount == t.discountAmount
    && inv.taxAmount == t.taxAmount
    && inv.grandTotal == t.grandTotal
  }

  /** The sum over a concatenation is the sum of the sums. */
  lemma {:induction false} SubtotalAppend(a: seq<LineItem>, b: seq<LineItem>)
    ensures Subtotal(a + b) == Subtotal(a) + Subtotal(b)
    decreases |a|
  {
    if |a| > 0 {
      assert (a + b)[1..] == a[1..] + b;
      SubtotalAppend(a[1..], b);
    } else {
      assert a + b == b;
    }
  }

  /** The handler's `items.reduce((sum, item) => sum + item.total, 0)`: a left-to-right
      accumulation that yields the sum of the line totals, 0 for no items. */
  method ReduceSubtotal(items: seq<LineItem>) returns (sum: real)
    ensures sum == Subtotal(items)
    ensures |items| == 0 ==> sum == 0.0
  {
    sum := 0.0;
    var i := 0;
    while i < |items|
      invariant 0 <= i <= |items|
      invariant sum == Subtotal(items[..i])
    {
      SubtotalAppend(items[..i], [items[i]]);
      assert items[..i + 1] == items[..i] + [items[i]];
      sum := sum + items[i].total;
      i := i + 1;
    }
    assert items[..i] == items;
  }

  /** The subtotal depends only on the supplied line totals, not on quantities, unit prices
      or names. */
  lemma {:induction false} SubtotalOnlyReadsTotals(a: seq<LineItem>, b: seq<LineItem>)
    requires |a| == |b|
    requires forall i :: 0 <= i < |a| ==> a[i].total == b[i].total
    ensures Subtotal(a) == Subtotal(b)
    decreases |a|
  {
    if |a| > 0 {
      SubtotalOnlyReadsTotals(a[1..], b[1..]);
    }
  }

  /** Line items that pass the schema have a non-negative subtotal. */
  lemma {:induction false} SubtotalNonNegative(items: seq<LineItem>)
    requires ValidLineItems(items)
    ensures Subtotal(items) >= 0.0
    decreases |items|
  {
    if |items| > 0 {
      SubtotalNonNegative(items[1..]);
    }
  }

  /** The discount splits the subtotal into the discount amount and the taxable amount;
      no discount takes nothing off, and a full discount leaves nothing taxable. */
  lemma DiscountSplitsSubtotal(items: seq<LineItem>, discount: real, tax: real,
                               deposit: real, refundAmount: real)
    ensures var t := Compute(items, discount, tax, deposit, refundAmount);
      && t.subtotal == Subtotal(items)
      && t.taxableAmount + t.discountAmount == t.subtotal
      && (discount == 0.0 ==> t.discountAmount == 0.0 && t.taxableAmount == t.subtotal)
      && (discount == 100.0 ==> t.discountAmount == t.subtotal && t.taxableAmount == 0.0)
  {
  }

  /** With a non-negative subtotal, a discount in [0, 100] and a non-negative tax rate, the
      discount and taxable amounts lie between 0 and the subtotal and the tax is not
      negative. */
  lemma TotalsBounds(items: seq<LineItem>, discount: real, tax: real, deposit: real,
                     refundAmount: real)
    requires Subtotal(items) >= 0.0
    requires 0.0 <= discount <= 100.0 && tax >= 0.0
    ensures var t := Compute(items, discount, tax, deposit, refundAmount);
      && 0.0 <= t.discountAmount <= t.subtotal
      && 0.0 <= t.taxableAmount <= t.subtotal
      && t.taxAmount >= 0.0
  {
    var s := Subtotal(items);
    ScaleBounds(s, discount / 100.0);
    NonNegativeProduct(s - s * (discount / 100.0), tax / 100.0);
  }

  lemma ScaleBounds(x: real, f: real)
    requires x >= 0.0 && 0.0 <= f <= 1.0
    ensures 0.0 <= x * f <= x
  {
    assert x * f <= x * 1.0;
  }

  lemma NonNegativeProduct(x: real, y: real)
    requires x >= 0.0 && y >= 0.0
    ensures x * y >= 0.0
  {
  }

  /** The grand total is the taxed amount less deposit and refund, each taken off one for
      one: raising the deposit or the refund by `x` lowers the grand total by exactly `x`,
      with no clamping at zero. */
  lemma GrandTotalLinear(items: seq<LineItem>, discount: real, tax: real, deposit: real,
                         refundAmount: real, x: real)
    ensures var t := Compute(items, discount, tax, deposit, refundAmount);
      && t.grandTotal == t.taxableAmount + t.taxAmount - deposit - refundAmount
      && Compute(items, discount, tax, deposit + x, refundAmount).grandTotal == t.grandTotal - x
      && Compute(items, discount, tax, deposit, refundAmount + x).grandTotal == t.grandTotal - x
  {
  }

  /** Two units at 50.00 with a 10% discount, 8% tax and a 20.00 deposit come to 77.20. */
  lemma WorkedExample()
    ensures Compute([LineItem("Brake pad", 2, 50.0, 100.0)], 10.0, 8.0, 20.0, 0.0)
            == Totals(100.0, 10.0, 90.0, 7.2, 77.2)
  {
  }

  /** With no items and a 15.00 refund the grand total is -15.00: the calculator does not
      clamp. */
  lemma RefundOnlyExample()
    ensures Compute([], 0.0, 8.0, 0.0, 15.0).grandTotal == -15.0
  {
  }
}

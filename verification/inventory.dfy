/** The inventory adjuster of the invoice routes. Creating an invoice walks its line items
    in order, finds the first catalog record with the line's name and lowers its quantity by
    the line's quantity; deleting an invoice walks the stored line items the same way and
    raises the quantities back. Lines whose name matches no record are skipped. */
module Inventory {
  import opened Outcomes
  import opened Schema
  import opened Items

  /** Which of the two loops runs: the create loop takes stock, the delete loop returns it. */
  datatype Direction = Take | Return

  function Signed(dir: Direction, quantity: int): int {
    match dir
    case Take => -quantity
    case Return => quantity
  }

  /** Two catalogs hold the same records apart from the on-hand quantities. */
  predicate SameRecords(c: Catalog, d: Catalog) {
    && |c| == |d|
    && forall j :: 0 <= j < |c| ==>
         c[j].id == d[j].id && c[j].name == d[j].name && c[j].unitPrice == d[j].unitPrice
  }

  /** One iteration of either loop: the record `findOne({ name })` returns has its quantity
      moved by `delta`; when there is none, nothing changes. */
  function AdjustByName(c: Catalog, name: string, delta: int): (r: Catalog)
    ensures SameRecords(c, r)
    ensures forall j :: 0 <= j < |c| ==>
      r[j].quantity == c[j].quantity + (if FindByName(c, name) == Some(j) then delta else 0)
  {
    match FindByName(c, name)
    case None => c
    case Some(i) => c[i := c[i].(quantity := c[i].quantity + delta)]
  }

  /** Either loop over `lines`, first line first. */
  function Sweep(c: Catalog, lines: seq<LineItem>, dir: Direction): (r: Catalog)
    ensures SameRecords(c, r)
    decreases |lines|
  {
    if |lines| == 0 then c
    else Sweep(AdjustByName(c, lines[0].name, Signed(dir, lines[0].quantity)), lines[1..], dir)
  }

  /** The create handler's stock loop. */
  function Decrement(c: Catalog, lines: seq<LineItem>): Catalog {
    Sweep(c, lines, Take)
  }

  /** The delete handler's stock loop. */
  function Restore(c: Catalog, lines: seq<LineItem>): Catalog {
    Sweep(c, lines, Return)
  }

  /** The total quantity of the lines whose name lookup in `c` lands on record `i`. */
  function Routed(c: Catalog, lines: seq<LineItem>, i: nat): int
    decreases |lines|
  {
    if |lines| == 0 then 0
    else (if FindByName(c, lines[0].name) == Some(i) then lines[0].quantity else 0)
         + Routed(c, lines[1..], i)
  }

  /** The total quantity of the lines carrying `name`. */
  function QuantityNamed(lines: seq<LineItem>, name: string): int
    decreases |lines|
  {
    if |lines| == 0 then 0
    else (if lines[0].name == name then lines[0].quantity else 0) + QuantityNamed(lines[1..], name)
  }

  /** Lookups by name only see names, so they agree on catalogs with the same records. */
  lemma SameRecordsFind(c: Catalog, d: Catalog, name: string)
    requires SameRecords(c, d)
    ensures FindByName(c, name) == FindByName(d, name)
  {
    var fc, fd := FindByName(c, name), FindByName(d, name);
    if fc.Some? {
      assert d[fc.value].name == name;
    }
    if fd.Some? {
      assert c[fd.value].name == name;
    }
  }

  lemma {:induction false} RoutedSameRecords(c: Catalog, d: Catalog, lines: seq<LineItem>, i: nat)
    requires SameRecords(c, d)
    ensures Routed(c, lines, i) == Routed(d, lines, i)
    decreases |lines|
  {
    if |lines| > 0 {
      SameRecordsFind(c, d, lines[0].name);
      RoutedSameRecords(c, d, lines[1..], i);
    }
  }

  /** Catalogs with the same records and the same quantities are equal. */
  lemma SameRecordsEqual(c: Catalog, d: Catalog)
    requires SameRecords(c, d)
    requires forall j :: 0 <= j < |c| ==> c[j].quantity == d[j].quantity
    ensures c == d
  {
    assert forall j :: 0 <= j < |c| ==> c[j] == d[j];
  }

  /** Accounting of either loop: every record's quantity moves by the total quantity of the
      lines routed to it, and nothing else about the catalog changes. */
  lemma {:induction false} SweepQuantities(c: Catalog, lines: seq<LineItem>, dir: Direction)
    ensures SameRecords(c, Sweep(c, lines, dir))
    ensures forall j :: 0 <= j < |c| ==>
      Sweep(c, lines, dir)[j].quantity == c[j].quantity + Signed(dir, Routed(c, lines, j))
    decreases |lines|
  {
    if |lines| > 0 {
      var c' := AdjustByName(c, lines[0].name, Signed(dir, lines[0].quantity));
      SweepQuantities(c', lines[1..], dir);
      forall j | 0 <= j < |c|
        ensures Sweep(c, lines, dir)[j].quantity == c[j].quantity + Signed(dir, Routed(c, lines, j))
      {
        RoutedSameRecords(c, c', lines[1..], j);
      }
    }
  }

  /** Deleting an invoice puts back exactly what creating it took: restoring the same line
      items right after decrementing them gives the original catalog. */
  lemma RestoreUndoesDecrement(c: Catalog, lines: seq<LineItem>)
    ensures Restore(Decrement(c, lines), lines) == c
  {
    var d := Decrement(c, lines);
    SweepQuantities(c, lines, Take);
    SweepQuantities(d, lines, Return);
    forall j | 0 <= j < |c|
      ensures Restore(d, lines)[j].quantity == c[j].quantity
    {
      RoutedSameRecords(c, d, lines, j);
    }
    SameRecordsEqual(Restore(d, lines), c);
  }

  /** Deleting an invoice returns exactly what creating it took even when other stock
      changes happened in between, provided the catalog still holds the same records (same
      order, ids, names and prices). */
  lemma RestoreReturnsWhatDecrementTook(c: Catalog, d: Catalog, lines: seq<LineItem>)
    requires SameRecords(c, d)
    ensures SameRecords(d, Restore(d, lines))
    ensures forall j :: 0 <= j < |c| ==>
      Restore(d, lines)[j].quantity == d[j].quantity + (c[j].quantity - Decrement(c, lines)[j].quantity)
  {
    SweepQuantities(c, lines, Take);
    SweepQuantities(d, lines, Return);
    forall j | 0 <= j < |c|
      ensures Restore(d, lines)[j].quantity == d[j].quantity + (c[j].quantity - Decrement(c, lines)[j].quantity)
    {
      RoutedSameRecords(c, d, lines, j);
    }
  }

  /** The proviso matters: when a record with a line's name is created between the invoice's
      creation and its deletion, the deletion adds stock that the creation never took. */
  lemma NewRecordBreaksRoundTrip(line: LineItem, id: ItemId, unitPrice: real, quantity: int)
    requires line.quantity != 0 && line.name != ""
    ensures var created := Decrement([], [line]);
      var added := CreateItem(created, id, line.name, unitPrice, quantity);
      && created == []
      && added.next == [CatalogItem(id, line.name, unitPrice, quantity)]
      && Restore(added.next, [line]) == [CatalogItem(id, line.name, unitPrice, quantity + line.quantity)]
  {
    var item := CatalogItem(id, line.name, unitPrice, quantity);
    assert [line][1..] == [];
    assert Decrement([], [line]) == [];
    assert CreateItem([], id, line.name, unitPrice, quantity).next == [item];
    OneLineSweep(item, line, Return);
  }

  /** One line naming the only record of a one-record catalog moves its quantity. */
  lemma OneLineSweep(item: CatalogItem, line: LineItem, dir: Direction)
    requires item.name == line.name
    ensures Sweep([item], [line], dir) == [item.(quantity := item.quantity + Signed(dir, line.quantity))]
  {
    assert FindByName([item], line.name) == Some(0);
    assert [line][1..] == [];
  }

  /** The stock loops of different invoices commute: the catalog after two creations or
      deletions does not depend on their order. */
  lemma SweepsCommute(c: Catalog, a: seq<LineItem>, da: Direction, b: seq<LineItem>, db: Direction)
    ensures Sweep(Sweep(c, a, da), b, db) == Sweep(Sweep(c, b, db), a, da)
  {
    var ca, cb := Sweep(c, a, da), Sweep(c, b, db);
    SweepQuantities(c, a, da);
    SweepQuantities(c, b, db);
    SweepQuantities(ca, b, db);
    SweepQuantities(cb, a, da);
    forall j | 0 <= j < |c|
      ensures Sweep(ca, b, db)[j].quantity == Sweep(cb, a, da)[j].quantity
    {
      RoutedSameRecords(c, ca, b, j);
      RoutedSameRecords(c, cb, a, j);
    }
    SameRecordsEqual(Sweep(ca, b, db), Sweep(cb, a, da));
  }

  /** When the catalog's names are unique, the lines routed to a record are exactly those
      carrying its name. */
  lemma {:induction false} RoutedByName(c: Catalog, lines: seq<LineItem>, i: nat)
    requires UniqueNames(c) && i < |c|
    ensures Routed(c, lines, i) == QuantityNamed(lines, c[i].name)
    decreases |lines|
  {
    if |lines| > 0 {
      RoutedByName(c, lines[1..], i);
      if lines[0].name == c[i].name {
        FindByNameUnique(c, i);
      }
    }
  }

  /** Creating an invoice lowers each catalog record by the summed quantity of the lines
      carrying its name (repeated names accumulate); records that no line names keep their
      quantity, and ids, names and prices are untouched. */
  lemma DecrementByName(c: Catalog, lines: seq<LineItem>)
    requires UniqueNames(c)
    ensures SameRecords(c, Decrement(c, lines))
    ensures forall j :: 0 <= j < |c| ==>
      Decrement(c, lines)[j].quantity == c[j].quantity - QuantityNamed(lines, c[j].name)
  {
    SweepQuantities(c, lines, Take);
    forall j | 0 <= j < |c|
      ensures Decrement(c, lines)[j].quantity == c[j].quantity - QuantityNamed(lines, c[j].name)
    {
      RoutedByName(c, lines, j);
    }
  }

  /** Whatever the catalog's names, a record that no line names is left exactly as it was. */
  lemma {:induction false} UnnamedRecordsUnchanged(c: Catalog, lines: seq<LineItem>, dir: Direction, j: nat)
    requires j < |c|
    requires forall k :: 0 <= k < |lines| ==> lines[k].name != c[j].name
    ensures Sweep(c, lines, dir)[j] == c[j]
  {
    SweepQuantities(c, lines, dir);
    RoutedUnnamed(c, lines, j);
  }

  lemma {:induction false} RoutedUnnamed(c: Catalog, lines: seq<LineItem>, j: nat)
    requires j < |c|
    requires forall k :: 0 <= k < |lines| ==> lines[k].name != c[j].name
    ensures Routed(c, lines, j) == 0
    decreases |lines|
  {
    if |lines| > 0 {
      RoutedUnnamed(c, lines[1..], j);
    }
  }

  /** A line whose name matches no catalog record is skipped: it changes nothing. */
  lemma SkipsUnmatchedLine(c: Catalog, line: LineItem, rest: seq<LineItem>, dir: Direction)
    requires forall j :: 0 <= j < |c| ==> c[j].name != line.name
    ensures Sweep(c, [line] + rest, dir) == Sweep(c, rest, dir)
  {
    assert ([line] + rest)[1..] == rest;
  }

  /** The names the catalog holds. */
  function Names(c: Catalog): set<string> {
    set j | 0 <= j < |c| :: c[j].name
  }

  lemma SameRecordsNames(c: Catalog, d: Catalog)
    requires SameRecords(c, d)
    ensures Names(c) == Names(d)
  {
    forall n | n in Names(c)
      ensures n in Names(d)
    {
      var j :| 0 <= j < |c| && c[j].name == n;
      assert d[j].name == n;
    }
    forall n | n in Names(d)
      ensures n in Names(c)
    {
      var j :| 0 <= j < |d| && d[j].name == n;
      assert c[j].name == n;
    }
  }

  /** The catalog as the invoice routes see it: each name mapped to the on-hand quantity of
      the record a lookup by that name finds. */
  function Stock(c: Catalog): (m: map<string, int>)
    ensures m.Keys == Names(c)
    ensures forall j :: 0 <= j < |c| ==> c[j].name in m
  {
    map n | n in Names(c) :: c[FindByName(c, n).value].quantity
  }

  /** `m` with each name's quantity lowered by the summed quantity of the lines carrying it. */
  function Lowered(m: map<string, int>, lines: seq<LineItem>): (r: map<string, int>)
    ensures r.Keys == m.Keys
    ensures forall n :: n in m ==> r[n] == m[n] - QuantityNamed(lines, n)
  {
    map n | n in m :: m[n] - QuantityNamed(lines, n)
  }

  lemma MapsAgree(a: map<string, int>, b: map<string, int>)
    requires a.Keys == b.Keys
    requires forall n :: n in a ==> a[n] == b[n]
    ensures a == b
  {
  }

  /** On the name-to-quantity view: creating an invoice keeps the set of names and lowers
      each name's stock by the summed quantity of the lines carrying it. */
  lemma StockAfterDecrement(c: Catalog, lines: seq<LineItem>)
    requires UniqueNames(c)
    ensures Stock(Decrement(c, lines)) == Lowered(Stock(c), lines)
  {
    var d := Decrement(c, lines);
    SameRecordsNames(c, d);
    var lhs, rhs := Stock(d), Lowered(Stock(c), lines);
    forall n | n in lhs
      ensures lhs[n] == rhs[n]
    {
      StockOfName(c, lines, n);
    }
    MapsAgree(lhs, rhs);
  }

  lemma StockOfName(c: Catalog, lines: seq<LineItem>, n: string)
    requires UniqueNames(c) && n in Names(c)
    ensures n in Stock(Decrement(c, lines))
    ensures Stock(Decrement(c, lines))[n] == Stock(c)[n] - QuantityNamed(lines, n)
  {
    var d := Decrement(c, lines);
    SweepQuantities(c, lines, Take);
    SameRecordsNames(c, d);
    SameRecordsFind(c, d, n);
    var j := FindByName(c, n).value;
    RoutedByName(c, lines, j);
    assert Stock(d)[n] == d[j].quantity;
    assert Stock(c)[n] == c[j].quantity;
  }
}

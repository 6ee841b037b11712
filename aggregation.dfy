/** The row loop of the analysis: rows are grouped by raw product code into product records
    that collect line items, month buckets, a running total and a running minimum of days
    left, while counters account for every row. */
module Aggregation {
  import opened Common
  import opened Text
  import opened Numbers
  import opened Calendar
  import opened DateParser
  import opened Columns
  import opened Records
  import opened Totals

  /** One table row: header to cell. A header the row lacks makes a lookup fail. */
  type Row = map<string, Cell>

  /** `row[col]`; None where it raises KeyError. */
  function Lookup(row: Row, col: string): (r: Option<Cell>)
    ensures r.Some? <==> col in row
  {
    if col in row then Some(row[col]) else None
  }

  /** `row[col_mapping[f]] if col_mapping[f] else default`. */
  function Optional(row: Row, m: ColumnMapping, f: Field, default: Cell): (r: Option<Cell>)
    ensures m(f).None? ==> r == Some(default)
    ensures m(f).Some? ==> r == Lookup(row, m(f).value)
  {
    if m(f).Some? then Lookup(row, m(f).value) else Some(default)
  }

  /** The quantity of a row: a missing cell becomes NaN (`float('nan')`), an empty one 0,
      and otherwise the cell with its decimal comma turned into a point is read by `float()`,
      0 when that fails. */
  function ParseQuantity(cell: Cell): (r: Float)
    ensures cell.None? ==> r.NaN?
    ensures cell == Some("") ==> r == Zero
    ensures cell.Some? && cell.value != "" ==>
      r == (var f := ParseFloat(ReplaceChar(cell.value, ',', '.')); if f.Some? then f.value else Zero)
  {
    match cell
    case None => NaN
    case Some(s) =>
      if s == "" then Zero
      else
        match ParseFloat(ReplaceChar(s, ',', '.'))
        case Some(v) => v
        case None => Zero
  }

  /** A code the loop skips: missing, or empty once trimmed. */
  predicate BlankCode(code: Cell) {
    code.None? || Strip(code.value) == ""
  }

  /** `(dt_val - hoje).days` with `hoje` at midnight. */
  function DaysBetween(today: Date, d: Date): int
    requires ValidDate(today) && ValidDate(d)
  {
    DayNumber(d) - DayNumber(today)
  }

  /** The record a product's first row creates; None where a lookup fails. */
  function NewProduct(row: Row, m: ColumnMapping, code: string, qt: Float): (r: Option<Accumulated>)
    ensures r.Some? ==>
      && r.value.code == code && r.value.items == [] && r.value.buckets == []
      && r.value.total == Zero && r.value.minDays == Unbounded && r.value.originalQuantity == qt
    ensures m(Description).None? ==> r.None? || r.value.name == Some("Produto " + code)
    ensures m(Supplier).None? ==> r.None? || r.value.supplier == Some("Sem fornecedor")
  {
    var name := Optional(row, m, Description, Some("Produto " + code));
    var supplier := Optional(row, m, Supplier, Some("Sem fornecedor"));
    var supplierCode := Optional(row, m, SupplierCode, Some(""));
    var weight := Optional(row, m, NetWeight, Some(""));
    if name.Some? && supplier.Some? && supplierCode.Some? && weight.Some? then
      Some(Accumulated(code, name.value, supplier.value, supplierCode.value, weight.value,
                       [], Zero, Unbounded, qt, []))
    else None
  }

  /** The fields of a line item read from the row, in the order the item lists them. */
  const ItemFields: seq<Field> :=
    [Address, Depot, Street, Building, Level, Apartment, Status,
     Factor, Unit, Capacity, PalletTotal, TotalWeight, Stock]

  /** The cells of `fields`, each `''` when its column is unmapped; None as soon as one
      lookup fails. */
  function LookupAll(row: Row, m: ColumnMapping, fields: seq<Field>): (r: Option<seq<Cell>>)
    ensures r.Some? ==> |r.value| == |fields|
  {
    if fields == [] then Some([])
    else
      var first := Optional(row, m, fields[0], Some(""));
      var rest := LookupAll(row, m, fields[1..]);
      if first.None? then None
      else if rest.None? then None
      else Some([first.value] + rest.value)
  }

  /** The cells are those of the fields in order, and the lookups fail exactly when one of
      them does. */
  lemma {:induction false} LookupAllCells(row: Row, m: ColumnMapping, fields: seq<Field>)
    ensures var r := LookupAll(row, m, fields);
      && (r.Some? ==> forall i :: 0 <= i < |fields| ==> Optional(row, m, fields[i], Some("")) == Some(r.value[i]))
      && (r.None? <==> exists i :: 0 <= i < |fields| && Optional(row, m, fields[i], Some("")).None?)
  {
    if fields != [] {
      LookupAllCells(row, m, fields[1..]);
      var r := LookupAll(row, m, fields);
      var rest := LookupAll(row, m, fields[1..]);
      if r.None? && Optional(row, m, fields[0], Some("")).Some? {
        var i :| 0 <= i < |fields[1..]| && Optional(row, m, fields[1..][i], Some("")).None?;
        assert Optional(row, m, fields[i + 1], Some("")).None?;
      }
      if r.Some? {
        forall i | 0 <= i < |fields| ensures Optional(row, m, fields[i], Some("")) == Some(r.value[i]) {
          if i > 0 {
            assert fields[i] == fields[1..][i - 1];
          }
        }
      }
      if exists i :: 0 <= i < |fields| && Optional(row, m, fields[i], Some("")).None? {
        var i :| 0 <= i < |fields| && Optional(row, m, fields[i], Some("")).None?;
        if i > 0 {
          assert fields[i] == fields[1..][i - 1];
        }
      }
    }
  }

  /** The line item of a row; None where a lookup fails. */
  function NewItem(row: Row, m: ColumnMapping, qt: Float, expiry: Date, days: int): (r: Option<Item>)
    ensures r.Some? ==> r.value.quantity == qt && r.value.expiry == expiry && r.value.daysLeft == days
  {
    var cells := LookupAll(row, m, ItemFields);
    if cells.None? then None
    else
      var c := cells.value;
      Some(Item(c[0], c[1], c[2], c[3], c[4], c[5], c[6], qt, expiry, days,
                c[7], c[8], c[9], c[10], c[11], c[12]))
  }

  // ---------------------------------------------------------------------------
  // Month buckets and the running minimum
  // ---------------------------------------------------------------------------

  /** The bucket is the one of `month`/`year`: the key `mes_ano`, `strftime('%m/%Y')`,
      which tells months apart exactly as the pair does. */
  predicate InMonth(b: Bucket, month: int, year: int) {
    b.month == month && b.year == year
  }

  /** Adds `qt` to the bucket of `month`/`year`, creating it at the end, with quantity 0 and
      the given days, when there is none; what it does to the other buckets is stated by
      `AggregationFacts.AddToBucketsSpec`. */
  function AddToBuckets(buckets: seq<Bucket>, month: nat, year: nat, qt: Float, days: int): (r: seq<Bucket>)
    ensures |r| == |buckets| || |r| == |buckets| + 1
  {
    if buckets == [] then [Bucket(month, year, Add(Zero, qt), days)]
    else if InMonth(buckets[0], month, year) then
      [buckets[0].(quantity := Add(buckets[0].quantity, qt))] + buckets[1..]
    else [buckets[0]] + AddToBuckets(buckets[1..], month, year, qt, days)
  }

  /** `if dias < menor: menor = dias`. */
  function Lower(e: Extended, days: int): (r: Extended)
    ensures r.Days?
    ensures r.n <= days && (e.Days? ==> r.n <= e.n)
    ensures r.n == days || (e.Days? && r.n == e.n)
  {
    if e.Unbounded? || days < e.n then Days(days) else e
  }

  /** A row's item added to its product: appended to the items, added to its month's
      bucket, to the total, and to the minimum. */
  function AddItem(p: Accumulated, item: Item): (r: Accumulated)
    requires ValidDate(item.expiry)
    ensures r.items == p.items + [item]
    ensures r.code == p.code && r.name == p.name && r.supplier == p.supplier
    ensures r.supplierCode == p.supplierCode && r.netWeight == p.netWeight
    ensures r.originalQuantity == p.originalQuantity
  {
    p.(items := p.items + [item],
       buckets := AddToBuckets(p.buckets, item.expiry.month, item.expiry.year, item.quantity, item.daysLeft),
       total := Add(p.total, item.quantity),
       minDays := Lower(p.minDays, item.daysLeft))
  }

  // ---------------------------------------------------------------------------
  // The loop as a fold over rows
  // ---------------------------------------------------------------------------

  /** The loop's state: the product records, their codes in first-seen order (the order of
      the dictionary), and the counters. */
  datatype State = State(products: map<string, Accumulated>, order: seq<string>, stats: Stats)

  function Start(totalRows: nat): State {
    State(map[], [], Stats(totalRows, 0, 0, 0))
  }

  /** The column mapping has passed the mandatory check. */
  predicate Mandatory(m: ColumnMapping) {
    m(ProductCode).Some? && m(ExpiryDate).Some?
  }

  function Skip(st: State): State {
    st.(stats := st.stats.(ignored := st.stats.ignored + 1))
  }

  /** One pass of the loop body over `row`. A date whose parsing raises OverflowError is
      caught by the handler around the whole body, which counts the row as ignored only. */
  function Step(st: State, row: Row, m: ColumnMapping, today: Date): (r: State)
    requires Mandatory(m) && ValidDate(today)
    ensures r.stats.totalRows == st.stats.totalRows
    ensures r.stats.processed + r.stats.ignored == st.stats.processed + st.stats.ignored + 1
    ensures r.stats.invalidDates - st.stats.invalidDates <= r.stats.ignored - st.stats.ignored
    ensures r.stats.invalidDates >= st.stats.invalidDates
  {
    var code := Lookup(row, m(ProductCode).value);
    var qtCell := Optional(row, m, Quantity, Some("0"));
    var dateCell := Lookup(row, m(ExpiryDate).value);
    if code.None? || qtCell.None? || dateCell.None? then Skip(st)
    else if BlankCode(code.value) then Skip(st)
    else if ParseDateRaises(dateCell.value) then Skip(st)
    else Dated(st, row, m, code.value.value, ParseQuantity(qtCell.value), ParseDate(dateCell.value), today)
  }

  /** The loop body once the row has a code, given its quantity and its expiry date: an
      invalid date is counted, a valid one leads to the row's item. */
  function Dated(st: State, row: Row, m: ColumnMapping, c: string, qt: Float, date: Option<Date>, today: Date): (r: State)
    requires ValidDate(today) && (date.Some? ==> ValidDate(date.value))
    ensures r.stats.totalRows == st.stats.totalRows
    ensures r.stats.processed + r.stats.ignored == st.stats.processed + st.stats.ignored + 1
    ensures r.stats.invalidDates - st.stats.invalidDates <= r.stats.ignored - st.stats.ignored
    ensures r.stats.invalidDates >= st.stats.invalidDates
  {
    if date.None? then
      st.(stats := st.stats.(ignored := st.stats.ignored + 1, invalidDates := st.stats.invalidDates + 1))
    else Record(st, row, m, c, qt, date.value, DaysBetween(today, date.value))
  }

  /** The rest of the loop body once the row has a code and a valid expiry date: the product
      is created on its first row, then the row's item is added to it. */
  function Record(st: State, row: Row, m: ColumnMapping, c: string, qt: Float, expiry: Date, days: int): (r: State)
    requires ValidDate(expiry)
    ensures r.stats == st.stats.(processed := r.stats.processed, ignored := r.stats.ignored)
    ensures r.stats.processed + r.stats.ignored == st.stats.processed + st.stats.ignored + 1
  {
    var known := c in st.products;
    var record := if known then Some(st.products[c]) else NewProduct(row, m, c, qt);
    if record.None? then Skip(st)
    else
      var order := if known then st.order else st.order + [c];
      Append(State(st.products[c := record.value], order, st.stats), c, NewItem(row, m, qt, expiry, days))
  }

  /** The row's item, when its lookups succeeded, added to the product `c`. */
  function Append(st: State, c: string, item: Option<Item>): (r: State)
    requires c in st.products && (item.Some? ==> ValidDate(item.value.expiry))
    ensures r.stats == st.stats.(processed := r.stats.processed, ignored := r.stats.ignored)
    ensures r.stats.processed + r.stats.ignored == st.stats.processed + st.stats.ignored + 1
  {
    if item.None? then Skip(st)
    else
      st.(products := st.products[c := AddItem(st.products[c], item.value)],
          stats := st.stats.(processed := st.stats.processed + 1))
  }

  /** The state after the loop has gone through `rows` from `start`. */
  function Run(start: State, rows: seq<Row>, m: ColumnMapping, today: Date): State
    requires Mandatory(m) && ValidDate(today)
  {
    if rows == [] then start
    else Step(Run(start, rows[..|rows| - 1], m, today), rows[|rows| - 1], m, today)
  }

  /** The loop of the analysis over all rows, updating the dictionary of products and the
      counters in place. */
  method AggregateRows(rows: seq<Row>, m: ColumnMapping, today: Date) returns (st: State)
    requires Mandatory(m) && ValidDate(today)
    ensures st == Run(Start(|rows|), rows, m, today)
  {
    var products: map<string, Accumulated> := map[];
    var order: seq<string> := [];
    var processed, ignored, invalidDates := 0, 0, 0;
    for i := 0 to |rows|
      invariant State(products, order, Stats(|rows|, processed, ignored, invalidDates))
             == Run(Start(|rows|), rows[..i], m, today)
    {
      assert rows[..i + 1][..i] == rows[..i];
      products, order, processed, ignored, invalidDates :=
        ProcessRow(rows[i], m, today, products, order, |rows|, processed, ignored, invalidDates);
    }
    assert rows[..|rows|] == rows;
    st := State(products, order, Stats(|rows|, processed, ignored, invalidDates));
  }

  /** The body of the loop for one row. */
  method ProcessRow(row: Row, m: ColumnMapping, today: Date,
                    products0: map<string, Accumulated>, order0: seq<string>,
                    totalRows: nat, processed0: nat, ignored0: nat, invalidDates0: nat)
    returns (products: map<string, Accumulated>, order: seq<string>,
             processed: nat, ignored: nat, invalidDates: nat)
    requires Mandatory(m) && ValidDate(today)
    ensures State(products, order, Stats(totalRows, processed, ignored, invalidDates))
         == Step(State(products0, order0, Stats(totalRows, processed0, ignored0, invalidDates0)), row, m, today)
  {
    products, order := products0, order0;
    processed, ignored, invalidDates := processed0, ignored0, invalidDates0;
    ghost var st := State(products0, order0, Stats(totalRows, processed0, ignored0, invalidDates0));
    var code := Lookup(row, m(ProductCode).value);
    var qtCell := Optional(row, m, Quantity, Some("0"));
    var dateCell := Lookup(row, m(ExpiryDate).value);
    if code.None? || qtCell.None? || dateCell.None? {
      StepSkipped(st, row, m, today);
      ignored := ignored + 1;
      return;
    }
    if BlankCode(code.value) {
      StepSkipped(st, row, m, today);
      ignored := ignored + 1;
      return;
    }
    if ParseDateRaises(dateCell.value) {
      StepSkipped(st, row, m, today);
      ignored := ignored + 1;
      return;
    }
    StepReachesDated(st, row, m, today, code.value, qtCell.value, dateCell.value);
    var qt := ParseQuantity(qtCell.value);
    var date := ParseDate(dateCell.value);
    products, order, processed, ignored, invalidDates :=
      DatedRow(row, m, today, code.value.value, qt, date,
               products, order, totalRows, processed, ignored, invalidDates);
  }

  /** A row without the cells the loop reads, with a blank code or with a date whose parsing
      raises is skipped. */
  lemma StepSkipped(st: State, row: Row, m: ColumnMapping, today: Date)
    requires Mandatory(m) && ValidDate(today)
    requires var code := Lookup(row, m(ProductCode).value);
             var qtCell := Optional(row, m, Quantity, Some("0"));
             var dateCell := Lookup(row, m(ExpiryDate).value);
             code.None? || qtCell.None? || dateCell.None? || BlankCode(code.value) || ParseDateRaises(dateCell.value)
    ensures Step(st, row, m, today) == Skip(st)
  {
  }

  /** Any other row leads to the body after parsing, given its quantity and its date. */
  lemma StepReachesDated(st: State, row: Row, m: ColumnMapping, today: Date, code: Cell, qtCell: Cell, dateCell: Cell)
    requires Mandatory(m) && ValidDate(today)
    requires Lookup(row, m(ProductCode).value) == Some(code) && Optional(row, m, Quantity, Some("0")) == Some(qtCell)
    requires Lookup(row, m(ExpiryDate).value) == Some(dateCell)
    requires !BlankCode(code) && !ParseDateRaises(dateCell)
    ensures Step(st, row, m, today) == Dated(st, row, m, code.value, ParseQuantity(qtCell), ParseDate(dateCell), today)
  {
  }

  /** The loop body once the row has a code and its quantity and expiry date are read: an
      invalid date is counted. */
  method DatedRow(row: Row, m: ColumnMapping, today: Date, c: string, qt: Float, date: Option<Date>,
                  products0: map<string, Accumulated>, order0: seq<string>,
                  totalRows: nat, processed0: nat, ignored0: nat, invalidDates0: nat)
    returns (products: map<string, Accumulated>, order: seq<string>,
             processed: nat, ignored: nat, invalidDates: nat)
    requires ValidDate(today) && (date.Some? ==> ValidDate(date.value))
    ensures State(products, order, Stats(totalRows, processed, ignored, invalidDates))
         == Dated(State(products0, order0, Stats(totalRows, processed0, ignored0, invalidDates0)),
                  row, m, c, qt, date, today)
  {
    products, order := products0, order0;
    processed, ignored, invalidDates := processed0, ignored0, invalidDates0;
    if date.None? {
      invalidDates := invalidDates + 1;
      ignored := ignored + 1;
    } else {
      products, order, processed, ignored :=
        RecordRow(row, m, c, qt, date.value, DaysBetween(today, date.value),
                  products, order, totalRows, processed, ignored, invalidDates);
    }
  }

  /** The rest of the loop body: the product is created on its first row, then the row's
      item is added to it. */
  method RecordRow(row: Row, m: ColumnMapping, c: string, qt: Float, expiry: Date, days: int,
                   products0: map<string, Accumulated>, order0: seq<string>,
                   totalRows: nat, processed0: nat, ignored0: nat, invalidDates: nat)
    returns (products: map<string, Accumulated>, order: seq<string>, processed: nat, ignored: nat)
    requires ValidDate(expiry)
    ensures State(products, order, Stats(totalRows, processed, ignored, invalidDates))
         == Record(State(products0, order0, Stats(totalRows, processed0, ignored0, invalidDates)), row, m, c, qt, expiry, days)
  {
    products, order := products0, order0;
    processed, ignored := processed0, ignored0;
    var record: Option<Accumulated>;
    if c in products {
      record := Some(products[c]);
    } else {
      record := NewProduct(row, m, c, qt);
      if record.Some? {
        products := products[c := record.value];
        order := order + [c];
      }
    }
    if record.None? {
      ignored := ignored + 1;
      return;
    }
    products, processed, ignored :=
      AppendRow(c, NewItem(row, m, qt, expiry, days), products, order, totalRows, processed, ignored, invalidDates);
  }

  /** The row's item appended to its product, which now exists. */
  method AppendRow(c: string, item: Option<Item>,
                   products0: map<string, Accumulated>, order: seq<string>,
                   totalRows: nat, processed0: nat, ignored0: nat, invalidDates: nat)
    returns (products: map<string, Accumulated>, processed: nat, ignored: nat)
    requires c in products0 && (item.Some? ==> ValidDate(item.value.expiry))
    ensures State(products, order, Stats(totalRows, processed, ignored, invalidDates))
         == Append(State(products0, order, Stats(totalRows, processed0, ignored0, invalidDates)), c, item)
  {
    products, processed, ignored := products0, processed0, ignored0;
    if item.None? {
      ignored := ignored + 1;
    } else {
      products := products[c := AddItem(products[c], item.value)];
      processed := processed + 1;
    }
  }
}

/** What the row loop keeps true: every row is accounted for, product codes are listed once
    in first-seen order, and each product's total, month buckets and minimum are those its
    items determine. */
module AggregationFacts {
  import opened Common
  import opened Text
  import opened Numbers
  import opened Calendar
  import opened DateParser
  import opened DateFormats
  import opened Columns
  import opened Records
  import opened Totals
  import opened Aggregation

  // ---------------------------------------------------------------------------
  // Quantities
  // ---------------------------------------------------------------------------

  /** A decimal comma reads as a decimal point: a cell and the same cell with its commas
      made points give the same quantity. */
  lemma QuantityCommaTwin(s: string)
    ensures ParseQuantity(Some(s)) == ParseQuantity(Some(ReplaceChar(s, ',', '.')))
  {
    var t := ReplaceChar(s, ',', '.');
    assert ReplaceChar(t, ',', '.') == t;
  }

  /** A quantity of digits, a decimal point at `d` and digits has no comma to replace: it
      is what `float()` reads from the text as it stands, the value that
      Numbers.UnsignedDecimal and Numbers.FloatOfUnsigned give. With QuantityCommaTwin, the
      same holds for a decimal comma. */
  lemma QuantityOfDecimal(s: string, d: nat, v: Float)
    requires 0 < d < |s| - 1 && s[d] == '.' && AllDigits(s[..d]) && AllDigits(s[d + 1..])
    requires ParseFloat(s) == Some(v)
    ensures ParseQuantity(Some(s)) == v
  {
    assert ',' !in s by { DecimalPieces(s, d); }
    QuantityOfPlain(s, v);
  }

  /** A non-empty cell without a comma is read by `float()` as it stands. */
  lemma QuantityOfPlain(s: string, v: Float)
    requires s != "" && ',' !in s && ParseFloat(s) == Some(v)
    ensures ParseQuantity(Some(s)) == v
  {
  }

  // ---------------------------------------------------------------------------
  // What a product's items determine
  // ---------------------------------------------------------------------------

  function ItemQuantity(i: Item): Float { i.quantity }

  function BucketQuantity(b: Bucket): Float { b.quantity }

  predicate ItemsValid(items: seq<Item>) {
    forall i :: 0 <= i < |items| ==> ValidDate(items[i].expiry)
  }

  /** The month buckets that adding `items` one by one to no bucket produces. */
  function BucketsOf(items: seq<Item>): seq<Bucket>
    requires ItemsValid(items)
  {
    if items == [] then []
    else
      var last := items[|items| - 1];
      AddToBuckets(BucketsOf(items[..|items| - 1]), last.expiry.month, last.expiry.year, last.quantity, last.daysLeft)
  }

  /** The smallest days-left of `items`, unbounded when there is none. */
  function MinDays(items: seq<Item>): (r: Extended)
    ensures r.Unbounded? <==> items == []
    ensures r.Days? ==> (exists i :: 0 <= i < |items| && items[i].daysLeft == r.n)
                        && forall i :: 0 <= i < |items| ==> r.n <= items[i].daysLeft
  {
    if items == [] then Unbounded
    else Lower(MinDays(items[..|items| - 1]), items[|items| - 1].daysLeft)
  }

  /** Adding to the buckets changes only the first bucket of the item's month, which gains
      the quantity and keeps its days; without such a bucket a new one, 0 plus the quantity
      with the given days, is appended and the others stay as they were. */
  lemma AddToBucketsSpec(buckets: seq<Bucket>, month: nat, year: nat, qt: Float, days: int)
    ensures (forall i :: 0 <= i < |buckets| ==> !InMonth(buckets[i], month, year))
            ==> AddToBuckets(buckets, month, year, qt, days) == buckets + [Bucket(month, year, Add(Zero, qt), days)]
    ensures forall k ::
              (0 <= k < |buckets| && InMonth(buckets[k], month, year)
               && (forall i :: 0 <= i < k ==> !InMonth(buckets[i], month, year)))
              ==> AddToBuckets(buckets, month, year, qt, days)
                  == buckets[k := buckets[k].(quantity := Add(buckets[k].quantity, qt))]
  {
    if forall i :: 0 <= i < |buckets| ==> !InMonth(buckets[i], month, year) {
      AddToBucketsNew(buckets, month, year, qt, days);
    }
    forall k | 0 <= k < |buckets| && InMonth(buckets[k], month, year)
               && (forall i :: 0 <= i < k ==> !InMonth(buckets[i], month, year))
      ensures AddToBuckets(buckets, month, year, qt, days)
              == buckets[k := buckets[k].(quantity := Add(buckets[k].quantity, qt))]
    {
      AddToBucketsBump(buckets, month, year, qt, days, k);
    }
  }

  lemma {:induction false} AddToBucketsNew(buckets: seq<Bucket>, month: nat, year: nat, qt: Float, days: int)
    requires forall i :: 0 <= i < |buckets| ==> !InMonth(buckets[i], month, year)
    ensures AddToBuckets(buckets, month, year, qt, days) == buckets + [Bucket(month, year, Add(Zero, qt), days)]
    decreases |buckets|
  {
    if buckets != [] {
      var rest := buckets[1..];
      assert forall i :: 0 <= i < |rest| ==> rest[i] == buckets[i + 1];
      AddToBucketsNew(rest, month, year, qt, days);
      assert [buckets[0]] + (rest + [Bucket(month, year, Add(Zero, qt), days)])
          == buckets + [Bucket(month, year, Add(Zero, qt), days)];
    }
  }

  lemma {:induction false} AddToBucketsBump(buckets: seq<Bucket>, month: nat, year: nat, qt: Float, days: int, k: nat)
    requires k < |buckets| && InMonth(buckets[k], month, year)
    requires forall i :: 0 <= i < k ==> !InMonth(buckets[i], month, year)
    ensures AddToBuckets(buckets, month, year, qt, days)
            == buckets[k := buckets[k].(quantity := Add(buckets[k].quantity, qt))]
    decreases k
  {
    if k > 0 {
      var b := buckets[0];
      var rest := buckets[1..];
      assert buckets == [b] + rest;
      assert rest[k - 1] == buckets[k];
      assert forall i :: 0 <= i < k - 1 ==> rest[i] == buckets[i + 1];
      AddToBucketsBump(rest, month, year, qt, days, k - 1);
      BumpBehind(b, rest, k - 1, buckets[k].(quantity := Add(buckets[k].quantity, qt)));
    }
  }

  lemma BumpBehind(b: Bucket, rest: seq<Bucket>, k: nat, nb: Bucket)
    requires k < |rest|
    ensures [b] + rest[k := nb] == ([b] + rest)[k + 1 := nb]
  {
  }

  /** Adding to a bucket adds to the buckets' total. */
  lemma {:induction false} AddToBucketsTotal(buckets: seq<Bucket>, month: nat, year: nat, qt: Float, days: int)
    ensures SumOf(AddToBuckets(buckets, month, year, qt, days), BucketQuantity) == Add(SumOf(buckets, BucketQuantity), qt)
    decreases |buckets|
  {
    var r := AddToBuckets(buckets, month, year, qt, days);
    if buckets == [] {
      SumOfCons(Bucket(month, year, Add(Zero, qt), days), [], BucketQuantity);
      AddZero(qt);
    } else {
      var b := buckets[0];
      var rest := buckets[1..];
      assert buckets == [b] + rest;
      SumOfCons(b, rest, BucketQuantity);
      if b.month == month && b.year == year {
        SumOfCons(b.(quantity := Add(b.quantity, qt)), rest, BucketQuantity);
        AddAssociative(b.quantity, qt, SumOf(rest, BucketQuantity));
        AddCommutative(qt, SumOf(rest, BucketQuantity));
        AddAssociative(b.quantity, SumOf(rest, BucketQuantity), qt);
      } else {
        AddToBucketsTotal(rest, month, year, qt, days);
        SumOfCons(b, AddToBuckets(rest, month, year, qt, days), BucketQuantity);
        AddAssociative(b.quantity, SumOf(rest, BucketQuantity), qt);
      }
    }
  }

  /** The month buckets hold the items' total quantity. */
  lemma {:induction false} BucketsOfTotal(items: seq<Item>)
    requires ItemsValid(items)
    ensures SumOf(BucketsOf(items), BucketQuantity) == SumOf(items, ItemQuantity)
    decreases |items|
  {
    if items != [] {
      var init := items[..|items| - 1];
      var last := items[|items| - 1];
      BucketsOfTotal(init);
      AddToBucketsTotal(BucketsOf(init), last.expiry.month, last.expiry.year, last.quantity, last.daysLeft);
    }
  }

  predicate ItemInMonth(it: Item, month: nat, year: nat) {
    it.expiry.month == month && it.expiry.year == year
  }

  /** The items of `month`/`year`, in their order. */
  function MonthItems(items: seq<Item>, month: nat, year: nat): seq<Item> {
    if items == [] then []
    else
      var last := items[|items| - 1];
      MonthItems(items[..|items| - 1], month, year) + (if ItemInMonth(last, month, year) then [last] else [])
  }

  /** No two buckets share a month: the keys of the dictionary `vencimentos_por_mes`. */
  predicate DistinctMonths(bs: seq<Bucket>) {
    forall i, j :: 0 <= i < j < |bs| ==> !InMonth(bs[j], bs[i].month, bs[i].year)
  }

  /** Each bucket stands for the items of its month: it holds their quantities added in
      order and the days left of the first of them. */
  predicate BucketOfMonth(b: Bucket, items: seq<Item>) {
    var mi := MonthItems(items, b.month, b.year);
    mi != [] && b.quantity == SumOf(mi, ItemQuantity) && b.daysLeft == mi[0].daysLeft
  }

  /** Every item's month has a bucket. */
  predicate MonthsCovered(bs: seq<Bucket>, items: seq<Item>) {
    forall j :: 0 <= j < |items| ==> exists i :: 0 <= i < |bs| && InMonth(bs[i], items[j].expiry.month, items[j].expiry.year)
  }

  predicate BucketsMatch(bs: seq<Bucket>, items: seq<Item>) {
    && DistinctMonths(bs)
    && (forall i :: 0 <= i < |bs| ==> BucketOfMonth(bs[i], items))
    && MonthsCovered(bs, items)
  }

  /** The month buckets of a product's items have distinct months, one for each month of
      an item; each holds the sum of its month's quantities and the days left of the first
      item of its month. */
  lemma {:induction false} BucketsOfMonths(items: seq<Item>)
    requires ItemsValid(items)
    ensures BucketsMatch(BucketsOf(items), items)
    decreases |items|
  {
    if items != [] {
      var init := items[..|items| - 1];
      var last := items[|items| - 1];
      assert ItemsValid(init) by {
        forall i | 0 <= i < |init| ensures ValidDate(init[i].expiry) { assert init[i] == items[i]; }
      }
      BucketsOfMonths(init);
      var bs0 := BucketsOf(init);
      var month, year := last.expiry.month, last.expiry.year;
      AddToBucketsSpec(bs0, month, year, last.quantity, last.daysLeft);
      if k :| 0 <= k < |bs0| && InMonth(bs0[k], month, year) {
        assert forall i :: 0 <= i < k ==> !InMonth(bs0[i], month, year);
        BucketsBumped(bs0, items, k);
      } else {
        BucketsAppended(bs0, items);
      }
    }
  }

  lemma MonthItemsLast(items: seq<Item>, month: nat, year: nat)
    requires items != []
    ensures var last := items[|items| - 1];
      MonthItems(items, month, year)
      == MonthItems(items[..|items| - 1], month, year) + (if ItemInMonth(last, month, year) then [last] else [])
  {
  }

  lemma {:induction false} MonthItemsNone(items: seq<Item>, month: nat, year: nat)
    requires forall j :: 0 <= j < |items| ==> !ItemInMonth(items[j], month, year)
    ensures MonthItems(items, month, year) == []
    decreases |items|
  {
    if items != [] {
      var init := items[..|items| - 1];
      assert forall j :: 0 <= j < |init| ==> init[j] == items[j];
      MonthItemsNone(init, month, year);
    }
  }

  lemma SumOfLast(s: seq<Item>, x: Item)
    ensures SumOf(s + [x], ItemQuantity) == Add(SumOf(s, ItemQuantity), x.quantity)
  {
    assert (s + [x])[..|s|] == s;
  }

  /** A bucket of the last item's month gains its quantity. */
  lemma BucketGains(b: Bucket, items: seq<Item>)
    requires items != [] && BucketOfMonth(b, items[..|items| - 1])
    requires ItemInMonth(items[|items| - 1], b.month, b.year)
    ensures BucketOfMonth(b.(quantity := Add(b.quantity, items[|items| - 1].quantity)), items)
  {
    var mi := MonthItems(items[..|items| - 1], b.month, b.year);
    MonthItemsLast(items, b.month, b.year);
    assert MonthItems(items, b.month, b.year) == mi + [items[|items| - 1]];
    SumOfLast(mi, items[|items| - 1]);
  }

  /** A bucket of another month is left as it was. */
  lemma BucketKeeps(b: Bucket, items: seq<Item>)
    requires items != [] && BucketOfMonth(b, items[..|items| - 1])
    requires !ItemInMonth(items[|items| - 1], b.month, b.year)
    ensures BucketOfMonth(b, items)
  {
    MonthItemsLast(items, b.month, b.year);
    var mi := MonthItems(items[..|items| - 1], b.month, b.year);
    assert MonthItems(items, b.month, b.year) == mi + [] == mi;
  }

  /** Buckets that keep the months of the old ones, plus one of the last item's month,
      cover every item. */
  lemma MonthsCoveredGrow(bs0: seq<Bucket>, bs: seq<Bucket>, items: seq<Item>, k: nat)
    requires items != [] && MonthsCovered(bs0, items[..|items| - 1])
    requires |bs0| <= |bs| && k < |bs|
    requires forall i :: 0 <= i < |bs0| ==> bs[i].month == bs0[i].month && bs[i].year == bs0[i].year
    requires InMonth(bs[k], items[|items| - 1].expiry.month, items[|items| - 1].expiry.year)
    ensures MonthsCovered(bs, items)
  {
    var init := items[..|items| - 1];
    forall j | 0 <= j < |items|
      ensures exists i :: 0 <= i < |bs| && InMonth(bs[i], items[j].expiry.month, items[j].expiry.year)
    {
      if j < |init| {
        assert items[j] == init[j];
        var i :| 0 <= i < |bs0| && InMonth(bs0[i], init[j].expiry.month, init[j].expiry.year);
        assert InMonth(bs[i], items[j].expiry.month, items[j].expiry.year);
      } else {
        assert InMonth(bs[k], items[j].expiry.month, items[j].expiry.year);
      }
    }
  }

  /** The last item's month had a bucket: that bucket alone gains the item. */
  lemma BucketsBumped(bs0: seq<Bucket>, items: seq<Item>, k: nat)
    requires items != [] && ValidDate(items[|items| - 1].expiry) && k < |bs0|
    requires BucketsMatch(bs0, items[..|items| - 1])
    requires InMonth(bs0[k], items[|items| - 1].expiry.month, items[|items| - 1].expiry.year)
    ensures var last := items[|items| - 1];
      BucketsMatch(bs0[k := bs0[k].(quantity := Add(bs0[k].quantity, last.quantity))], items)
  {
    var init := items[..|items| - 1];
    var last := items[|items| - 1];
    var bs := bs0[k := bs0[k].(quantity := Add(bs0[k].quantity, last.quantity))];
    forall i | 0 <= i < |bs| ensures BucketOfMonth(bs[i], items) {
      if i == k {
        BucketGains(bs0[k], items);
      } else if i < k {
        assert !InMonth(bs0[k], bs0[i].month, bs0[i].year);
        BucketKeeps(bs0[i], items);
      } else {
        assert !InMonth(bs0[i], bs0[k].month, bs0[k].year);
        BucketKeeps(bs0[i], items);
      }
    }
    MonthsCoveredGrow(bs0, bs, items, k);
  }

  /** A month without a bucket has no items. */
  lemma UncoveredMonthEmpty(bs: seq<Bucket>, items: seq<Item>, month: nat, year: nat)
    requires MonthsCovered(bs, items)
    requires forall i :: 0 <= i < |bs| ==> !InMonth(bs[i], month, year)
    ensures MonthItems(items, month, year) == []
  {
    forall j | 0 <= j < |items| ensures !ItemInMonth(items[j], month, year) {
      var i :| 0 <= i < |bs| && InMonth(bs[i], items[j].expiry.month, items[j].expiry.year);
    }
    MonthItemsNone(items, month, year);
  }

  /** The last item's month had no bucket: a new one is appended for it. */
  lemma BucketsAppended(bs0: seq<Bucket>, items: seq<Item>)
    requires items != [] && ValidDate(items[|items| - 1].expiry)
    requires BucketsMatch(bs0, items[..|items| - 1])
    requires var last := items[|items| - 1];
      forall i :: 0 <= i < |bs0| ==> !InMonth(bs0[i], last.expiry.month, last.expiry.year)
    ensures var last := items[|items| - 1];
      BucketsMatch(bs0 + [Bucket(last.expiry.month, last.expiry.year, Add(Zero, last.quantity), last.daysLeft)], items)
  {
    var last := items[|items| - 1];
    var nb := Bucket(last.expiry.month, last.expiry.year, Add(Zero, last.quantity), last.daysLeft);
    AppendedBucketsOfMonth(bs0, items);
    AppendedDistinct(bs0, nb);
    MonthsCoveredGrow(bs0, bs0 + [nb], items, |bs0|);
  }

  lemma AppendedBucketsOfMonth(bs0: seq<Bucket>, items: seq<Item>)
    requires items != [] && ValidDate(items[|items| - 1].expiry)
    requires BucketsMatch(bs0, items[..|items| - 1])
    requires var last := items[|items| - 1];
      forall i :: 0 <= i < |bs0| ==> !InMonth(bs0[i], last.expiry.month, last.expiry.year)
    ensures var last := items[|items| - 1];
      var bs := bs0 + [Bucket(last.expiry.month, last.expiry.year, Add(Zero, last.quantity), last.daysLeft)];
      forall i :: 0 <= i < |bs| ==> BucketOfMonth(bs[i], items)
  {
    var init := items[..|items| - 1];
    var last := items[|items| - 1];
    var month, year := last.expiry.month, last.expiry.year;
    var bs := bs0 + [Bucket(month, year, Add(Zero, last.quantity), last.daysLeft)];
    UncoveredMonthEmpty(bs0, init, month, year);
    forall i | 0 <= i < |bs| ensures BucketOfMonth(bs[i], items) {
      if i == |bs0| {
        MonthItemsLast(items, month, year);
        assert MonthItems(items, month, year) == [] + [last];
        SumOfLast([], last);
      } else {
        assert bs[i] == bs0[i] && !InMonth(bs0[i], month, year);
        BucketKeeps(bs0[i], items);
      }
    }
  }

  lemma AppendedDistinct(bs0: seq<Bucket>, nb: Bucket)
    requires DistinctMonths(bs0)
    requires forall i :: 0 <= i < |bs0| ==> !InMonth(bs0[i], nb.month, nb.year)
    ensures DistinctMonths(bs0 + [nb])
  {
    var bs := bs0 + [nb];
    forall i, j | 0 <= i < j < |bs| ensures !InMonth(bs[j], bs[i].month, bs[i].year) {
      assert bs[i] == bs0[i];
      if j < |bs0| { assert bs[j] == bs0[j]; }
    }
  }

  // ---------------------------------------------------------------------------
  // The loop's invariant
  // ---------------------------------------------------------------------------

  /** A product record under code `c` agrees with its items. */
  predicate ProductOK(c: string, p: Accumulated, today: Date)
    requires ValidDate(today)
  {
    && p.code == c
    && ItemsValid(p.items)
    && p.buckets == BucketsOf(p.items)
    && p.total == SumOf(p.items, ItemQuantity)
    && p.minDays == MinDays(p.items)
    && (forall i :: 0 <= i < |p.items| ==> p.items[i].daysLeft == DaysBetween(today, p.items[i].expiry))
  }

  /** The codes are listed once each, exactly those with a record, and every record agrees
      with its items. */
  ghost predicate Consistent(st: State, today: Date)
    requires ValidDate(today)
  {
    && (forall i, j :: 0 <= i < j < |st.order| ==> st.order[i] != st.order[j])
    && (forall c :: c in st.products <==> c in st.order)
    && (forall c :: c in st.products ==> ProductOK(c, st.products[c], today))
  }

  lemma AddItemOK(c: string, p: Accumulated, item: Item, today: Date)
    requires ValidDate(today) && ProductOK(c, p, today)
    requires ValidDate(item.expiry) && item.daysLeft == DaysBetween(today, item.expiry)
    ensures ProductOK(c, AddItem(p, item), today)
  {
    var items := p.items + [item];
    assert items[..|items| - 1] == p.items;
    assert items[|items| - 1] == item;
  }

  lemma AppendConsistent(st: State, c: string, item: Option<Item>, today: Date)
    requires ValidDate(today) && Consistent(st, today) && c in st.products
    requires item.Some? ==> ValidDate(item.value.expiry) && item.value.daysLeft == DaysBetween(today, item.value.expiry)
    ensures Consistent(Append(st, c, item), today)
  {
    if item.Some? {
      AddItemOK(c, st.products[c], item.value, today);
    }
  }

  lemma RecordConsistent(st: State, row: Row, m: ColumnMapping, c: string, qt: Float, expiry: Date, today: Date)
    requires ValidDate(today) && ValidDate(expiry) && Consistent(st, today)
    ensures Consistent(Record(st, row, m, c, qt, expiry, DaysBetween(today, expiry)), today)
  {
    var item := NewItem(row, m, qt, expiry, DaysBetween(today, expiry));
    if c in st.products {
      assert st.products[c := st.products[c]] == st.products;
      AppendConsistent(st, c, item, today);
    } else {
      var record := NewProduct(row, m, c, qt);
      if record.Some? {
        CreateConsistent(st, c, record.value, today);
        AppendConsistent(State(st.products[c := record.value], st.order + [c], st.stats), c, item, today);
      }
    }
  }

  /** A new code is appended to the listing with a record that has no items. */
  lemma CreateConsistent(st: State, c: string, p: Accumulated, today: Date)
    requires ValidDate(today) && Consistent(st, today) && c !in st.products
    requires p.code == c && p.items == [] && p.buckets == [] && p.total == Zero && p.minDays == Unbounded
    ensures Consistent(State(st.products[c := p], st.order + [c], st.stats), today)
  {
  }

  lemma StepConsistent(st: State, row: Row, m: ColumnMapping, today: Date)
    requires Mandatory(m) && ValidDate(today) && Consistent(st, today)
    ensures Consistent(Step(st, row, m, today), today)
  {
    var code := Lookup(row, m(ProductCode).value);
    var qtCell := Optional(row, m, Quantity, Some("0"));
    var dateCell := Lookup(row, m(ExpiryDate).value);
    var r := Step(st, row, m, today);
    if code.Some? && qtCell.Some? && dateCell.Some? && !BlankCode(code.value) && !ParseDateRaises(dateCell.value) {
      var date := ParseDate(dateCell.value);
      var qt := ParseQuantity(qtCell.value);
      assert r == Dated(st, row, m, code.value.value, qt, date, today);
      if date.Some? {
        RecordConsistent(st, row, m, code.value.value, qt, date.value, today);
      } else {
        assert r.products == st.products && r.order == st.order;
      }
    } else {
      assert r == Skip(st);
    }
  }

  /** After any rows, the state is consistent. */
  lemma {:induction false} RunConsistent(n: nat, rows: seq<Row>, m: ColumnMapping, today: Date)
    requires Mandatory(m) && ValidDate(today)
    ensures Consistent(Run(Start(n), rows, m, today), today)
    decreases |rows|
  {
    if rows != [] {
      RunConsistent(n, rows[..|rows| - 1], m, today);
      StepConsistent(Run(Start(n), rows[..|rows| - 1], m, today), rows[|rows| - 1], m, today);
    }
  }

  /** Every row is either processed or ignored, and every invalid date is an ignored row. */
  lemma {:induction false} RunStats(n: nat, rows: seq<Row>, m: ColumnMapping, today: Date)
    requires Mandatory(m) && ValidDate(today)
    ensures var s := Run(Start(n), rows, m, today).stats;
      s.totalRows == n && s.processed + s.ignored == |rows| && s.invalidDates <= s.ignored
    decreases |rows|
  {
    if rows != [] {
      RunStats(n, rows[..|rows| - 1], m, today);
    }
  }

  // ---------------------------------------------------------------------------
  // Rows that are skipped, rows that are kept
  // ---------------------------------------------------------------------------

  /** A row with a missing or blank code, or with an expiry date that gives no date, raising
      or not, changes no product and is counted as ignored. */
  lemma StepSkipsRow(st: State, row: Row, m: ColumnMapping, today: Date)
    requires Mandatory(m) && ValidDate(today)
    requires var code := Lookup(row, m(ProductCode).value);
             var dateCell := Lookup(row, m(ExpiryDate).value);
             (code.Some? && BlankCode(code.value)) || (dateCell.Some? && ParseDate(dateCell.value).None?)
    ensures var r := Step(st, row, m, today);
      && r.products == st.products && r.order == st.order
      && r.stats.processed == st.stats.processed && r.stats.ignored == st.stats.ignored + 1
  {
  }

  /** A row whose date makes `parse_date` raise reaches the handler around the loop body:
      it is ignored, and it is not counted as an invalid date. */
  lemma StepOverflow(st: State, row: Row, m: ColumnMapping, today: Date)
    requires Mandatory(m) && ValidDate(today) && RowComplete(row, m)
    requires var code := Lookup(row, m(ProductCode).value);
             code.Some? && !BlankCode(code.value) && ParseDateRaises(row[m(ExpiryDate).value])
    ensures var r := Step(st, row, m, today);
      && r.products == st.products && r.order == st.order
      && r.stats == st.stats.(ignored := st.stats.ignored + 1)
  {
    assert Optional(row, m, Quantity, Some("0")).Some? by {
      assert m(Quantity).Some? ==> m(Quantity).value in row;
    }
    assert Step(st, row, m, today) == Skip(st);
  }

  /** A complete row with a code whose date reads as no date without raising is counted both
      as ignored and as an invalid date. */
  lemma StepInvalidDate(st: State, row: Row, m: ColumnMapping, today: Date)
    requires Mandatory(m) && ValidDate(today) && RowComplete(row, m)
    requires var code := Lookup(row, m(ProductCode).value);
             var cell := row[m(ExpiryDate).value];
             code.Some? && !BlankCode(code.value) && !ParseDateRaises(cell) && ParseDate(cell).None?
    ensures var r := Step(st, row, m, today);
      && r.products == st.products && r.order == st.order
      && r.stats == st.stats.(ignored := st.stats.ignored + 1, invalidDates := st.stats.invalidDates + 1)
  {
    assert m(Quantity).Some? ==> m(Quantity).value in row;
    var code := row[m(ProductCode).value];
    var qt := ParseQuantity(Optional(row, m, Quantity, Some("0")).value);
    DatedInvalid(st, row, m, code.value, qt, ParseDate(row[m(ExpiryDate).value]), today);
  }

  /** The loop body on a row whose date reads as no date. */
  lemma DatedInvalid(st: State, row: Row, m: ColumnMapping, c: string, qt: Float, date: Option<Date>, today: Date)
    requires ValidDate(today) && date.None?
    ensures var r := Dated(st, row, m, c, qt, date, today);
      && r.products == st.products && r.order == st.order
      && r.stats == st.stats.(ignored := st.stats.ignored + 1, invalidDates := st.stats.invalidDates + 1)
  {
  }

  /** Every column the mapping names is present in the row, as in a table read from a file. */
  predicate RowComplete(row: Row, m: ColumnMapping) {
    forall f :: m(f).Some? ==> m(f).value in row
  }

  lemma NewItemComplete(row: Row, m: ColumnMapping, qt: Float, expiry: Date, days: int)
    requires RowComplete(row, m)
    ensures NewItem(row, m, qt, expiry, days).Some?
  {
    LookupAllCells(row, m, ItemFields);
  }

  /** A complete row with a code and a valid expiry date is processed: the product of its
      raw code gains one item at the end, carrying the row's quantity, whatever that reads
      as, and the date's days left. */
  lemma StepKeepsRow(st: State, row: Row, m: ColumnMapping, today: Date, c: string, expiry: Date)
    requires Mandatory(m) && ValidDate(today) && RowComplete(row, m)
    requires Lookup(row, m(ProductCode).value) == Some(Some(c)) && Strip(c) != ""
    requires ParseDate(row[m(ExpiryDate).value]) == Some(expiry)
    ensures var r := Step(st, row, m, today);
      && r.stats.processed == st.stats.processed + 1
      && r.stats.ignored == st.stats.ignored
      && c in r.products && r.products == st.products[c := r.products[c]]
      && |r.products[c].items| == (if c in st.products then |st.products[c].items| else 0) + 1
      && var item := r.products[c].items[|r.products[c].items| - 1];
         item.quantity == ParseQuantity(if m(Quantity).Some? then row[m(Quantity).value] else Some("0"))
         && item.expiry == expiry && item.daysLeft == DaysBetween(today, expiry)
  {
    var qt := ParseQuantity(Optional(row, m, Quantity, Some("0")).value);
    var days := DaysBetween(today, expiry);
    StepIsRecord(st, row, m, today, c, expiry);
    NewItemComplete(row, m, qt, expiry, days);
    RecordKeepsRow(st, row, m, c, qt, expiry, days);
  }

  /** For a complete row with a code and a valid date, the loop body is the recording of its
      item. */
  lemma StepIsRecord(st: State, row: Row, m: ColumnMapping, today: Date, c: string, expiry: Date)
    requires Mandatory(m) && ValidDate(today) && RowComplete(row, m)
    requires Lookup(row, m(ProductCode).value) == Some(Some(c)) && Strip(c) != ""
    requires ParseDate(row[m(ExpiryDate).value]) == Some(expiry)
    ensures Optional(row, m, Quantity, Some("0")) == Some(if m(Quantity).Some? then row[m(Quantity).value] else Some("0"))
    ensures Step(st, row, m, today)
         == Record(st, row, m, c, ParseQuantity(Optional(row, m, Quantity, Some("0")).value), expiry, DaysBetween(today, expiry))
  {
    var qt := ParseQuantity(Optional(row, m, Quantity, Some("0")).value);
    StepIsDated(st, row, m, today, c, expiry, qt);
    DatedIsRecord(st, row, m, today, c, expiry, qt);
  }

  lemma StepIsDated(st: State, row: Row, m: ColumnMapping, today: Date, c: string, expiry: Date, qt: Float)
    requires Mandatory(m) && ValidDate(today) && RowComplete(row, m)
    requires Lookup(row, m(ProductCode).value) == Some(Some(c)) && Strip(c) != ""
    requires ParseDate(row[m(ExpiryDate).value]) == Some(expiry)
    requires ParseQuantity(Optional(row, m, Quantity, Some("0")).value) == qt
    ensures Step(st, row, m, today) == Dated(st, row, m, c, qt, Some(expiry), today)
  {
    ParseDateNotRaised(row[m(ExpiryDate).value]);
  }

  lemma DatedIsRecord(st: State, row: Row, m: ColumnMapping, today: Date, c: string, expiry: Date, qt: Float)
    requires ValidDate(today) && ValidDate(expiry)
    ensures Dated(st, row, m, c, qt, Some(expiry), today) == Record(st, row, m, c, qt, expiry, DaysBetween(today, expiry))
  {
  }

  lemma RecordKeepsRow(st: State, row: Row, m: ColumnMapping, c: string, qt: Float, expiry: Date, days: int)
    requires ValidDate(expiry) && RowComplete(row, m) && NewItem(row, m, qt, expiry, days).Some?
    ensures var r := Record(st, row, m, c, qt, expiry, days);
      && r.stats.processed == st.stats.processed + 1
      && r.stats.ignored == st.stats.ignored
      && c in r.products && r.products == st.products[c := r.products[c]]
      && |r.products[c].items| == (if c in st.products then |st.products[c].items| else 0) + 1
      && var item := r.products[c].items[|r.products[c].items| - 1];
         item.quantity == qt && item.expiry == expiry && item.daysLeft == days
  {
    if c !in st.products {
      assert NewProduct(row, m, c, qt).Some?;
    }
  }

  /** Every product recorded so far has at least one item. */
  predicate Stocked(st: State) {
    forall c :: c in st.products ==> st.products[c].items != []
  }

  /** With complete rows, no product is left without items. */
  lemma {:induction false} RunCompleteItems(n: nat, rows: seq<Row>, m: ColumnMapping, today: Date)
    requires Mandatory(m) && ValidDate(today)
    requires forall i :: 0 <= i < |rows| ==> RowComplete(rows[i], m)
    ensures Stocked(Run(Start(n), rows, m, today))
    decreases |rows|
  {
    if rows != [] {
      var init := rows[..|rows| - 1];
      var last := rows[|rows| - 1];
      assert forall i :: 0 <= i < |init| ==> RowComplete(init[i], m) by {
        forall i | 0 <= i < |init| ensures RowComplete(init[i], m) { assert init[i] == rows[i]; }
      }
      RunCompleteItems(n, init, m, today);
      var st := Run(Start(n), init, m, today);
      StepCompleteItems(st, last, m, today);
      assert Run(Start(n), rows, m, today) == Step(st, last, m, today);
    }
  }

  lemma StepCompleteItems(st: State, row: Row, m: ColumnMapping, today: Date)
    requires Mandatory(m) && ValidDate(today) && RowComplete(row, m)
    requires Stocked(st)
    ensures Stocked(Step(st, row, m, today))
  {
    var code := Lookup(row, m(ProductCode).value);
    var dateCell := Lookup(row, m(ExpiryDate).value);
    var date := ParseDate(dateCell.value);
    if BlankCode(code.value) || date.None? {
      StepSkipsRow(st, row, m, today);
    } else {
      KeptRowHasItems(st, row, m, today, code.value.value, date.value);
    }
  }

  lemma KeptRowHasItems(st: State, row: Row, m: ColumnMapping, today: Date, c: string, expiry: Date)
    requires Mandatory(m) && ValidDate(today) && RowComplete(row, m)
    requires Lookup(row, m(ProductCode).value) == Some(Some(c)) && Strip(c) != ""
    requires ParseDate(row[m(ExpiryDate).value]) == Some(expiry)
    requires Stocked(st)
    ensures Stocked(Step(st, row, m, today))
  {
    StepKeepsRow(st, row, m, today, c, expiry);
  }
}

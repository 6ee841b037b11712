/** The Excel report of an analysis: its file name, the summary sheet, the sheet of every
    product's month buckets and the sheet of the critical products' line items. The
    workbook is modelled as the rows each sheet receives; writing the file is not. */
module Exporter {
  import opened Common
  import opened Text
  import opened Numbers
  import opened Calendar
  import opened DateParser
  import opened DateFormats
  import opened Records
  import opened Sorting
  import opened Columns
  import opened Aggregation
  import opened AggregationFacts
  import opened Classification
  import opened Processor

  // ---------------------------------------------------------------------------
  // The file name
  // ---------------------------------------------------------------------------

  const NamePrefix: string := "Relatorio_Vencimentos_"
  const NameSuffix: string := ".xlsx"

  /** `Relatorio_Vencimentos_YYYY-MM-DD.xlsx` for the day the exporter was created. */
  function DefaultName(exportDate: Date): string
    requires ValidDate(exportDate)
  {
    NamePrefix + FormatIso(exportDate) + NameSuffix
  }

  /** The name written: the caller's, unless it is missing or empty. */
  function FileName(filename: Option<string>, exportDate: Date): (r: string)
    requires ValidDate(exportDate)
    ensures r != ""
    ensures filename.Some? && filename.value != "" ==> r == filename.value
    ensures filename.None? || filename.value == "" ==> r == DefaultName(exportDate)
  {
    if filename.None? || filename.value == "" then DefaultName(exportDate) else filename.value
  }

  /** The default name is the prefix, the ten characters of the date, which read back as
      that date, and the extension. */
  lemma DefaultNameRoundTrip(exportDate: Date)
    requires ValidDate(exportDate)
    ensures var n := DefaultName(exportDate);
      && |n| == |NamePrefix| + 10 + |NameSuffix|
      && n[..|NamePrefix|] == NamePrefix
      && n[|n| - |NameSuffix|..] == NameSuffix
      && ParseDate(Some(n[|NamePrefix|..|n| - |NameSuffix|])) == Some(exportDate)
  {
    IsoLength(exportDate);
    MiddleOf(NamePrefix, FormatIso(exportDate), NameSuffix);
    IsoRoundTrip(exportDate);
  }

  /** The middle part of a concatenation. */
  lemma MiddleOf(a: string, b: string, c: string)
    ensures (a + b + c)[|a|..|a + b + c| - |c|] == b
    ensures (a + b + c)[..|a|] == a && (a + b + c)[|a + b + c| - |c|..] == c
    ensures (a + b + c)[..|a + b|] == a + b
  {
    assert a + b + c == a + (b + c);
  }

  lemma IsoLength(d: Date)
    requires ValidDate(d)
    ensures |FormatIso(d)| == 10
  {
    PadExact(d.year, 4);
    PadExact(d.month, 2);
    PadExact(d.day, 2);
  }

  lemma DayMonthYearLength(d: Date)
    requires ValidDate(d)
    ensures |FormatDayMonthYear(d)| == 10
  {
    PadExact(d.year, 4);
    PadExact(d.month, 2);
    PadExact(d.day, 2);
  }

  /** A given non-empty name is kept as it is; otherwise the default is used. */
  lemma FileNameChoice(filename: Option<string>, exportDate: Date)
    requires ValidDate(exportDate)
    ensures FileName(filename, exportDate) == DefaultName(exportDate)
            <==> filename.None? || filename.value == "" || filename.value == DefaultName(exportDate)
  {
  }

  // ---------------------------------------------------------------------------
  // The summary sheet
  // ---------------------------------------------------------------------------

  /** A cell of the summary sheet. */
  datatype Value = Label(s: string) | Count(n: nat) | Amount(x: Float)

  const Heading: string := "RESUMO GERAL"
  const ProductsLabel: string := "Total de Produtos"
  const ItemsLabel: string := "Total de Itens"
  const Within30Label: string := "Produtos Vencendo em 30 dias"
  const Within60Label: string := "Produtos Vencendo em 60 dias"
  const ExpiredLabel: string := "Produtos Vencidos"
  const StatsHeading: string := "ESTAT\U{CD}STICAS DE PROCESSAMENTO"
  const RowsLabel: string := "Total de Linhas"
  const ProcessedLabel: string := "Linhas Processadas"
  const IgnoredLabel: string := "Linhas Ignoradas"
  const InvalidLabel: string := "Datas Inv\U{E1}lidas"
  const StampLabel: string := "Data da An\U{E1}lise"

  /** A moment `strftime` can render. */
  predicate ValidStamp(t: DateTime) {
    ValidDate(t.date) && 0 <= t.hour <= 23 && 0 <= t.minute <= 59 && 0 <= t.second <= 59
  }

  /** The rows of the `Resumo` sheet, with the analysis moment `now`. */
  function SummaryRows(s: Summary, st: Stats, now: DateTime): (rows: seq<seq<Value>>)
    requires ValidStamp(now)
  {
    [ [Label(Heading)],
      [Label("")],
      [Label(ProductsLabel), Count(s.totalProducts)],
      [Label(ItemsLabel), Amount(s.totalItems)],
      [Label(Within30Label), Count(s.within30)],
      [Label(Within60Label), Count(s.within60)],
      [Label(ExpiredLabel), Count(s.expired)],
      [Label("")],
      [Label(StatsHeading)],
      [Label(RowsLabel), Count(st.totalRows)],
      [Label(ProcessedLabel), Count(st.processed)],
      [Label(IgnoredLabel), Count(st.ignored)],
      [Label(InvalidLabel), Count(st.invalidDates)],
      [Label("")],
      [Label(StampLabel), Label(FormatDateTime(now))] ]
  }

  /** The count a labelled row holds. */
  function CountIn(row: seq<Value>, title: string): Option<nat> {
    if |row| == 2 && row[0] == Label(title) && row[1].Count? then Some(row[1].n) else None
  }

  /** The quantity a labelled row holds. */
  function AmountIn(row: seq<Value>, title: string): Option<Float> {
    if |row| == 2 && row[0] == Label(title) && row[1].Amount? then Some(row[1].x) else None
  }

  /** A summary sheet read back: the counters and statistics at their labelled rows. */
  function ReadSummary(rows: seq<seq<Value>>): Option<(Summary, Stats)> {
    if |rows| != 15 then None
    else
      var products := CountIn(rows[2], ProductsLabel);
      var items := AmountIn(rows[3], ItemsLabel);
      var within30 := CountIn(rows[4], Within30Label);
      var within60 := CountIn(rows[5], Within60Label);
      var expired := CountIn(rows[6], ExpiredLabel);
      var total := CountIn(rows[9], RowsLabel);
      var processed := CountIn(rows[10], ProcessedLabel);
      var ignored := CountIn(rows[11], IgnoredLabel);
      var invalid := CountIn(rows[12], InvalidLabel);
      if products.None? || items.None? || within30.None? || within60.None? || expired.None?
         || total.None? || processed.None? || ignored.None? || invalid.None?
      then None
      else Some((Summary(products.value, items.value, within30.value, within60.value, expired.value),
                 Stats(total.value, processed.value, ignored.value, invalid.value)))
  }

  /** Every counter and statistic of the analysis can be read back from the sheet. */
  lemma SummaryRoundTrip(s: Summary, st: Stats, now: DateTime)
    requires ValidStamp(now)
    ensures ReadSummary(SummaryRows(s, st, now)) == Some((s, st))
  {
  }

  /** The analysis moment of the last row is `DD/MM/YYYY HH:MM:SS`, whose first ten
      characters read back as its date. */
  lemma StampRoundTrip(now: DateTime)
    requires ValidStamp(now)
    ensures var t := FormatDateTime(now);
      && |t| == 19
      && ParseDate(Some(t[..10])) == Some(now.date)
  {
    DayMonthYearLength(now.date);
    PadExact(now.hour, 2);
    PadExact(now.minute, 2);
    PadExact(now.second, 2);
    var rest := " " + Two(now.hour) + ":" + Two(now.minute) + ":" + Two(now.second);
    assert FormatDateTime(now) == FormatDayMonthYear(now.date) + rest;
    MiddleOf([], FormatDayMonthYear(now.date), rest);
    DayMonthYearRoundTrip(now.date);
  }

  // ---------------------------------------------------------------------------
  // Rows of nested loops
  // ---------------------------------------------------------------------------

  /** The rows of each element of `ps` in turn. */
  function Flatten<P, R>(ps: seq<P>, f: P --> seq<R>): seq<R>
    requires forall i :: 0 <= i < |ps| ==> f.requires(ps[i])
  {
    if ps == [] then [] else Flatten(ps[..|ps| - 1], f) + f(ps[|ps| - 1])
  }

  /** The number of rows of the elements of `ps`. */
  function Size<P, R>(ps: seq<P>, f: P --> seq<R>): nat
    requires forall i :: 0 <= i < |ps| ==> f.requires(ps[i])
  {
    if ps == [] then 0 else Size(ps[..|ps| - 1], f) + |f(ps[|ps| - 1])|
  }

  lemma {:induction false} FlattenLength<P, R>(ps: seq<P>, f: P --> seq<R>)
    requires forall i :: 0 <= i < |ps| ==> f.requires(ps[i])
    ensures |Flatten(ps, f)| == Size(ps, f)
    decreases |ps|
  {
    if ps != [] {
      FlattenLength(ps[..|ps| - 1], f);
    }
  }

  /** Row `j` of element `i` sits after the rows of the elements before it. */
  lemma {:induction false} FlattenAt<P, R>(ps: seq<P>, f: P --> seq<R>, i: nat, j: nat)
    requires forall i :: 0 <= i < |ps| ==> f.requires(ps[i])
    requires i < |ps| && j < |f(ps[i])|
    ensures Size(ps[..i], f) + j < |Flatten(ps, f)|
    ensures Flatten(ps, f)[Size(ps[..i], f) + j] == f(ps[i])[j]
    decreases |ps|
  {
    var init := ps[..|ps| - 1];
    FlattenLength(init, f);
    if i == |ps| - 1 {
      assert ps[..i] == init;
    } else {
      assert init[..i] == ps[..i];
      FlattenAt(init, f, i, j);
    }
  }

  /** There are no rows exactly when no element has any. */
  lemma {:induction false} FlattenEmpty<P, R>(ps: seq<P>, f: P --> seq<R>)
    requires forall i :: 0 <= i < |ps| ==> f.requires(ps[i])
    ensures Flatten(ps, f) == [] <==> forall i :: 0 <= i < |ps| ==> f(ps[i]) == []
    decreases |ps|
  {
    if ps != [] {
      var init := ps[..|ps| - 1];
      FlattenEmpty(init, f);
      assert forall i :: 0 <= i < |init| ==> init[i] == ps[i];
    }
  }

  /** `x` is a row of some element of `ps`. */
  ghost predicate RowOf<P, R>(ps: seq<P>, f: P --> seq<R>, x: R)
    requires forall i :: 0 <= i < |ps| ==> f.requires(ps[i])
  {
    exists i, j :: 0 <= i < |ps| && 0 <= j < |f(ps[i])| && x == f(ps[i])[j]
  }

  /** Every row is a row of some element. */
  lemma {:induction false} FlattenMembers<P, R>(ps: seq<P>, f: P --> seq<R>)
    requires forall i :: 0 <= i < |ps| ==> f.requires(ps[i])
    ensures forall k :: 0 <= k < |Flatten(ps, f)| ==> RowOf(ps, f, Flatten(ps, f)[k])
    decreases |ps|
  {
    if ps != [] {
      var init := ps[..|ps| - 1];
      var last := |ps| - 1;
      FlattenMembers(init, f);
      var r := Flatten(ps, f);
      var front := Flatten(init, f);
      assert r == front + f(ps[last]);
      forall k | 0 <= k < |r| ensures RowOf(ps, f, r[k]) {
        if k < |front| {
          assert r[k] == front[k] && RowOf(init, f, front[k]);
          var i, j :| 0 <= i < |init| && 0 <= j < |f(init[i])| && front[k] == f(init[i])[j];
          assert ps[i] == init[i];
        } else {
          var j := k - |front|;
          assert r[k] == f(ps[last])[j];
        }
      }
    }
  }

  // ---------------------------------------------------------------------------
  // The `Todos os Produtos` sheet
  // ---------------------------------------------------------------------------

  /** One row of the sheet of all products: a month bucket of a product. */
  datatype ProductRow = ProductRow(
    code: string,         // Código
    name: Cell,           // Produto
    supplier: Cell,       // Fornecedor
    supplierCode: Cell,   // Cód. Fornecedor
    netWeight: Cell,      // Peso Líquido
    monthYear: string,    // Mês/Ano Vencimento
    quantity: Float,      // Quantidade
    daysLeft: int,        // Dias Restantes
    tier: string,         // Criticidade
    total: Float)         // Quantidade Total

  /** The bucket's `MM/YYYY` key. */
  function BucketLabel(b: Bucket): string {
    Two(b.month) + "/" + Year4(b.year)
  }

  /** `criticidade.upper()` */
  function TierLabel(t: Tier): string {
    Upper(TierName(t))
  }

  function BucketRow(p: Product, b: Bucket): ProductRow {
    ProductRow(p.code, p.name, p.supplier, p.supplierCode, p.netWeight,
               BucketLabel(b), b.quantity, b.daysLeft, TierLabel(p.tier), p.total)
  }

  /** The rows of one product: one per bucket, in bucket order. */
  function BucketRows(p: Product): (r: seq<ProductRow>)
    ensures |r| == |p.buckets|
  {
    seq(|p.buckets|, j requires 0 <= j < |p.buckets| => BucketRow(p, p.buckets[j]))
  }

  /** `_create_all_products_sheet`: for each product, for each of its buckets, a row. */
  method AllProductsRows(ps: seq<Product>) returns (rows: seq<ProductRow>)
    ensures rows == Flatten(ps, BucketRows)
  {
    rows := [];
    for i := 0 to |ps|
      invariant rows == Flatten(ps[..i], BucketRows)
    {
      var p := ps[i];
      ghost var done := rows;
      ghost var rs := BucketRows(p);
      for j := 0 to |p.buckets|
        invariant rows == done + rs[..j]
      {
        PrefixNext(rs, j);
        rows := rows + [BucketRow(p, p.buckets[j])];
      }
      assert rs[..|p.buckets|] == rs;
      FlattenNext(ps, BucketRows, i);
    }
    assert ps[..|ps|] == ps;
  }

  /** The sheet has one row per bucket of each product, and the row of bucket `j` of
      product `i` comes right after the buckets of the products before it. */
  lemma AllProductsLayout(ps: seq<Product>, i: nat, j: nat)
    requires i < |ps| && j < |ps[i].buckets|
    ensures |Flatten(ps, BucketRows)| == Size(ps, BucketRows)
    ensures Size(ps[..i], BucketRows) + j < |Flatten(ps, BucketRows)|
    ensures Flatten(ps, BucketRows)[Size(ps[..i], BucketRows) + j] == BucketRow(ps[i], ps[i].buckets[j])
  {
    var rs := BucketRows(ps[i]);
    assert |rs| == |ps[i].buckets| && rs[j] == BucketRow(ps[i], ps[i].buckets[j]);
    FlattenLayout(ps, BucketRows, i, j);
  }

  lemma FlattenLayout<P, R>(ps: seq<P>, f: P --> seq<R>, i: nat, j: nat)
    requires forall i :: 0 <= i < |ps| ==> f.requires(ps[i])
    requires i < |ps| && j < |f(ps[i])|
    ensures |Flatten(ps, f)| == Size(ps, f)
    ensures Size(ps[..i], f) + j < |Flatten(ps, f)|
    ensures Flatten(ps, f)[Size(ps[..i], f) + j] == f(ps[i])[j]
  {
    FlattenLength(ps, f);
    FlattenAt(ps, f, i, j);
  }

  /** A bucket key of a calendar month is seven characters, `MM/YYYY`, from which the month
      and the year read back. */
  lemma BucketLabelRoundTrip(b: Bucket)
    requires 1 <= b.month <= 12 && 1 <= b.year <= 9999
    ensures var t := BucketLabel(b);
      && |t| == 7 && t[2] == '/'
      && AllDigits(t[..2]) && DigitsValue(t[..2]) == b.month
      && AllDigits(t[3..]) && DigitsValue(t[3..]) == b.year
  {
    assert BucketLabel(b) == MonthYear(Date(b.year, b.month, 1));
  }

  /** The tier read back from its capitalised name. */
  function TierOfLabel(s: string): Option<Tier> {
    if s == "VENCIDO" then Some(Expired)
    else if s == "ALTA" then Some(High)
    else if s == "M\U{C9}DIA" then Some(Medium)
    else if s == "BAIXA" then Some(Low)
    else None
  }

  /** The capitalised name of each tier tells the tier. */
  lemma TierLabelRoundTrip(t: Tier)
    ensures TierOfLabel(TierLabel(t)) == Some(t)
  {
    match t
    case Expired => assert TierLabel(t) == "VENCIDO";
    case High => assert TierLabel(t) == "ALTA";
    case Medium => assert TierLabel(t) == "M\U{C9}DIA";
    case Low => assert TierLabel(t) == "BAIXA";
  }

  // ---------------------------------------------------------------------------
  // The `Produtos Críticos` sheet
  // ---------------------------------------------------------------------------

  /** `criticidade in ['vencido', 'alta']` */
  predicate IsCritical(p: Product) {
    TierName(p.tier) in ["vencido", "alta"]
  }

  /** The critical products are the expired and the high-tier ones. */
  lemma CriticalTiers(p: Product)
    ensures IsCritical(p) <==> p.tier == Expired || p.tier == High
  {
    assert TierName(Medium) != "vencido" && TierName(Medium) != "alta";
    assert TierName(Low) != "vencido" && TierName(Low) != "alta";
  }

  /** Every item of the product carries a calendar date. */
  predicate Dated(p: Product) {
    forall j :: 0 <= j < |p.items| ==> ValidDate(p.items[j].expiry)
  }

  /** One row of the critical sheet: a line item of a critical product. */
  datatype CriticalRow = CriticalRow(
    code: string,         // Código
    name: Cell,           // Produto
    supplier: Cell,       // Fornecedor
    supplierCode: Cell,   // Cód. Fornecedor
    address: Cell,        // Endereço
    depot: Cell,          // Depósito
    street: Cell,         // Rua
    building: Cell,       // Prédio
    level: Cell,          // Nível
    apartment: Cell,      // Apto
    status: Cell,         // Status
    quantity: Float,      // Quantidade
    expiry: string,       // Data Validade
    daysLeft: int,        // Dias Restantes
    factor: Cell,         // Fator
    unit: Cell,           // Unidade
    netWeight: Cell,      // Peso Líquido
    tier: string)         // Criticidade

  function ItemRow(p: Product, j: nat): CriticalRow
    requires Dated(p) && j < |p.items|
  {
    var it := p.items[j];
    CriticalRow(p.code, p.name, p.supplier, p.supplierCode, it.address, it.depot, it.street,
                it.building, it.level, it.apartment, it.status, it.quantity,
                FormatDayMonthYear(it.expiry), it.daysLeft, it.factor, it.unit, p.netWeight,
                TierLabel(p.tier))
  }

  /** The rows of one product: one per item when it is critical, none otherwise. */
  function ItemRows(p: Product): (r: seq<CriticalRow>)
    requires Dated(p)
    ensures |r| == (if IsCritical(p) then |p.items| else 0)
  {
    if IsCritical(p) then seq(|p.items|, j requires 0 <= j < |p.items| => ItemRow(p, j))
    else []
  }

  /** `_create_critical_products_sheet`: for each critical product, for each of its items,
      a row. */
  method CriticalRows(ps: seq<Product>) returns (rows: seq<CriticalRow>)
    requires forall i :: 0 <= i < |ps| ==> Dated(ps[i])
    ensures rows == Flatten(ps, ItemRows)
  {
    rows := [];
    for i := 0 to |ps|
      invariant rows == Flatten(ps[..i], ItemRows)
    {
      var p := ps[i];
      ghost var done := rows;
      ghost var rs := ItemRows(p);
      if TierName(p.tier) in ["vencido", "alta"] {
        for j := 0 to |p.items|
          invariant rows == done + rs[..j]
        {
          PrefixNext(rs, j);
          rows := rows + [ItemRow(p, j)];
        }
        assert rs[..|p.items|] == rs;
      } else {
        assert rs == [];
      }
      FlattenNext(ps, ItemRows, i);
    }
    assert ps[..|ps|] == ps;
  }

  /** One more product's rows after those of the products before it. */
  lemma FlattenNext<P, R>(ps: seq<P>, f: P --> seq<R>, i: nat)
    requires i < |ps| && forall k :: 0 <= k < |ps| ==> f.requires(ps[k])
    ensures Flatten(ps[..i + 1], f) == Flatten(ps[..i], f) + f(ps[i])
  {
    assert ps[..i + 1][..i] == ps[..i];
  }

  lemma PrefixNext<R>(s: seq<R>, j: nat)
    requires j < |s|
    ensures s[..j + 1] == s[..j] + [s[j]]
  {
  }

  /** The row is that of an item of an expired or high-tier product of `ps`. */
  predicate FromCritical(ps: seq<Product>, r: CriticalRow)
    requires forall i :: 0 <= i < |ps| ==> Dated(ps[i])
  {
    exists i, j :: 0 <= i < |ps| && 0 <= j < |ps[i].items|
      && (ps[i].tier == Expired || ps[i].tier == High) && r == ItemRow(ps[i], j)
  }

  /** Each row of the critical sheet is an item of an expired or high-tier product. */
  lemma CriticalRowsFrom(ps: seq<Product>)
    requires forall i :: 0 <= i < |ps| ==> Dated(ps[i])
    ensures forall k :: 0 <= k < |Flatten(ps, ItemRows)| ==> FromCritical(ps, Flatten(ps, ItemRows)[k])
  {
    var rows := Flatten(ps, ItemRows);
    FlattenMembers(ps, ItemRows);
    forall k | 0 <= k < |rows| ensures FromCritical(ps, rows[k]) {
      assert RowOf(ps, ItemRows, rows[k]);
      var i, j :| 0 <= i < |ps| && 0 <= j < |ItemRows(ps[i])| && rows[k] == ItemRows(ps[i])[j];
      CriticalTiers(ps[i]);
      assert rows[k] == ItemRow(ps[i], j);
    }
  }

  /** Every item of an expired or high-tier product has its row, right after the rows of
      the products before it. */
  lemma CriticalRowAt(ps: seq<Product>, i: nat, j: nat)
    requires forall i :: 0 <= i < |ps| ==> Dated(ps[i])
    requires i < |ps| && j < |ps[i].items| && (ps[i].tier == Expired || ps[i].tier == High)
    ensures Size(ps[..i], ItemRows) + j < |Flatten(ps, ItemRows)|
    ensures Flatten(ps, ItemRows)[Size(ps[..i], ItemRows) + j] == ItemRow(ps[i], j)
  {
    CriticalTiers(ps[i]);
    FlattenAt(ps, ItemRows, i, j);
  }

  /** A critical row copies its item's quantity and days left, writes its expiry as
      `DD/MM/YYYY`, which reads back as that date, and names the tier `VENCIDO` or `ALTA`. */
  lemma CriticalRowFacts(p: Product, j: nat)
    requires Dated(p) && j < |p.items| && IsCritical(p)
    ensures var it := p.items[j];
      var r := ItemRow(p, j);
      && r.quantity == it.quantity && r.daysLeft == it.daysLeft
      && |r.expiry| == 10 && ParseDate(Some(r.expiry)) == Some(it.expiry)
      && TierOfLabel(r.tier) == Some(p.tier) && (p.tier == Expired || p.tier == High)
  {
    var it := p.items[j];
    DayMonthYearLength(it.expiry);
    DayMonthYearRoundTrip(it.expiry);
    TierLabelRoundTrip(p.tier);
    CriticalTiers(p);
  }

  // ---------------------------------------------------------------------------
  // The workbook
  // ---------------------------------------------------------------------------

  /** The sheets written: the summary always, each product sheet only when it has rows. */
  datatype Workbook = Workbook(
    summary: seq<seq<Value>>,
    allProducts: Option<seq<ProductRow>>,
    critical: Option<seq<CriticalRow>>)

  function Sheet<R>(rows: seq<R>): (r: Option<seq<R>>)
    ensures r.Some? <==> rows != []
  {
    if rows == [] then None else Some(rows)
  }

  /** Every item of every listed product is dated. */
  predicate Exportable(a: Analysis) {
    forall i :: 0 <= i < |a.products| ==> Dated(a.products[i])
  }

  function Book(a: Analysis, now: DateTime): Workbook
    requires ValidStamp(now) && Exportable(a)
  {
    Workbook(SummaryRows(a.summary, a.stats, now),
             Sheet(Flatten(a.products, BucketRows)),
             Sheet(Flatten(a.products, ItemRows)))
  }

  /** `export_to_excel`: the name written and the sheets it holds, for an exporter created
      on `exportDate` and the analysis moment `now`. */
  method ExportToExcel(a: Analysis, filename: Option<string>, exportDate: Date, now: DateTime)
      returns (name: string, book: Workbook)
    requires ValidDate(exportDate) && ValidStamp(now) && Exportable(a)
    ensures name == FileName(filename, exportDate)
    ensures book == Book(a, now)
  {
    name := FileName(filename, exportDate);
    var all := AllProductsRows(a.products);
    var critical := CriticalRows(a.products);
    book := Workbook(SummaryRows(a.summary, a.stats, now),
                     if all == [] then None else Some(all),
                     if critical == [] then None else Some(critical));
  }

  /** The sheet of all products is written exactly when some product has a bucket. */
  lemma AllProductsSheetWritten(a: Analysis, now: DateTime)
    requires ValidStamp(now) && Exportable(a)
    ensures Book(a, now).allProducts.Some? <==> exists i :: 0 <= i < |a.products| && a.products[i].buckets != []
  {
    FlattenEmpty(a.products, BucketRows);
  }

  /** The critical sheet is written exactly when some expired or high-tier product has an
      item. */
  lemma CriticalSheetWritten(a: Analysis, now: DateTime)
    requires ValidStamp(now) && Exportable(a)
    ensures Book(a, now).critical.Some? <==>
      exists i :: 0 <= i < |a.products| && (a.products[i].tier == Expired || a.products[i].tier == High)
        && a.products[i].items != []
  {
    var ps := a.products;
    if exists i :: 0 <= i < |ps| && (ps[i].tier == Expired || ps[i].tier == High) && ps[i].items != [] {
      var i :| 0 <= i < |ps| && (ps[i].tier == Expired || ps[i].tier == High) && ps[i].items != [];
      CriticalRowAt(ps, i, 0);
    }
    var rows := Flatten(ps, ItemRows);
    if rows != [] {
      CriticalRowsFrom(ps);
      assert FromCritical(ps, rows[0]);
    }
  }

  /** Every analysis `process_data` returns can be exported: its products' items are all
      dated. */
  lemma AnalysisExportable(columns: seq<string>, rows: seq<Row>, today: Date)
    requires ValidDate(today) && Analyze(columns, rows, today).Ok?
    ensures Exportable(Analyze(columns, rows, today).value)
  {
    var m := MapColumns(columns);
    ListingDated(rows, m, today);
  }

  lemma ListingDated(rows: seq<Row>, m: ColumnMapping, today: Date)
    requires Mandatory(m) && ValidDate(today)
    ensures forall i :: 0 <= i < |Listing(rows, m, today)| ==> Dated(Listing(rows, m, today)[i])
  {
    var st := Run(Start(|rows|), rows, m, today);
    RunConsistent(|rows|, rows, m, today);
    ListedCodes(st, today);
    var fa := FinishAll(st.products, st.order);
    forall k | 0 <= k < |fa| ensures Dated(fa[k]) {
      var c := st.order[k];
      FinishMinimum(c, st.products[c], today);
    }
    SortProductsByDays(fa);
    var list := Listing(rows, m, today);
    assert list == SortBy(fa, ProductDays);
    forall i | 0 <= i < |list| ensures Dated(list[i]) {
      assert list[i] in multiset(fa);
    }
  }
}

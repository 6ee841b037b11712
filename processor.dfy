/** The analysis of one loaded table (`process_data`): the column mapping and its
    mandatory check, the row loop, the finalisation, the option lists and the
    recommendations, returned together with the processing statistics and the mapping. */
module Processor {
  import opened Common
  import opened Calendar
  import opened Columns
  import opened Records
  import opened Sorting
  import opened Totals
  import opened Aggregation
  import opened AggregationFacts
  import opened Classification
  import opened Filters
  import opened Recommendations

  /** Every field the mapping has a key for. */
  const AllFields: set<Field> := {Quantity, ProductCode, Description, ExpiryDate, NetWeight, SupplierCode,
    Supplier, Address, Depot, Street, Building, Level, Apartment, Status, Factor, Unit, Capacity,
    PalletTotal, TotalWeight, Stock}

  lemma AllFieldsListed(f: Field)
    ensures f in AllFields
  {
  }

  /** `colunas_mapeadas`: the mapping as a dictionary with a key per field. */
  function Echo(m: ColumnMapping): (r: map<Field, Option<string>>)
    ensures forall f: Field :: f in r && r[f] == m(f)
  {
    assert forall f: Field :: f in AllFields by {
      forall f: Field ensures f in AllFields {
        AllFieldsListed(f);
      }
    }
    map f | f in AllFields :: m(f)
  }

  /** The value `process_data` returns. */
  datatype Analysis = Analysis(
    summary: Summary,                      // resumo
    products: seq<Product>,                // produtos_criticos
    filters: FilterOptions,                // filtros
    recommendations: seq<string>,          // recomendacoes
    stats: Stats,                          // estatisticas
    mapping: map<Field, Option<string>>)   // colunas_mapeadas

  /** Every listed code of a consistent state has a record. */
  lemma ListedCodes(st: State, today: Date)
    requires ValidDate(today) && Consistent(st, today)
    ensures forall i :: 0 <= i < |st.order| ==> st.order[i] in st.products
  {
    assert forall i :: 0 <= i < |st.order| ==> st.order[i] in st.order;
  }

  /** The finished, sorted listing of the table's products. */
  function Listing(rows: seq<Row>, m: ColumnMapping, today: Date): seq<Product>
    requires Mandatory(m) && ValidDate(today)
  {
    var st := Run(Start(|rows|), rows, m, today);
    RunConsistent(|rows|, rows, m, today);
    ListedCodes(st, today);
    SortByPair(FinishAll(st.products, st.order), ProductRank, ProductDays)
  }

  /** What `process_data` computes for a table with the given headers and rows on the
      reference date `today`, or the error it raises. */
  function Analyze(columns: seq<string>, rows: seq<Row>, today: Date): Result<Analysis, ProcessError>
    requires ValidDate(today)
  {
    var m := MapColumns(columns);
    var missing := CheckMandatory(m);
    if missing.Some? then Err(missing.value)
    else
      var list := Listing(rows, m, today);
      var filters := FiltersOf(list);
      if filters.Err? then Err(filters.error)
      else
        Ok(Analysis(Summarize(list), list, filters.value, Recommend(list),
                    Run(Start(|rows|), rows, m, today).stats, Echo(m)))
  }

  /** `process_data`. */
  method ProcessData(columns: seq<string>, rows: seq<Row>, today: Date) returns (r: Result<Analysis, ProcessError>)
    requires ValidDate(today)
    ensures r == Analyze(columns, rows, today)
  {
    var m := MapColumns(columns);
    if m(ExpiryDate).None? {
      return Err(MissingColumn(MissingExpiry));
    }
    if m(ProductCode).None? {
      return Err(MissingColumn(MissingProductCode));
    }
    var st := AggregateRows(rows, m, today);
    RunConsistent(|rows|, rows, m, today);
    ListedCodes(st, today);
    var list, summary := Finalize(st);
    var filters := ExtractFilters(list);
    if filters.Err? {
      return Err(filters.error);
    }
    r := Ok(Analysis(summary, list, filters.value, Recommend(list), st.stats, Echo(m)));
  }

  // ---------------------------------------------------------------------------
  // What the analysis promises
  // ---------------------------------------------------------------------------

  /** A table lacking the expiry column, or else the product-code column, is refused with
      the message naming it. */
  lemma AnalyzeMissing(columns: seq<string>, rows: seq<Row>, today: Date)
    requires ValidDate(today)
    ensures var m := MapColumns(columns);
      && (m(ExpiryDate).None? ==> Analyze(columns, rows, today) == Err(MissingColumn(MissingExpiry)))
      && (m(ExpiryDate).Some? && m(ProductCode).None? ==>
            Analyze(columns, rows, today) == Err(MissingColumn(MissingProductCode)))
      && (Analyze(columns, rows, today).Err? && Analyze(columns, rows, today).error.MissingColumn? ==>
            m(ExpiryDate).None? || m(ProductCode).None?)
  {
  }

  /** Every row is accounted for: processed or ignored, and every invalid date is an
      ignored row. */
  lemma AnalyzeStats(columns: seq<string>, rows: seq<Row>, today: Date)
    requires ValidDate(today) && Analyze(columns, rows, today).Ok?
    ensures var s := Analyze(columns, rows, today).value.stats;
      s.totalRows == |rows| && s.processed + s.ignored == s.totalRows && s.invalidDates <= s.ignored
  {
    RunStats(|rows|, rows, MapColumns(columns), today);
  }

  /** The summary counts the returned products: their number, the sum of their absolute
      totals, and one counter per tier; low products are the ones no counter takes. */
  lemma AnalyzeSummary(columns: seq<string>, rows: seq<Row>, today: Date)
    requires ValidDate(today) && Analyze(columns, rows, today).Ok?
    ensures var a := Analyze(columns, rows, today).value;
      && a.summary.totalProducts == |a.products|
      && a.summary.totalItems == SumOf(a.products, AbsTotal)
      && a.summary.expired == CountOf(a.products, IsExpired)
      && a.summary.within30 == CountOf(a.products, IsHigh)
      && a.summary.within60 == CountOf(a.products, IsMedium)
      && a.summary.expired + a.summary.within30 + a.summary.within60 + CountOf(a.products, IsLow)
         == a.summary.totalProducts
  {
    SummaryPartition(Analyze(columns, rows, today).value.products);
  }
}

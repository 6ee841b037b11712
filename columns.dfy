/** Header resolution: the delimiter of a delimited text file, and the mapping from the
    fields the analyzer reads to the table's column headers through a fixed synonym table.
    Headers arrive already uppercased and trimmed. */
module Columns {
  import opened Common
  import opened Text

  // ---------------------------------------------------------------------------
  // detect_delimiter
  // ---------------------------------------------------------------------------

  /** The delimiter of a delimited file, judged from its first line: a pipe wins over a
      semicolon, which wins over the default comma. */
  function DetectDelimiter(line: string): (r: char)
    ensures r == '|' || r == ';' || r == ','
    ensures '|' in line ==> r == '|'
    ensures r == ';' ==> '|' !in line && ';' in line
    ensures r == ',' ==> '|' !in line && ';' !in line
  {
    if '|' in line then '|' else if ';' in line then ';' else ','
  }

  /** The chosen delimiter is one the line contains, unless it is the default. */
  lemma DelimiterOccurs(line: string)
    ensures var r := DetectDelimiter(line); r in line || (r == ',' && '|' !in line && ';' !in line)
  {
  }

  // ---------------------------------------------------------------------------
  // _find_column
  // ---------------------------------------------------------------------------

  /** Position of the first header equal to one of `names` (|columns| when there is none). */
  function FirstExact(columns: seq<string>, names: seq<string>): (k: nat)
    ensures k <= |columns|
    ensures k < |columns| ==> columns[k] in names
    ensures forall j :: 0 <= j < k ==> columns[j] !in names
  {
    if columns == [] then 0
    else if columns[0] in names then 0
    else 1 + FirstExact(columns[1..], names)
  }

  /** Some name of `names` occurs inside the header `col`. */
  predicate ContainsAny(col: string, names: seq<string>) {
    exists k :: 0 <= k < |names| && IsSubstring(names[k], col)
  }

  /** Position of the first header containing one of `names` (|columns| when there is none). */
  function FirstContaining(columns: seq<string>, names: seq<string>): (k: nat)
    ensures k <= |columns|
    ensures k < |columns| ==> ContainsAny(columns[k], names)
    ensures forall j :: 0 <= j < k ==> !ContainsAny(columns[j], names)
  {
    if columns == [] then 0
    else if ContainsAny(columns[0], names) then 0
    else 1 + FirstContaining(columns[1..], names)
  }

  /** `_find_column`: the first header equal to a candidate name; failing that, the first
      header that contains a candidate name; failing that, None. */
  function FindColumn(columns: seq<string>, names: seq<string>): (r: Option<string>)
    ensures r.Some? ==> r.value in columns
  {
    var exact := FirstExact(columns, names);
    if exact < |columns| then Some(columns[exact])
    else
      var partial := FirstContaining(columns, names);
      if partial < |columns| then Some(columns[partial]) else None
  }

  /** A header equal to a candidate is chosen when no earlier header is equal to one, even
      when earlier headers contain a candidate. */
  lemma FindColumnExact(columns: seq<string>, names: seq<string>, i: nat)
    requires i < |columns| && columns[i] in names
    requires forall j :: 0 <= j < i ==> columns[j] !in names
    ensures FindColumn(columns, names) == Some(columns[i])
  {
    var k := FirstExact(columns, names);
    assert k == i;
  }

  /** Without any equal header, the first header that contains a candidate is chosen. */
  lemma FindColumnContaining(columns: seq<string>, names: seq<string>, i: nat)
    requires forall j :: 0 <= j < |columns| ==> columns[j] !in names
    requires i < |columns| && ContainsAny(columns[i], names)
    requires forall j :: 0 <= j < i ==> !ContainsAny(columns[j], names)
    ensures FindColumn(columns, names) == Some(columns[i])
  {
    var e := FirstExact(columns, names);
    assert e == |columns|;
    var k := FirstContaining(columns, names);
    assert k == i;
  }

  /** No header is found exactly when no header equals or contains a candidate. */
  lemma FindColumnNone(columns: seq<string>, names: seq<string>)
    ensures FindColumn(columns, names).None? <==>
      forall j :: 0 <= j < |columns| ==> columns[j] !in names && !ContainsAny(columns[j], names)
  {
    var e := FirstExact(columns, names);
    var k := FirstContaining(columns, names);
    assert e < |columns| ==> columns[e] in names;
    assert k < |columns| ==> ContainsAny(columns[k], names);
  }

  // ---------------------------------------------------------------------------
  // The synonym table and the mapping it produces
  // ---------------------------------------------------------------------------

  /** The fields the analyzer reads from a row (the keys of `col_mapping`). */
  datatype Field =
    | Quantity      // qt
    | ProductCode   // cod_prod
    | Description   // descricao
    | ExpiryDate    // dt_val
    | NetWeight     // peso
    | SupplierCode  // cod_fornec
    | Supplier      // fornecedor
    | Address       // cod_endereco
    | Depot         // deposito
    | Street        // rua
    | Building      // predio
    | Level         // nivel
    | Apartment     // apto
    | Status        // status
    | Factor        // fator
    | Unit          // unidade
    | Capacity      // capacidade
    | PalletTotal   // qttotpal
    | TotalWeight   // pesototal
    | Stock         // est

  /** The candidate header names of each field, in the order they are tried. */
  function Synonyms(f: Field): seq<string> {
    match f
    case Quantity => ["QT", "QUANTIDADE", "QUANTITY", "QTD"]
    case ProductCode => ["CODPROD", "COD_PROD", "PRODUTO", "CODIGO", "COD"]
    case Description => ["DESCRICAO", "PRODUTO", "NOME", "DESCR"]
    case ExpiryDate => ["DTVAL", "VALIDADE", "VENCIMENTO", "DATA"]
    case NetWeight => ["PESOLIQUN", "PESO", "PESO_LIQUIDO"]
    case SupplierCode => ["CODFORNEC", "FORNECEDOR_COD", "COD_FORNECEDOR"]
    case Supplier => ["FORNECEDOR", "FORNEC", "FORNECEDOR_NOME"]
    case Address => ["CODENDERECO", "ENDERECO", "LOCAL"]
    case Depot => ["DEPOSITO", "DEPOSITO_COD"]
    case Street => ["RUA", "RUA_COD"]
    case Building => ["PREDIO", "PREDIO_COD"]
    case Level => ["NIVEL", "NIVEL_COD"]
    case Apartment => ["APTO", "APARTAMENTO"]
    case Status => ["STATUS", "STATUS_PROD"]
    case Factor => ["FATOR", "FATOR_EMB"]
    case Unit => ["UNIDADE", "UNID_MED"]
    case Capacity => ["CAPACIDADE", "CAPAC"]
    case PalletTotal => ["QTTOTPAL", "TOTAL_PALETE"]
    case TotalWeight => ["PESOTOTAL", "PESO_TOTAL"]
    case Stock => ["EST", "ESTOQUE", "LOTE"]
  }

  /** `col_mapping`: the header each field resolved to, or None. */
  type ColumnMapping = Field -> Option<string>

  /** The mapping of a table with the given headers. */
  function MapColumns(columns: seq<string>): (m: ColumnMapping)
    ensures forall f :: m(f).None? || m(f).value in columns
  {
    f => FindColumn(columns, Synonyms(f))
  }

  /** Why the analyzer refuses a table. */
  datatype ProcessError =
    | MissingColumn(message: string)  // ValueError: a mandatory column was not found
    | UnorderableSuppliers            // TypeError: sorted() compares a missing supplier with a name

  const MissingExpiry := "Coluna DTVAL n\U{E3}o encontrada no arquivo"
  const MissingProductCode := "Coluna CODPROD n\U{E3}o encontrada no arquivo"

  /** The mandatory-column check: the expiry column is checked first, then the product code. */
  function CheckMandatory(m: ColumnMapping): (r: Option<ProcessError>)
    ensures r.None? <==> m(ExpiryDate).Some? && m(ProductCode).Some?
    ensures m(ExpiryDate).None? ==> r == Some(MissingColumn(MissingExpiry))
    ensures m(ExpiryDate).Some? && m(ProductCode).None? ==> r == Some(MissingColumn(MissingProductCode))
  {
    if m(ExpiryDate).None? then Some(MissingColumn(MissingExpiry))
    else if m(ProductCode).None? then Some(MissingColumn(MissingProductCode))
    else None
  }

  /** The table is refused exactly when no header equals or contains any name of the expiry
      field or of the product-code field. */
  lemma MandatoryColumns(columns: seq<string>)
    ensures CheckMandatory(MapColumns(columns)).None? <==>
      (exists j :: 0 <= j < |columns| && (columns[j] in Synonyms(ExpiryDate) || ContainsAny(columns[j], Synonyms(ExpiryDate))))
      && (exists j :: 0 <= j < |columns| && (columns[j] in Synonyms(ProductCode) || ContainsAny(columns[j], Synonyms(ProductCode))))
  {
    FindColumnNone(columns, Synonyms(ExpiryDate));
    FindColumnNone(columns, Synonyms(ProductCode));
  }
}

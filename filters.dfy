/** The option lists offered for filtering: the distinct suppliers, supplier codes, net
    weights and product codes of the finished products, each in ascending order. */
module Filters {
  import opened Common
  import opened Text
  import opened Sorting
  import opened Columns
  import opened Records

  /** Python's truth value of a cell: the empty text is false, any other text is true, and
      so is a missing value (NaN is a non-zero float). */
  predicate Truthy(c: Cell) {
    c.None? || c.value != ""
  }

  /** `str()` of a cell: NaN prints as `nan`. */
  function TextOf(c: Cell): (t: string)
    ensures Truthy(c) ==> t != ""
  {
    if c.None? then "nan" else c.value
  }

  function SupplierOf(p: Product): Cell { p.supplier }
  function SupplierCodeOf(p: Product): Cell { p.supplierCode }
  function NetWeightOf(p: Product): Cell { p.netWeight }
  function CodeOf(p: Product): Cell { Some(p.code) }

  /** The truthy values of `field` over `ps`, as the loop adds them to a set. */
  function CellSet(ps: seq<Product>, field: Product -> Cell): set<Cell> {
    if ps == [] then {}
    else
      var c := field(ps[|ps| - 1]);
      CellSet(ps[..|ps| - 1], field) + (if Truthy(c) then {c} else {})
  }

  /** `str()` of the truthy values of `field` over `ps`. */
  function TextSet(ps: seq<Product>, field: Product -> Cell): set<string> {
    if ps == [] then {}
    else
      var c := field(ps[|ps| - 1]);
      TextSet(ps[..|ps| - 1], field) + (if Truthy(c) then {TextOf(c)} else {})
  }

  lemma {:induction false} CellSetMembers(ps: seq<Product>, field: Product -> Cell)
    ensures forall c :: c in CellSet(ps, field) <==>
      exists i :: 0 <= i < |ps| && field(ps[i]) == c && Truthy(c)
    decreases |ps|
  {
    if ps != [] {
      var init := ps[..|ps| - 1];
      CellSetMembers(init, field);
      forall c ensures c in CellSet(ps, field) <==> exists i :: 0 <= i < |ps| && field(ps[i]) == c && Truthy(c) {
        if c in CellSet(init, field) {
          var i :| 0 <= i < |init| && field(init[i]) == c && Truthy(c);
          assert ps[i] == init[i];
        }
        if exists i :: 0 <= i < |ps| && field(ps[i]) == c && Truthy(c) {
          var i :| 0 <= i < |ps| && field(ps[i]) == c && Truthy(c);
          if i < |init| {
            assert init[i] == ps[i];
          }
        }
      }
    }
  }

  lemma {:induction false} TextSetMembers(ps: seq<Product>, field: Product -> Cell)
    ensures forall t :: t in TextSet(ps, field) <==>
      exists i :: 0 <= i < |ps| && Truthy(field(ps[i])) && TextOf(field(ps[i])) == t
    decreases |ps|
  {
    if ps != [] {
      var init := ps[..|ps| - 1];
      TextSetMembers(init, field);
      forall t ensures t in TextSet(ps, field) <==>
        exists i :: 0 <= i < |ps| && Truthy(field(ps[i])) && TextOf(field(ps[i])) == t
      {
        if t in TextSet(init, field) {
          var i :| 0 <= i < |init| && Truthy(field(init[i])) && TextOf(field(init[i])) == t;
          assert ps[i] == init[i];
        }
        if exists i :: 0 <= i < |ps| && Truthy(field(ps[i])) && TextOf(field(ps[i])) == t {
          var i :| 0 <= i < |ps| && Truthy(field(ps[i])) && TextOf(field(ps[i])) == t;
          if i < |init| {
            assert init[i] == ps[i];
          }
        }
      }
    }
  }

  /** The empty text is never offered. */
  lemma {:induction false} TextSetNonEmpty(ps: seq<Product>, field: Product -> Cell)
    ensures "" !in TextSet(ps, field)
    decreases |ps|
  {
    if ps != [] {
      TextSetNonEmpty(ps[..|ps| - 1], field);
    }
  }

  // ---------------------------------------------------------------------------
  // sorted() of the supplier set
  // ---------------------------------------------------------------------------

  /** `sorted()` cannot order a NaN against a text: it raises when a missing supplier sits
      beside any other supplier. */
  predicate Unorderable(suppliers: set<Cell>) {
    None in suppliers && exists c :: c in suppliers && c.Some?
  }

  function Names(suppliers: set<Cell>): set<string> {
    set c | c in suppliers && c.Some? :: c.value
  }

  function Present(names: seq<string>): (r: seq<Cell>)
    ensures |r| == |names|
    ensures forall i :: 0 <= i < |r| ==> r[i] == Some(names[i])
  {
    seq(|names|, i requires 0 <= i < |names| => Some(names[i]))
  }

  /** `sorted()` of an orderable supplier set: the lone NaN, or the names in ascending
      order. */
  function SortSuppliers(suppliers: set<Cell>): (r: seq<Cell>)
    requires !Unorderable(suppliers)
    ensures forall c :: c in r <==> c in suppliers
  {
    if None in suppliers then
      assert suppliers == {None} by {
        forall c | c in suppliers ensures c == None { }
      }
      [None]
    else
      var names := SortedSet(Names(suppliers));
      var r := Present(names);
      assert forall c :: c in r <==> c in suppliers by {
        forall c ensures c in r <==> c in suppliers {
          if c in suppliers {
            assert c.value in Names(suppliers);
            var i :| 0 <= i < |names| && names[i] == c.value;
            assert r[i] == c;
          }
          if c in r {
            var i :| 0 <= i < |r| && r[i] == c;
            assert names[i] in Names(suppliers);
            var d :| d in suppliers && d.Some? && d.value == names[i];
            assert d == c;
          }
        }
      }
      r
  }

  // ---------------------------------------------------------------------------
  // The four lists
  // ---------------------------------------------------------------------------

  datatype FilterOptions = FilterOptions(
    suppliers: seq<Cell>,        // fornecedores
    supplierCodes: seq<string>,  // cods_fornecedor
    netWeights: seq<string>,     // pesos_liquidos
    productCodes: seq<string>)   // cods_produto

  /** The option lists of `ps`, or the error `sorted()` raises on the suppliers. */
  function FiltersOf(ps: seq<Product>): Result<FilterOptions, ProcessError> {
    var suppliers := CellSet(ps, SupplierOf);
    if Unorderable(suppliers) then Err(UnorderableSuppliers)
    else
      Ok(FilterOptions(SortSuppliers(suppliers),
                       SortedSet(TextSet(ps, SupplierCodeOf)),
                       SortedSet(TextSet(ps, NetWeightOf)),
                       SortedSet(TextSet(ps, CodeOf))))
  }

  /** `_extrair_filtros`: one pass over the products adding each truthy value to its set,
      then each set sorted. */
  method ExtractFilters(ps: seq<Product>) returns (r: Result<FilterOptions, ProcessError>)
    ensures r == FiltersOf(ps)
  {
    var suppliers: set<Cell> := {};
    var supplierCodes: set<string> := {};
    var netWeights: set<string> := {};
    var codes: set<string> := {};
    for i := 0 to |ps|
      invariant suppliers == CellSet(ps[..i], SupplierOf)
      invariant supplierCodes == TextSet(ps[..i], SupplierCodeOf)
      invariant netWeights == TextSet(ps[..i], NetWeightOf)
      invariant codes == TextSet(ps[..i], CodeOf)
    {
      var p := ps[i];
      assert ps[..i + 1][..i] == ps[..i];
      if Truthy(p.supplier) {
        suppliers := suppliers + {p.supplier};
      }
      if Truthy(p.supplierCode) {
        supplierCodes := supplierCodes + {TextOf(p.supplierCode)};
      }
      if Truthy(p.netWeight) {
        netWeights := netWeights + {TextOf(p.netWeight)};
      }
      if p.code != "" {
        codes := codes + {p.code};
      }
    }
    assert ps[..|ps|] == ps;
    if Unorderable(suppliers) {
      return Err(UnorderableSuppliers);
    }
    r := Ok(FilterOptions(SortSuppliers(suppliers), SortedSet(supplierCodes), SortedSet(netWeights), SortedSet(codes)));
  }

  // ---------------------------------------------------------------------------
  // What the lists are
  // ---------------------------------------------------------------------------

  /** The lists fail to form exactly when some product's supplier is missing and another's
      is a name. */
  lemma FiltersFail(ps: seq<Product>)
    ensures FiltersOf(ps).Err? <==>
      (exists i :: 0 <= i < |ps| && ps[i].supplier.None?)
      && (exists j :: 0 <= j < |ps| && ps[j].supplier.Some? && ps[j].supplier.value != "")
  {
    CellSetMembers(ps, SupplierOf);
    var s := CellSet(ps, SupplierOf);
    if exists i :: 0 <= i < |ps| && ps[i].supplier.None? {
      var i :| 0 <= i < |ps| && ps[i].supplier.None?;
      assert SupplierOf(ps[i]) == None;
    }
    if exists j :: 0 <= j < |ps| && ps[j].supplier.Some? && ps[j].supplier.value != "" {
      var j :| 0 <= j < |ps| && ps[j].supplier.Some? && ps[j].supplier.value != "";
      assert SupplierOf(ps[j]) in s;
    }
  }

  /** Each code list is strictly ascending (so without repeats), never offers the empty
      text, and offers exactly the texts of the products' truthy values. */
  lemma CodeListFacts(ps: seq<Product>, field: Product -> Cell)
    ensures var r := SortedSet(TextSet(ps, field));
      && (forall i, j :: 0 <= i < j < |r| ==> StrLess(r[i], r[j]))
      && "" !in r
      && forall t :: t in r <==> exists i :: 0 <= i < |ps| && Truthy(field(ps[i])) && TextOf(field(ps[i])) == t
  {
    TextSetMembers(ps, field);
    TextSetNonEmpty(ps, field);
  }

  /** The supplier list offers exactly the products' truthy suppliers, names in strictly
      ascending order. */
  lemma SupplierListFacts(ps: seq<Product>)
    requires FiltersOf(ps).Ok?
    ensures var r := FiltersOf(ps).value.suppliers;
      && (forall c :: c in r <==> exists i :: 0 <= i < |ps| && ps[i].supplier == c && Truthy(c))
      && (forall i, j :: 0 <= i < j < |r| ==> r[i].Some? && r[j].Some? && StrLess(r[i].value, r[j].value))
  {
    CellSetMembers(ps, SupplierOf);
    var s := CellSet(ps, SupplierOf);
    var r := FiltersOf(ps).value.suppliers;
    assert forall c :: c in r <==> exists i :: 0 <= i < |ps| && SupplierOf(ps[i]) == c && Truthy(c);
  }
}

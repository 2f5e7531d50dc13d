/** The bulk price import of the admin back-office: a spreadsheet of
    (codigo, descripcion, precio) rows updates the retail or the wholesale
    price of the products whose SKU matches, and reports every kept row as
    updated, not found or in error. The product table is a map from SKU to
    product; the spreadsheet arrives already read into rows. */
module UpdatePrices {
  import opened Common

  /** A spreadsheet cell as the sheet reader hands it over: `Blank` is the
      null default for an empty cell. */
  datatype Cell = Blank | Text(s: string) | Number(x: real)

  datatype Row = Row(codigo: Cell, descripcion: Cell, precio: Cell)

  /** The two library conversions the import relies on: how String() prints
      a number, and what parseFloat makes of a text (None is NaN). */
  datatype Conversions = Conversions(numberText: real -> string, parseText: string -> Option<real>)

  datatype PriceType = Minorista | Mayorista

  /** A product row; the wholesale price is nullable (None is null). */
  datatype Product = Product(id: string, name: string, price: real, priceWholesale: Option<real>)

  /** precioAnterior is the selected field as it was, null included. */
  datatype Updated = Updated(sku: string, nombre: string, precioAnterior: Option<real>, precioNuevo: real)
  datatype NotFound = NotFound(sku: string, descripcion: Cell)
  datatype Failed = Failed(sku: string, razon: string)

  datatype Results = Results(actualizados: seq<Updated>, noEncontrados: seq<NotFound>, errores: seq<Failed>, total: nat)

  /** The form fields of the request: the uploaded file (already read into
      rows) and the priceType field, each possibly missing. */
  datatype Form = Form(file: Option<seq<Row>>, priceType: Option<string>)

  datatype Response = Rejected(status: nat, error: string) | Done(priceType: PriceType, results: Results)

  /** A cell counts as filled when it is neither null nor the empty text. */
  predicate Filled(c: Cell)
  {
    c != Blank && c != Text("")
  }

  /** The row filter: all three columns filled. */
  predicate IsValidRow(r: Row)
  {
    Filled(r.codigo) && Filled(r.descripcion) && Filled(r.precio)
  }

  function ValidRows(rows: seq<Row>): seq<Row>
  {
    Filter(IsValidRow, rows)
  }

  function ParsePriceType(s: Option<string>): (r: Option<PriceType>)
    ensures r == Some(Minorista) <==> s == Some("minorista")
    ensures r == Some(Mayorista) <==> s == Some("mayorista")
    ensures r.None? <==> s != Some("minorista") && s != Some("mayorista")
  {
    if s == Some("minorista") then Some(Minorista)
    else if s == Some("mayorista") then Some(Mayorista)
    else None
  }

  /** String(cell), for the cells a kept row can hold. */
  function CellText(conv: Conversions, c: Cell): string
  {
    match c
    case Blank => "null"
    case Text(s) => s
    case Number(x) => conv.numberText(x)
  }

  /** The SKU of a row: String(codigo).trim(). */
  function SkuOf(conv: Conversions, r: Row): string
  {
    Trim(CellText(conv, r.codigo))
  }

  /** parseFloat(precio): a number cell is its own value. */
  function PriceOf(conv: Conversions, r: Row): Option<real>
  {
    match r.precio
    case Blank => None
    case Text(s) => conv.parseText(s)
    case Number(x) => Some(x)
  }

  /** The price field the import reads and writes. */
  function Written(pt: PriceType, p: Product): Option<real>
  {
    if pt == Minorista then Some(p.price) else p.priceWholesale
  }

  /** The product with the selected price field set to v. */
  function Write(pt: PriceType, p: Product, v: real): (r: Product)
    ensures Written(pt, r) == Some(v)
    ensures r.id == p.id && r.name == p.name
    ensures pt == Minorista ==> r.priceWholesale == p.priceWholesale
    ensures pt == Mayorista ==> r.price == p.price
  {
    if pt == Minorista then p.(price := v) else p.(priceWholesale := Some(v))
  }

  /** The product after an optional write: written with the value if there
      is one, as it was otherwise. */
  function WriteIfAny(pt: PriceType, p: Product, v: Option<real>): Product
  {
    if v.Some? then Write(pt, p, v.value) else p
  }

  /** Writing a field's current value back, a null one included, changes
      nothing. */
  lemma WriteSame(pt: PriceType, p: Product)
    ensures WriteIfAny(pt, p, Written(pt, p)) == p
  {
  }

  /** The state the loop carries: the table and the three result lists. */
  datatype Progress = Progress(table: map<string, Product>, actualizados: seq<Updated>, noEncontrados: seq<NotFound>, errores: seq<Failed>)

  /** One iteration of the per-row loop. */
  function Step(conv: Conversions, pt: PriceType, st: Progress, r: Row): (next: Progress)
    ensures next.table.Keys == st.table.Keys
    ensures PriceOf(conv, r).None? ==>
      next == st.(errores := st.errores + [Failed(SkuOf(conv, r), "Precio inválido")])
    ensures PriceOf(conv, r).Some? && SkuOf(conv, r) !in st.table ==>
      next == st.(noEncontrados := st.noEncontrados + [NotFound(SkuOf(conv, r), r.descripcion)])
    ensures PriceOf(conv, r).Some? && SkuOf(conv, r) in st.table ==>
      var sku, p := SkuOf(conv, r), PriceOf(conv, r).value;
      && next.noEncontrados == st.noEncontrados && next.errores == st.errores
      && next.actualizados == st.actualizados + [Updated(sku, st.table[sku].name, Written(pt, st.table[sku]), p)]
      && next.table == st.table[sku := Write(pt, st.table[sku], p)]
  {
    var sku := SkuOf(conv, r);
    match PriceOf(conv, r)
    case None => st.(errores := st.errores + [Failed(sku, "Precio inválido")])
    case Some(p) =>
      if sku !in st.table then
        st.(noEncontrados := st.noEncontrados + [NotFound(sku, r.descripcion)])
      else
        var old_ := st.table[sku];
        Progress(st.table[sku := Write(pt, old_, p)],
                 st.actualizados + [Updated(sku, old_.name, Written(pt, old_), p)],
                 st.noEncontrados, st.errores)
  }

  /** The loop over the kept rows, in row order, from the initial table and
      empty result lists. */
  function Run(conv: Conversions, pt: PriceType, table: map<string, Product>, rows: seq<Row>): (st: Progress)
    ensures st.table.Keys == table.Keys
    ensures |st.actualizados| + |st.noEncontrados| + |st.errores| == |rows|
  {
    if rows == [] then Progress(table, [], [], [])
    else Step(conv, pt, Run(conv, pt, table, rows[..|rows| - 1]), rows[|rows| - 1])
  }

  /** The three ways a row can end up. */
  predicate BadPrice(conv: Conversions, r: Row)
  {
    PriceOf(conv, r).None?
  }

  predicate Missing(conv: Conversions, keys: set<string>, r: Row)
  {
    PriceOf(conv, r).Some? && SkuOf(conv, r) !in keys
  }

  predicate Found(conv: Conversions, keys: set<string>, r: Row)
  {
    PriceOf(conv, r).Some? && SkuOf(conv, r) in keys
  }

  function ErrorEntry(conv: Conversions, r: Row): Failed
  {
    Failed(SkuOf(conv, r), "Precio inválido")
  }

  function NotFoundEntry(conv: Conversions, r: Row): NotFound
  {
    NotFound(SkuOf(conv, r), r.descripcion)
  }

  /** What an actualizados entry says about its row: the SKU and new price. */
  function Change(u: Updated): (string, Option<real>)
  {
    (u.sku, Some(u.precioNuevo))
  }

  function RowChange(conv: Conversions, r: Row): (string, Option<real>)
  {
    (SkuOf(conv, r), PriceOf(conv, r))
  }

  /** Each row is sorted by its own content and the SKUs of the initial
      table (writes never add or remove SKUs). errores holds exactly the rows
      whose price does not parse, in row order. */
  lemma {:induction false} RunErrores(conv: Conversions, pt: PriceType, table: map<string, Product>, rows: seq<Row>)
    ensures Run(conv, pt, table, rows).errores
         == MapSeq(r => ErrorEntry(conv, r), Filter(r => BadPrice(conv, r), rows))
  {
    if rows != [] {
      var front, last := rows[..|rows| - 1], rows[|rows| - 1];
      var bad := r => BadPrice(conv, r);
      var entry := r => ErrorEntry(conv, r);
      var added := if bad(last) then [entry(last)] else [];
      RunErrores(conv, pt, table, front);
      assert Run(conv, pt, table, rows).errores == Run(conv, pt, table, front).errores + added by {
        StepLists(conv, pt, Run(conv, pt, table, front), last);
      }
      MapFilterLast(entry, bad, rows);
    }
  }

  /** How one step extends each list: errores for a bad price, noEncontrados
      for an unknown SKU, actualizados for a known one. */
  lemma StepLists(conv: Conversions, pt: PriceType, st: Progress, r: Row)
    ensures var next := Step(conv, pt, st, r);
      && next.errores == st.errores + (if BadPrice(conv, r) then [ErrorEntry(conv, r)] else [])
      && next.noEncontrados == st.noEncontrados + (if Missing(conv, st.table.Keys, r) then [NotFoundEntry(conv, r)] else [])
      && (Found(conv, st.table.Keys, r) ==>
            |next.actualizados| == |st.actualizados| + 1
            && next.actualizados[..|st.actualizados|] == st.actualizados
            && Change(next.actualizados[|st.actualizados|]) == RowChange(conv, r))
      && (!Found(conv, st.table.Keys, r) ==> next.actualizados == st.actualizados)
  {
    var next := Step(conv, pt, st, r);
    if Found(conv, st.table.Keys, r) {
      assert next.actualizados[..|st.actualizados|] == st.actualizados;
    }
  }

  /** noEncontrados holds exactly the rows whose price parses and whose SKU
      is not in the table, with their descripcion, in row order. */
  lemma {:induction false} RunNoEncontrados(conv: Conversions, pt: PriceType, table: map<string, Product>, rows: seq<Row>)
    ensures Run(conv, pt, table, rows).noEncontrados
         == MapSeq(r => NotFoundEntry(conv, r), Filter(r => Missing(conv, table.Keys, r), rows))
  {
    if rows != [] {
      var front, last := rows[..|rows| - 1], rows[|rows| - 1];
      var missing := r => Missing(conv, table.Keys, r);
      var entry := r => NotFoundEntry(conv, r);
      var added := if missing(last) then [entry(last)] else [];
      RunNoEncontrados(conv, pt, table, front);
      assert Run(conv, pt, table, rows).noEncontrados == Run(conv, pt, table, front).noEncontrados + added by {
        StepLists(conv, pt, Run(conv, pt, table, front), last);
      }
      MapFilterLast(entry, missing, rows);
    }
  }

  /** actualizados has one entry per row whose price parses and whose SKU is
      in the table, in row order, carrying that row's SKU and price. */
  lemma {:induction false} RunActualizados(conv: Conversions, pt: PriceType, table: map<string, Product>, rows: seq<Row>)
    ensures MapSeq(Change, Run(conv, pt, table, rows).actualizados)
         == MapSeq(r => RowChange(conv, r), Filter(r => Found(conv, table.Keys, r), rows))
  {
    if rows != [] {
      var front, last := rows[..|rows| - 1], rows[|rows| - 1];
      var found := r => Found(conv, table.Keys, r);
      var change := r => RowChange(conv, r);
      var added := if found(last) then [change(last)] else [];
      RunActualizados(conv, pt, table, front);
      var before := Run(conv, pt, table, front).actualizados;
      var after := Run(conv, pt, table, rows).actualizados;
      assert MapSeq(Change, after) == MapSeq(Change, before) + added by {
        StepLists(conv, pt, Run(conv, pt, table, front), last);
        if found(last) {
          SplitLast(after);
          MapSnoc(Change, before, after[|before|]);
        }
      }
      MapFilterLast(change, found, rows);
    }
  }

  /** The price of the last row that parses and names `sku`, None if no
      row does. */
  function LastPrice(conv: Conversions, rows: seq<Row>, sku: string): Option<real>
  {
    if rows == [] then None
    else
      var last := rows[|rows| - 1];
      if PriceOf(conv, last).Some? && SkuOf(conv, last) == sku then PriceOf(conv, last)
      else LastPrice(conv, rows[..|rows| - 1], sku)
  }

  /** The final table: every product keeps its id, its name and the price
      field that was not selected; the selected field holds the last price
      written to it, and a product that no row names is unchanged. */
  lemma {:induction false} RunTable(conv: Conversions, pt: PriceType, table: map<string, Product>, rows: seq<Row>)
    ensures var st := Run(conv, pt, table, rows);
      forall sku :: sku in table ==>
        st.table[sku] == WriteIfAny(pt, table[sku], LastPrice(conv, rows, sku))
  {
    if rows != [] {
      var front, last := rows[..|rows| - 1], rows[|rows| - 1];
      RunTable(conv, pt, table, front);
      var st0 := Run(conv, pt, table, front);
      forall sku | sku in table
        ensures Run(conv, pt, table, rows).table[sku] == WriteIfAny(pt, table[sku], LastPrice(conv, rows, sku))
      {
        StepTable(conv, pt, st0, last, sku);
        if PriceOf(conv, last).Some? {
          WriteTwice(pt, table[sku], LastPrice(conv, front, sku), PriceOf(conv, last).value);
        }
      }
    }
  }

  /** One step leaves a product alone unless the row updates its SKU. */
  lemma StepTable(conv: Conversions, pt: PriceType, st: Progress, r: Row, sku: string)
    requires sku in st.table
    ensures var next := Step(conv, pt, st, r);
      sku in next.table &&
      next.table[sku] == if PriceOf(conv, r).Some? && SkuOf(conv, r) == sku then Write(pt, st.table[sku], PriceOf(conv, r).value) else st.table[sku]
  {
  }

  /** A second write to the same field replaces the first. */
  lemma WriteTwice(pt: PriceType, p: Product, v: Option<real>, w: real)
    ensures Write(pt, WriteIfAny(pt, p, v), w) == Write(pt, p, w)
  {
  }

  /** Two rows in a row that update the same SKU: the second one's
      precioAnterior is the price the first one wrote. */
  lemma RepeatedSkuSeesEarlierWrite(conv: Conversions, pt: PriceType, table: map<string, Product>, rows: seq<Row>, r1: Row, r2: Row)
    requires Found(conv, table.Keys, r1) && Found(conv, table.Keys, r2)
    requires SkuOf(conv, r1) == SkuOf(conv, r2)
    ensures var st := Run(conv, pt, table, rows + [r1, r2]);
      |st.actualizados| >= 2
      && st.actualizados[|st.actualizados| - 2].precioNuevo == PriceOf(conv, r1).value
      && st.actualizados[|st.actualizados| - 1].precioAnterior == PriceOf(conv, r1)
  {
    var all := rows + [r1, r2];
    var mid := rows + [r1];
    assert all[..|all| - 1] == mid && all[|all| - 1] == r2;
    assert mid[..|mid| - 1] == rows && mid[|mid| - 1] == r1;
    var st0 := Run(conv, pt, table, rows);
    var st1 := Run(conv, pt, table, mid);
    var sku := SkuOf(conv, r1);
    assert st1 == Step(conv, pt, st0, r1);
    assert sku in st0.table;
    assert st1.table[sku] == Write(pt, st0.table[sku], PriceOf(conv, r1).value);
  }

  /** A wholesale import of a product whose wholesale price is null, with
      no earlier row for its SKU: the entry records a null precioAnterior
      and the product ends the step with the new wholesale price. */
  lemma NullWholesaleRecordsNull(conv: Conversions, table: map<string, Product>, rows: seq<Row>, r: Row)
    requires Found(conv, table.Keys, r) && table[SkuOf(conv, r)].priceWholesale.None?
    requires forall k :: 0 <= k < |rows| ==> !(PriceOf(conv, rows[k]).Some? && SkuOf(conv, rows[k]) == SkuOf(conv, r))
    ensures var st := Run(conv, Mayorista, table, rows + [r]);
      && |st.actualizados| >= 1
      && st.actualizados[|st.actualizados| - 1].precioAnterior.None?
      && st.table[SkuOf(conv, r)].priceWholesale == PriceOf(conv, r)
  {
    var all := rows + [r];
    assert all[..|all| - 1] == rows && all[|all| - 1] == r;
    var sku := SkuOf(conv, r);
    RunTable(conv, Mayorista, table, rows);
    LastPriceNone(conv, rows, sku);
  }

  /** No row for the SKU means no last price for it. */
  lemma {:induction false} LastPriceNone(conv: Conversions, rows: seq<Row>, sku: string)
    requires forall k :: 0 <= k < |rows| ==> !(PriceOf(conv, rows[k]).Some? && SkuOf(conv, rows[k]) == sku)
    ensures LastPrice(conv, rows, sku).None?
  {
    if rows != [] {
      LastPriceNone(conv, rows[..|rows| - 1], sku);
    }
  }

  const NoFileError := "No se proporcionó ningún archivo"
  const PriceTypeError := "Tipo de precio inválido"
  const NoRowsError := "No se encontraron filas válidas en el archivo"

  /** Taking one more row into the prefix is one more step. */
  lemma RunPrefixStep(conv: Conversions, pt: PriceType, table: map<string, Product>, rows: seq<Row>, i: nat)
    requires i < |rows|
    ensures Run(conv, pt, table, rows[..i + 1]) == Step(conv, pt, Run(conv, pt, table, rows[..i]), rows[i])
  {
    assert rows[..i + 1][..i] == rows[..i];
  }

  /** The per-row loop of the handler, over the kept rows. */
  method UpdateRows(conv: Conversions, priceType: PriceType, table: map<string, Product>, validRows: seq<Row>)
    returns (table': map<string, Product>, actualizados: seq<Updated>, noEncontrados: seq<NotFound>, errores: seq<Failed>)
    ensures Progress(table', actualizados, noEncontrados, errores) == Run(conv, priceType, table, validRows)
  {
    actualizados, noEncontrados, errores := [], [], [];
    table' := table;
    var i := 0;
    while i < |validRows|
      invariant 0 <= i <= |validRows|
      invariant Progress(table', actualizados, noEncontrados, errores) == Run(conv, priceType, table, validRows[..i])
    {
      var row := validRows[i];
      RunPrefixStep(conv, priceType, table, validRows, i);
      ghost var st := Progress(table', actualizados, noEncontrados, errores);
      var sku := Trim(CellText(conv, row.codigo));
      var precio := PriceOf(conv, row);
      if precio.None? {
        errores := errores + [Failed(sku, "Precio inválido")];
        assert Progress(table', actualizados, noEncontrados, errores) == Step(conv, priceType, st, row);
      } else if sku !in table' {
        noEncontrados := noEncontrados + [NotFound(sku, row.descripcion)];
        assert Progress(table', actualizados, noEncontrados, errores) == Step(conv, priceType, st, row);
      } else {
        var producto := table'[sku];
        table' := table'[sku := Write(priceType, producto, precio.value)];
        actualizados := actualizados + [Updated(sku, producto.name, Written(priceType, producto), precio.value)];
        assert Progress(table', actualizados, noEncontrados, errores) == Step(conv, priceType, st, row);
      }
      assert Progress(table', actualizados, noEncontrados, errores) == Run(conv, priceType, table, validRows[..i + 1]);
      i := i + 1;
    }
    assert validRows[..i] == validRows;
  }

  /** The request handler. */
  method Post(conv: Conversions, table: map<string, Product>, form: Form) returns (resp: Response, table': map<string, Product>)
    ensures form.file.None? ==>
      resp == Rejected(400, NoFileError) && table' == table
    ensures form.file.Some? && ParsePriceType(form.priceType).None? ==>
      resp == Rejected(400, PriceTypeError) && table' == table
    ensures form.file.Some? && ParsePriceType(form.priceType).Some? && ValidRows(form.file.value) == [] ==>
      resp == Rejected(400, NoRowsError) && table' == table
    ensures resp.Done? <==>
      form.file.Some? && ParsePriceType(form.priceType).Some? && ValidRows(form.file.value) != []
    ensures resp.Done? ==>
      var valid := ValidRows(form.file.value);
      var st := Run(conv, resp.priceType, table, valid);
      && Some(resp.priceType) == ParsePriceType(form.priceType)
      && resp.results == Results(st.actualizados, st.noEncontrados, st.errores, |valid|)
      && table' == st.table
  {
    if form.file.None? {
      return Rejected(400, NoFileError), table;
    }
    var pt := ParsePriceType(form.priceType);
    if pt.None? {
      return Rejected(400, PriceTypeError), table;
    }
    var priceType := pt.value;
    var validRows := ValidRows(form.file.value);
    if |validRows| == 0 {
      return Rejected(400, NoRowsError), table;
    }
    var actualizados, noEncontrados, errores;
    table', actualizados, noEncontrados, errores := UpdateRows(conv, priceType, table, validRows);
    resp := Done(priceType, Results(actualizados, noEncontrados, errores, |validRows|));
  }
}

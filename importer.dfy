// importer.py: DataImporter.parse_vat_rate and what import_from_file does with a
// sheet once pandas has read it, i.e. renaming the recognised headers, checking
// the required columns, filling in defaults and normalising each row into a
// product record for import_products_batch.
module Importer {
  import opened Options
  import opened Text
  import Catalog

  /** VAT rate used when a cell is empty or unreadable. */
  const DefaultVatRate := 23.0
  const DefaultUnit := "szt."
  const DefaultPrice := 0.0

  // ---- parse_vat_rate ----

  /** The text float() is given: the cell trimmed, every '%' removed, trimmed again. */
  function VatText(s: string): (t: string)
    ensures '%' !in t && Trimmed(t)
  {
    Strip(RemoveChar(Strip(s), '%'))
  }

  /** A rate written as a fraction (strictly between 0 and 1) is turned into a percentage. */
  function ScaleVat(v: real): (r: real)
    ensures 0.0 < v < 1.0 ==> r == v * 100.0 && 0.0 < r < 100.0
    ensures !(0.0 < v < 1.0) ==> r == v
  {
    if 0.0 < v < 1.0 then v * 100.0 else v
  }

  /** parse_vat_rate on one cell; None is a missing (NaN) cell. */
  function ParseVatRate(cell: Option<string>): (rate: real)
    ensures cell.None? || ParseFloat(VatText(cell.value)).None? ==> rate == DefaultVatRate
    ensures cell.Some? && ParseFloat(VatText(cell.value)).Some? ==>
              rate == ScaleVat(ParseFloat(VatText(cell.value)).value)
  {
    match cell
    case None => DefaultVatRate
    case Some(s) =>
      match ParseFloat(VatText(s))
      case None => DefaultVatRate
      case Some(v) => ScaleVat(v)
  }

  lemma VatTextIgnoresPercent(a: string, b: string)
    ensures VatText(a + "%" + b) == VatText(a + b)
  {
    var x, y := a + "%" + b, a + b;
    assert !IsSpace('%');
    RemoveMiddle(a, b, '%');
    StripRemoveStrip(x, '%');
    StripRemoveStrip(y, '%');
  }

  lemma RemoveMiddle(a: string, b: string, c: char)
    ensures RemoveChar(a + [c] + b, c) == RemoveChar(a + b, c)
  {
    assert a + [c] + b == a + ([c] + b);
    RemoveCharConcat(a, [c] + b, c);
    RemoveCharConcat([c], b, c);
    RemoveCharConcat(a, b, c);
    assert RemoveChar([c], c) == [];
  }

  /** A '%' anywhere in the cell is ignored, wherever it stands. */
  lemma PercentAnywhere(a: string, b: string)
    ensures ParseVatRate(Some(a + "%" + b)) == ParseVatRate(Some(a + b))
  {
    VatTextIgnoresPercent(a, b);
  }

  /** An empty cell and text float() cannot read both give the default rate. */
  lemma DefaultRate(s: string)
    requires ParseFloat(VatText(s)) == None
    ensures ParseVatRate(None) == DefaultVatRate && ParseVatRate(Some(s)) == DefaultVatRate
  {
  }

  /** A whole number is read as that many percent. */
  lemma WholeRate(n: nat)
    ensures ParseVatRate(Some(NatDigits(n))) == n as real
  {
    var s := NatDigits(n);
    assert '%' !in s;
    assert Trimmed(s) by {
      assert IsDigit(s[0]) && IsDigit(s[|s| - 1]);
    }
    StripTrimmed(s);
    RemoveCharAbsent(s, '%');
    ParseNatDigits(n);
  }

  /** Whitespace around the cell is ignored. */
  lemma PaddingIgnored(lead: string, s: string, trail: string)
    requires AllSpace(lead) && AllSpace(trail)
    ensures ParseVatRate(Some(lead + s + trail)) == ParseVatRate(Some(s))
  {
    StripPadded(lead, s, trail);
  }

  /** A rate written as a fraction: "0.23" is 23 %. */
  lemma FractionRate()
    ensures ParseVatRate(Some("0.23")) == 23.0
  {
    FractionText();
    FractionValue();
  }

  lemma FractionText()
    ensures VatText("0.23") == "0.23"
  {
    var s := "0.23";
    assert Trimmed(s);
    StripTrimmed(s);
    RemoveCharAbsent(s, '%');
  }

  lemma FractionValue()
    ensures ParseFloat("0.23") == Some(0.23)
  {
    var s := "0.23";
    assert Trimmed(s);
    StripTrimmed(s);
    assert LeadingDigits(s[2..]) == 2;
    assert LeadingDigits(s) == 1;
    assert s[..1] == "0" && s[2..] == "23";
    assert DigitsValue("23") == 23 by {
      assert "23"[..1] == "2";
    }
  }

  /** "23" and "23%" read as 23. */
  lemma WholeRateExamples()
    ensures ParseVatRate(Some("23")) == 23.0
    ensures ParseVatRate(Some("23%")) == 23.0
  {
    var s := NatDigits(23);
    assert s == "23";
    WholeRate(23);
    PercentAnywhere(s, "");
    assert s + "%" + "" == "23%" && s + "" == s;
  }

  /** "5 %" reads as 5. */
  lemma SpacedPercentExample()
    ensures ParseVatRate(Some("5 %")) == 5.0
  {
    var s := NatDigits(5);
    assert s == "5";
    WholeRate(5);
    PaddingIgnored("", s, " ");
    assert "" + s + " " == "5 ";
    PercentAnywhere("5 ", "");
    assert "5 " + "%" + "" == "5 %" && "5 " + "" == "5 ";
  }

  // ---- column mapping ----

  /** The recognised header texts and the column each one stands for. */
  const ColumnMapping: map<string, string> := map[
    "Nr" := "code", "nr" := "code", "Indeks" := "code", "Kod" := "code",
    "Opis" := "name", "opis" := "name", "Nazwa" := "name", "nazwa" := "name",
    "Podst. jednostka miary" := "unit", "Jednostka" := "unit", "jednostka" := "unit", "JM" := "unit",
    "Ostatni koszt bezpośredni" := "purchase_price_net", "Cena zakupu" := "purchase_price_net",
    "Cena zakupu netto" := "purchase_price_net", "cena zakupu" := "purchase_price_net",
    "cena zakupu netto" := "purchase_price_net", "Koszt" := "purchase_price_net",
    "Tow. grupa księgowa VAT" := "vat_rate", "VAT" := "vat_rate", "Vat" := "vat_rate",
    "vat" := "vat_rate", "Stawka VAT" := "vat_rate", "stawka vat" := "vat_rate"
  ]

  const RequiredColumns := ["code", "name"]

  /** The column a header ends up as: its mapped name if its trimmed text is recognised, else the header unchanged. */
  function Renamed(header: string): string {
    var clean := Strip(header);
    if clean in ColumnMapping then ColumnMapping[clean] else header
  }

  function RenamedAll(headers: seq<string>): (cols: seq<string>)
    ensures |cols| == |headers| && forall i :: 0 <= i < |headers| ==> cols[i] == Renamed(headers[i])
  {
    seq(|headers|, i requires 0 <= i < |headers| => Renamed(headers[i]))
  }

  /** The five column names the mapping produces. */
  const MappedNames: set<string> := {"code", "name", "unit", "purchase_price_net", "vat_rate"}

  /** Every recognised header stands for one of the five column names. */
  lemma MappedValues()
    ensures forall k :: k in ColumnMapping ==> ColumnMapping[k] in MappedNames
  {
  }

  /** None of the five column names is itself a recognised header. */
  lemma MappedNameNotHeader(t: string)
    requires t in MappedNames
    ensures t !in ColumnMapping
  {
    if t == "code" {
      assert "code" !in ColumnMapping;
    } else if t == "name" {
      assert "name" !in ColumnMapping;
    } else if t == "unit" {
      assert "unit" !in ColumnMapping;
    } else if t == "purchase_price_net" {
      assert "purchase_price_net" !in ColumnMapping;
    } else {
      assert "vat_rate" !in ColumnMapping;
    }
  }

  /** None of the five column names has surrounding whitespace. */
  lemma MappedNameTrimmed(t: string)
    requires t in MappedNames
    ensures Strip(t) == t
  {
    if t == "code" {
      StripTrimmed("code");
    } else if t == "name" {
      StripTrimmed("name");
    } else if t == "unit" {
      StripTrimmed("unit");
    } else if t == "purchase_price_net" {
      StripTrimmed("purchase_price_net");
    } else {
      StripTrimmed("vat_rate");
    }
  }

  /** Renaming a renamed header changes nothing more: the mapped names are not recognised headers. */
  lemma RenameIdempotent(header: string)
    ensures Renamed(Renamed(header)) == Renamed(header)
  {
    var clean := Strip(header);
    if clean in ColumnMapping {
      MappedValues();
      MappedNameNotHeader(ColumnMapping[clean]);
      MappedNameTrimmed(ColumnMapping[clean]);
    }
  }

  /** The renaming loop of import_from_file: collect the recognised headers into renamed_columns, then rename. */
  method RenameColumns(headers: seq<string>) returns (cols: seq<string>)
    ensures cols == RenamedAll(headers)
  {
    var renamed: map<string, string> := map[];
    var i := 0;
    while i < |headers|
      invariant 0 <= i <= |headers|
      invariant renamed == RenameMap(headers[..i])
    {
      var col := headers[i];
      var clean := Strip(col);
      assert headers[..i + 1][..i] == headers[..i];
      if clean in ColumnMapping {
        renamed := renamed[col := ColumnMapping[clean]];
      }
      i := i + 1;
    }
    assert headers[..i] == headers;
    cols := seq(|headers|, j requires 0 <= j < |headers| => if headers[j] in renamed then renamed[headers[j]] else headers[j]);
    forall j | 0 <= j < |headers| ensures cols[j] == Renamed(headers[j]) {
      RenameMapLookup(headers, headers[j]);
    }
  }

  /** renamed_columns after the headers `headers`: each recognised header to its mapped name. */
  function RenameMap(headers: seq<string>): map<string, string> {
    if headers == [] then map[]
    else
      var m := RenameMap(headers[..|headers| - 1]);
      var col := headers[|headers| - 1];
      if Strip(col) in ColumnMapping then m[col := ColumnMapping[Strip(col)]] else m
  }

  lemma {:induction false} RenameMapLookup(headers: seq<string>, h: string)
    ensures h in RenameMap(headers) <==> h in headers && Strip(h) in ColumnMapping
    ensures h in RenameMap(headers) ==> RenameMap(headers)[h] == ColumnMapping[Strip(h)]
  {
    if headers != [] {
      var init := headers[..|headers| - 1];
      RenameMapLookup(init, h);
      assert headers == init + [headers[|headers| - 1]];
    }
  }

  /** The required columns the renamed sheet lacks, in the order they are required. */
  function Missing(required: seq<string>, cols: seq<string>): (missing: seq<string>)
    ensures forall c :: c in missing <==> c in required && c !in cols
    ensures |missing| <= |required|
  {
    if required == [] then []
    else (if required[0] in cols then [] else [required[0]]) + Missing(required[1..], cols)
  }

  lemma NothingMissing(cols: seq<string>)
    ensures Missing(RequiredColumns, cols) == [] <==> "code" in cols && "name" in cols
  {
    assert "code" in RequiredColumns && "name" in RequiredColumns;
    if Missing(RequiredColumns, cols) != [] {
      var c := Missing(RequiredColumns, cols)[0];
      assert c in RequiredColumns;
    }
  }

  // ---- rows ----

  /** What pandas hands over: the header texts and, per row, one optional text per column (None for NaN). */
  datatype Sheet = Sheet(headers: seq<string>, rows: seq<seq<Option<string>>>)

  datatype ImportError =
    | MissingColumns(columns: seq<string>)
    | AmbiguousColumn(column: string)
    | BadPrice(row: nat, text: string)

  /**
   * row[column]: no such column, several columns of that name (pandas gives a Series, whose
   * truth value raises), or the cell; a row shorter than the header reads NaN.
   */
  datatype Cell = Absent | Ambiguous | Value(text: Option<string>)

  /** The positions of the columns called `name`. */
  function IndicesOf(cols: seq<string>, name: string): (r: seq<nat>)
    ensures forall j :: j in r <==> 0 <= j < |cols| && cols[j] == name
    ensures forall a, b :: 0 <= a < b < |r| ==> r[a] < r[b]
  {
    if cols == [] then []
    else
      var init := IndicesOf(cols[..|cols| - 1], name);
      assert forall j :: 0 <= j < |cols| - 1 ==> cols[..|cols| - 1][j] == cols[j];
      assert forall a :: 0 <= a < |init| ==> init[a] in init && init[a] < |cols| - 1;
      if cols[|cols| - 1] == name then init + [|cols| - 1] else init
  }

  lemma IndicesOfEmpty(cols: seq<string>, name: string)
    ensures IndicesOf(cols, name) == [] <==> name !in cols
  {
    var at := IndicesOf(cols, name);
    if name in cols {
      var j :| 0 <= j < |cols| && cols[j] == name;
      assert j in at;
    }
    if at != [] {
      assert at[0] in at;
    }
  }

  /**
   * `c` is what row[name] gives: absent when no header is `name`, ambiguous when two headers
   * are, and otherwise the row's entry under that one header (NaN past the row's end).
   */
  ghost predicate CellAt(cols: seq<string>, row: seq<Option<string>>, name: string, c: Cell) {
    && (c == Absent <==> name !in cols)
    && (c == Ambiguous <==> exists j, k :: 0 <= j < k < |cols| && cols[j] == name && cols[k] == name)
    && (c.Value? ==> exists j :: 0 <= j < |cols| && cols[j] == name && c.text == (if j < |row| then row[j] else None))
  }

  function CellOf(cols: seq<string>, row: seq<Option<string>>, name: string): (c: Cell)
    ensures c == Absent <==> name !in cols
    ensures CellAt(cols, row, name, c)
  {
    var at := IndicesOf(cols, name);
    IndicesOfEmpty(cols, name);
    if at == [] then Absent
    else
      assert at[0] in at;
      if |at| > 1 then
        assert at[1] in at;
        Ambiguous
      else
        assert forall j :: j in at ==> j == at[0];
        Value(if at[0] < |row| then row[at[0]] else None)
  }

  /** str(cell).strip(), or the default for a NaN cell or an absent column. */
  function TextCell(c: Cell, column: string, default: string): (r: Result<string, ImportError>)
    ensures r.Err? <==> c == Ambiguous
    ensures r.Ok? && Trimmed(default) ==> Trimmed(r.value)
    ensures c.Value? && c.text.Some? ==> r == Ok(Strip(c.text.value))
    ensures c == Absent || c == Value(None) ==> r == Ok(default)
  {
    match c
    case Ambiguous => Err(AmbiguousColumn(column))
    case Absent => Ok(default)
    case Value(None) => Ok(default)
    case Value(Some(t)) => Ok(Strip(t))
  }

  /** float(cell), or 0.0 for a NaN cell or an absent column; text float() rejects raises. */
  function PriceCell(c: Cell, rowIndex: nat): (r: Result<real, ImportError>)
    ensures r.Err? <==> c == Ambiguous || (c.Value? && c.text.Some? && ParseFloat(c.text.value).None?)
    ensures r.Err? && c == Ambiguous ==> r.error == AmbiguousColumn("purchase_price_net")
    ensures r.Err? && c.Value? && c.text.Some? ==> r.error == BadPrice(rowIndex, c.text.value)
    ensures r.Ok? && c.Value? && c.text.Some? ==> ParseFloat(c.text.value) == Some(r.value)
    ensures c == Absent || c == Value(None) ==> r == Ok(DefaultPrice)
  {
    match c
    case Ambiguous => Err(AmbiguousColumn("purchase_price_net"))
    case Absent => Ok(DefaultPrice)
    case Value(None) => Ok(DefaultPrice)
    case Value(Some(t)) =>
      match ParseFloat(t)
      case None => Err(BadPrice(rowIndex, t))
      case Some(v) => Ok(v)
  }

  function VatCell(c: Cell): (r: Result<real, ImportError>)
    ensures r.Err? <==> c == Ambiguous
    ensures c.Value? ==> r == Ok(ParseVatRate(c.text))
    ensures c == Absent ==> r == Ok(DefaultVatRate)
  {
    match c
    case Ambiguous => Err(AmbiguousColumn("vat_rate"))
    case Absent => Ok(DefaultVatRate)
    case Value(cell) => Ok(ParseVatRate(cell))
  }

  /** The five cells of a row the product dictionary reads. */
  datatype RowCells = RowCells(code: Cell, name: Cell, unit: Cell, price: Cell, vat: Cell)

  function CellsOf(cols: seq<string>, row: seq<Option<string>>): (c: RowCells)
    ensures c.unit == Absent <==> "unit" !in cols
    ensures c.price == Absent <==> "purchase_price_net" !in cols
    ensures c.vat == Absent <==> "vat_rate" !in cols
  {
    RowCells(CellOf(cols, row, "code"), CellOf(cols, row, "name"), CellOf(cols, row, "unit"),
             CellOf(cols, row, "purchase_price_net"), CellOf(cols, row, "vat_rate"))
  }

  /** Each of the five cells is read from the column of its own name. */
  lemma CellsOfPositions(cols: seq<string>, row: seq<Option<string>>)
    ensures var c := CellsOf(cols, row);
      && CellAt(cols, row, "code", c.code) && CellAt(cols, row, "name", c.name)
      && CellAt(cols, row, "unit", c.unit) && CellAt(cols, row, "purchase_price_net", c.price)
      && CellAt(cols, row, "vat_rate", c.vat)
  {
  }

  /**
   * The record's fields are the row's cells as the product dictionary reads them: text cells
   * stripped, the price through float(), the rate through parse_vat_rate, and the defaults
   * for NaN cells and absent columns.
   */
  ghost predicate ReadFrom(p: Catalog.ProductRecord, cells: RowCells) {
    && (cells.name.Value? && cells.name.text.Some? ==> p.name == Strip(cells.name.text.value))
    && (cells.name == Absent || cells.name == Value(None) ==> p.name == "")
    && (cells.unit.Value? && cells.unit.text.Some? ==> p.unit == Strip(cells.unit.text.value))
    && (cells.unit == Absent || cells.unit == Value(None) ==> p.unit == DefaultUnit)
    && (cells.price.Value? && cells.price.text.Some? ==> ParseFloat(cells.price.text.value) == Some(p.purchasePriceNet))
    && (cells.price == Absent || cells.price == Value(None) ==> p.purchasePriceNet == DefaultPrice)
    && (cells.vat.Value? ==> p.vatRate == ParseVatRate(cells.vat.text))
    && (cells.vat == Absent ==> p.vatRate == DefaultVatRate)
  }

  /** Building the product dictionary raises: a duplicated column, or a price float() rejects. */
  predicate RecordFails(cells: RowCells) {
    || cells.name == Ambiguous || cells.unit == Ambiguous || cells.vat == Ambiguous
    || cells.price == Ambiguous
    || (cells.price.Value? && cells.price.text.Some? && ParseFloat(cells.price.text.value).None?)
  }

  /** The product dictionary of a row whose trimmed code is `code`, fields built in order, the first failing one raising. */
  function RecordOf(code: string, cells: RowCells, rowIndex: nat, categoryId: Option<int>)
    : (r: Result<Catalog.ProductRecord, ImportError>)
    ensures r.Ok? ==> r.value.code == code && r.value.categoryId == categoryId
    ensures r.Ok? ==> Trimmed(r.value.name) && Trimmed(r.value.unit)
    ensures r.Ok? && cells.unit == Absent ==> r.value.unit == DefaultUnit
    ensures r.Ok? && cells.price == Absent ==> r.value.purchasePriceNet == DefaultPrice
    ensures r.Ok? && cells.vat == Absent ==> r.value.vatRate == DefaultVatRate
    ensures r.Err? <==> RecordFails(cells)
    ensures r.Ok? ==> ReadFrom(r.value, cells)
  {
    match TextCell(cells.name, "name", "")
    case Err(e) => Err(e)
    case Ok(name) =>
      match TextCell(cells.unit, "unit", DefaultUnit)
      case Err(e) => Err(e)
      case Ok(unit) =>
        match PriceCell(cells.price, rowIndex)
        case Err(e) => Err(e)
        case Ok(price) =>
          match VatCell(cells.vat)
          case Err(e) => Err(e)
          case Ok(vat) => Ok(Catalog.ProductRecord(code, name, unit, price, vat, categoryId))
  }

  /** The code a row is kept under: its code cell trimmed, None when that is NaN or blank. */
  function CodeOf(cell: Cell): (code: Option<string>)
    ensures code.Some? ==> code.value != "" && Trimmed(code.value)
  {
    match cell
    case Value(Some(t)) => if Strip(t) == "" then None else Some(Strip(t))
    case _ => None
  }

  /**
   * One pass of the row loop: skip a row with a NaN or blank code, otherwise build the
   * product dictionary; a code column pandas cannot read as one value raises.
   */
  function NormalizeRow(cells: RowCells, rowIndex: nat, categoryId: Option<int>)
    : (r: Result<Option<Catalog.ProductRecord>, ImportError>)
    ensures r.Err? ==> r.error.AmbiguousColumn? || r.error.BadPrice?
    ensures r.Ok? ==> (r.value.Some? <==> CodeOf(cells.code).Some?)
    ensures r.Ok? && r.value.Some? ==> r.value.value.code == CodeOf(cells.code).value
    ensures r.Ok? && r.value.Some? ==> CleanRecord(r.value.value, categoryId)
    ensures r.Ok? && r.value.Some? ==>
      && (cells.unit == Absent ==> r.value.value.unit == DefaultUnit)
      && (cells.price == Absent ==> r.value.value.purchasePriceNet == DefaultPrice)
      && (cells.vat == Absent ==> r.value.value.vatRate == DefaultVatRate)
    ensures r.Ok? && r.value.Some? ==> ReadFrom(r.value.value, cells)
    ensures r.Err? <==> cells.code == Ambiguous || (CodeOf(cells.code).Some? && RecordFails(cells))
  {
    if cells.code == Ambiguous then Err(AmbiguousColumn("code"))
    else
      match CodeOf(cells.code)
      case None => Ok(None)
      case Some(code) =>
        match RecordOf(code, cells, rowIndex, categoryId)
        case Err(e) => Err(e)
        case Ok(p) => Ok(Some(p))
  }

  /** The products list after the rows `rows`, or the error the first failing row raises. */
  function NormalizeAll(cols: seq<string>, rows: seq<seq<Option<string>>>, categoryId: Option<int>)
    : (r: Result<seq<Catalog.ProductRecord>, ImportError>)
    ensures r.Ok? ==> |r.value| <= |rows|
    ensures r.Ok? ==> forall p :: p in r.value ==> p.categoryId == categoryId
  {
    if rows == [] then Ok([])
    else
      match NormalizeAll(cols, rows[..|rows| - 1], categoryId)
      case Err(e) => Err(e)
      case Ok(products) =>
        match NormalizeRow(CellsOf(cols, rows[|rows| - 1]), |rows| - 1, categoryId)
        case Err(e) => Err(e)
        case Ok(None) => Ok(products)
        case Ok(Some(p)) => Ok(products + [p])
  }

  /** import_from_file after reading: rename, check the required columns, normalise the rows. */
  function Import(sheet: Sheet, categoryId: Option<int>): (r: Result<seq<Catalog.ProductRecord>, ImportError>)
    ensures r.Err? && r.error.MissingColumns? ==>
              && r.error.columns != []
              && forall c :: c in r.error.columns ==> c in RequiredColumns && c !in RenamedAll(sheet.headers)
    ensures r.Ok? ==> forall p :: p in r.value ==> p.categoryId == categoryId
  {
    var cols := RenamedAll(sheet.headers);
    var missing := Missing(RequiredColumns, cols);
    if missing != [] then Err(MissingColumns(missing))
    else
      NormalizeAllNoMissing(cols, sheet.rows, categoryId);
      NormalizeAll(cols, sheet.rows, categoryId)
  }

  method ImportFromFile(sheet: Sheet, categoryId: Option<int>) returns (result: Result<seq<Catalog.ProductRecord>, ImportError>)
    ensures result == Import(sheet, categoryId)
  {
    var cols := RenameColumns(sheet.headers);
    var missing := Missing(RequiredColumns, cols);
    if missing != [] {
      return Err(MissingColumns(missing));
    }
    result := NormalizeRows(cols, sheet.rows, categoryId);
  }

  /** The row loop of import_from_file. */
  method NormalizeRows(cols: seq<string>, rows: seq<seq<Option<string>>>, categoryId: Option<int>)
    returns (result: Result<seq<Catalog.ProductRecord>, ImportError>)
    ensures result == NormalizeAll(cols, rows, categoryId)
  {
    var products: seq<Catalog.ProductRecord> := [];
    var i := 0;
    while i < |rows|
      invariant 0 <= i <= |rows|
      invariant NormalizeAll(cols, rows[..i], categoryId) == Ok(products)
    {
      var outcome := NormalizeRow(CellsOf(cols, rows[i]), i, categoryId);
      NormalizeAllStep(cols, rows, i, categoryId, products);
      match outcome {
        case Err(e) =>
          NormalizeAllErrSticks(cols, rows, i + 1, categoryId);
          return Err(e);
        case Ok(None) =>
        case Ok(Some(p)) =>
          products := products + [p];
      }
      i := i + 1;
    }
    assert rows[..i] == rows;
    result := Ok(products);
  }

  lemma NormalizeAllStep(cols: seq<string>, rows: seq<seq<Option<string>>>, i: nat, categoryId: Option<int>, products: seq<Catalog.ProductRecord>)
    requires i < |rows| && NormalizeAll(cols, rows[..i], categoryId) == Ok(products)
    ensures NormalizeAll(cols, rows[..i + 1], categoryId) ==
      match NormalizeRow(CellsOf(cols, rows[i]), i, categoryId)
      case Err(e) => Err(e)
      case Ok(None) => Ok(products)
      case Ok(Some(p)) => Ok(products + [p])
  {
    assert rows[..i + 1][..i] == rows[..i];
  }

  /** Once a row fails, the whole import fails with that row's error. */
  lemma {:induction false} NormalizeAllErrSticks(cols: seq<string>, rows: seq<seq<Option<string>>>, n: nat, categoryId: Option<int>)
    requires n <= |rows| && NormalizeAll(cols, rows[..n], categoryId).Err?
    ensures NormalizeAll(cols, rows, categoryId) == NormalizeAll(cols, rows[..n], categoryId)
    decreases |rows| - n
  {
    if n < |rows| {
      var prefix := rows[..n + 1];
      assert NormalizeAll(cols, prefix, categoryId) == NormalizeAll(cols, rows[..n], categoryId) by {
        assert prefix[..|prefix| - 1] == rows[..n];
      }
      NormalizeAllErrSticks(cols, rows, n + 1, categoryId);
    } else {
      assert rows[..n] == rows;
    }
  }

  // ---- properties ----

  /** The required-column error is raised exactly when 'code' or 'name' is not among the renamed headers. */
  lemma MissingColumnsIff(sheet: Sheet, categoryId: Option<int>)
    ensures var cols := RenamedAll(sheet.headers);
      (Import(sheet, categoryId).Err? && Import(sheet, categoryId).error.MissingColumns?)
      <==> !("code" in cols && "name" in cols)
  {
    var cols := RenamedAll(sheet.headers);
    NothingMissing(cols);
    NormalizeAllNoMissing(cols, sheet.rows, categoryId);
  }

  lemma {:induction false} NormalizeAllNoMissing(cols: seq<string>, rows: seq<seq<Option<string>>>, categoryId: Option<int>)
    ensures NormalizeAll(cols, rows, categoryId).Err? ==> !NormalizeAll(cols, rows, categoryId).error.MissingColumns?
  {
    if rows != [] {
      NormalizeAllNoMissing(cols, rows[..|rows| - 1], categoryId);
    }
  }

  /** The number of rows with a non-blank code. */
  function KeptRows(cols: seq<string>, rows: seq<seq<Option<string>>>): (n: nat)
    ensures n <= |rows|
  {
    if rows == [] then 0
    else KeptRows(cols, rows[..|rows| - 1]) + (if CodeOf(CellsOf(cols, rows[|rows| - 1]).code).Some? then 1 else 0)
  }

  /** Every kept row gives one record, in row order: the output has as many records as rows with a code. */
  lemma {:induction false} ImportCount(cols: seq<string>, rows: seq<seq<Option<string>>>, categoryId: Option<int>)
    requires NormalizeAll(cols, rows, categoryId).Ok?
    ensures |NormalizeAll(cols, rows, categoryId).value| == KeptRows(cols, rows) <= |rows|
  {
    if rows != [] {
      var init := rows[..|rows| - 1];
      ImportCount(cols, init, categoryId);
    }
  }

  /** What every emitted record looks like: trimmed non-blank code, trimmed name and unit, the given category. */
  ghost predicate CleanRecord(p: Catalog.ProductRecord, categoryId: Option<int>) {
    && p.code != "" && Trimmed(p.code)
    && Trimmed(p.name)
    && Trimmed(p.unit)
    && p.categoryId == categoryId
  }

  lemma {:induction false} ImportClean(cols: seq<string>, rows: seq<seq<Option<string>>>, categoryId: Option<int>)
    requires NormalizeAll(cols, rows, categoryId).Ok?
    ensures forall p :: p in NormalizeAll(cols, rows, categoryId).value ==> CleanRecord(p, categoryId)
  {
    if rows != [] {
      ImportClean(cols, rows[..|rows| - 1], categoryId);
    }
  }

  /**
   * Every imported record is read from a row of the sheet: the row's code cell gives its code,
   * and its other cells give its fields as ReadFrom states.
   */
  lemma ImportReadsRows(cols: seq<string>, rows: seq<seq<Option<string>>>, categoryId: Option<int>)
    requires NormalizeAll(cols, rows, categoryId).Ok?
    ensures forall p :: p in NormalizeAll(cols, rows, categoryId).value ==>
      exists i :: 0 <= i < |rows| && RowGives(CellsOf(cols, rows[i]), p)
  {
    forall p | p in NormalizeAll(cols, rows, categoryId).value
      ensures exists i :: 0 <= i < |rows| && RowGives(CellsOf(cols, rows[i]), p)
    {
      var i := SourceRow(cols, rows, categoryId, p);
    }
  }

  /** The position of the row an imported record was read from. */
  lemma {:induction false} SourceRow(cols: seq<string>, rows: seq<seq<Option<string>>>, categoryId: Option<int>, p: Catalog.ProductRecord)
    returns (i: nat)
    requires NormalizeAll(cols, rows, categoryId).Ok? && p in NormalizeAll(cols, rows, categoryId).value
    ensures i < |rows| && RowGives(CellsOf(cols, rows[i]), p)
  {
    var init := rows[..|rows| - 1];
    var before := NormalizeAll(cols, init, categoryId);
    if before.Ok? && p in before.value {
      i := SourceRow(cols, init, categoryId, p);
      assert init[i] == rows[i];
    } else {
      i := |rows| - 1;
    }
  }

  /** The row with cells `cells` is kept as record `p`. */
  ghost predicate RowGives(cells: RowCells, p: Catalog.ProductRecord) {
    CodeOf(cells.code) == Some(p.code) && ReadFrom(p, cells)
  }

  /** A sheet without a unit, price or VAT column gives every record 'szt.', 0.0 and 23.0 for it. */
  lemma {:induction false} ImportDefaults(cols: seq<string>, rows: seq<seq<Option<string>>>, categoryId: Option<int>)
    requires NormalizeAll(cols, rows, categoryId).Ok?
    ensures forall p :: p in NormalizeAll(cols, rows, categoryId).value ==>
      && ("unit" !in cols ==> p.unit == DefaultUnit)
      && ("purchase_price_net" !in cols ==> p.purchasePriceNet == DefaultPrice)
      && ("vat_rate" !in cols ==> p.vatRate == DefaultVatRate)
  {
    if rows != [] {
      ImportDefaults(cols, rows[..|rows| - 1], categoryId);
    }
  }
}

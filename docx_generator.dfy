// docx_generator.py without the python-docx layout: its own copy of the price
// calculation, and the content of the offer document it writes, i.e. one
// five-column table (name, net price, unit label, VAT, gross price) per category.
module DocxGenerator {
  import opened Options
  import opened Money
  import opened Ordering
  import opened ReportGrouping
  import Pdf = PdfGenerator

  /**
   * DOCXGenerator.calculate_price: the same formulas, the same rounding and the same default
   * quantity as the PDF generator's, so both give equal results on equal inputs.
   */
  function CalculatePrice(purchasePrice: real, margin: real, vatRate: real, quantity: real): (r: Pdf.Prices)
    ensures r == Pdf.CalculatePrice(purchasePrice, margin, vatRate, quantity)
  {
    var netUnit := purchasePrice * (1.0 + margin / 100.0);
    var grossUnit := netUnit * (1.0 + vatRate / 100.0);
    var netTotal := netUnit * quantity;
    var vatAmount := netTotal * (vatRate / 100.0);
    var grossTotal := netTotal + vatAmount;
    assert Pdf.ExactPrices(purchasePrice, margin, vatRate, quantity) == Pdf.Prices(netUnit, grossUnit, netTotal, vatAmount, grossTotal);
    Pdf.Prices(Round2(netUnit), Round2(grossUnit), Round2(netTotal), Round2(vatAmount), Round2(grossTotal))
  }

  /** The label in the 'J.M.' column: the currency per unit. */
  function UnitLabel(unit: string): (s: string)
    ensures |s| == |unit| + 3 && s[..3] == "zł/" && s[3..] == unit
  {
    "zł/" + unit
  }

  /** The five cells of one product line: name, net unit price, unit label, VAT rate, gross unit price. */
  datatype DocxRow = DocxRow(name: string, netUnit: real, unitLabel: string, vatRate: real, grossUnit: real)

  /** A category heading followed by its product table. */
  datatype DocxTable = DocxTable(categoryName: string, rows: seq<DocxRow>)

  datatype DocxDocument = DocxDocument(title: string, date: string, tables: seq<DocxTable>)

  function RowOf(item: LineItem): DocxRow {
    var prices := CalculatePrice(item.purchasePriceNet, item.margin, item.vatRate, item.quantity);
    DocxRow(item.name, prices.netUnit, UnitLabel(item.unit), item.vatRate, prices.grossUnit)
  }

  /** One row per item of a group, in order. */
  function RowsOf(group: seq<LineItem>): (rows: seq<DocxRow>)
    ensures |rows| == |group|
    ensures forall j :: 0 <= j < |group| ==> rows[j] == RowOf(group[j])
  {
    seq(|group|, j requires 0 <= j < |group| => RowOf(group[j]))
  }

  function DocxTableOf(items: seq<LineItem>, name: string): DocxTable {
    DocxTable(name, RowsOf(ItemsIn(items, name)))
  }

  function DocxTablesOf(items: seq<LineItem>, names: seq<string>): (tables: seq<DocxTable>)
    ensures |tables| == |names|
    ensures forall g :: 0 <= g < |names| ==> tables[g] == DocxTableOf(items, names[g])
  {
    seq(|names|, g requires 0 <= g < |names| => DocxTableOf(items, names[g]))
  }

  function DocxNames(tables: seq<DocxTable>): (names: seq<string>)
    ensures |names| == |tables| && forall i :: 0 <= i < |tables| ==> names[i] == tables[i].categoryName
  {
    seq(|tables|, i requires 0 <= i < |tables| => tables[i].categoryName)
  }

  /** One table per category that occurs, in ascending name order, each listing its items in offer order. */
  ghost predicate IsDocxOf(items: seq<LineItem>, doc: DocxDocument) {
    var names := DocxNames(doc.tables);
    && StrictlyAscending(names)
    && (forall k :: k in names <==> k in CategoryNames(items))
    && doc.tables == DocxTablesOf(items, names)
  }

  /** The row loop of generate_offer_docx for one category. */
  method BuildRows(group: seq<LineItem>) returns (rows: seq<DocxRow>)
    ensures rows == RowsOf(group)
  {
    rows := [];
    var j := 0;
    while j < |group|
      invariant 0 <= j <= |group|
      invariant rows == RowsOf(group[..j])
    {
      var item := group[j];
      var prices := CalculatePrice(item.purchasePriceNet, item.margin, item.vatRate, item.quantity);
      assert group[..j + 1][..j] == group[..j];
      assert RowsOf(group[..j + 1]) == RowsOf(group[..j]) + [RowOf(item)];
      rows := rows + [DocxRow(item.name, prices.netUnit, UnitLabel(item.unit), item.vatRate, prices.grossUnit)];
      j := j + 1;
    }
    assert group[..j] == group;
  }

  /** The category loop of generate_offer_docx. */
  method BuildDocxTables(items: seq<LineItem>, byCategory: map<string, seq<LineItem>>, names: seq<string>)
    returns (tables: seq<DocxTable>)
    requires forall k :: k in names ==> k in byCategory && byCategory[k] == ItemsIn(items, k)
    ensures tables == DocxTablesOf(items, names)
  {
    tables := [];
    var g := 0;
    while g < |names|
      invariant 0 <= g <= |names|
      invariant tables == DocxTablesOf(items, names[..g])
    {
      var rows := BuildRows(byCategory[names[g]]);
      DocxTablesOfPrefixStep(items, names, g);
      tables := tables + [DocxTable(names[g], rows)];
      g := g + 1;
    }
    assert names[..g] == names;
  }

  /** The content generate_offer_docx writes: title, date, and the category tables in ascending name order. */
  method GenerateOfferDocx(title: Option<string>, date: string, items: seq<LineItem>) returns (doc: DocxDocument)
    ensures doc.title == title.GetOr(Pdf.DefaultTitle) && doc.date == date
    ensures IsDocxOf(items, doc)
  {
    var byCategory, names := GroupByCategory(items);
    var tables := BuildDocxTables(items, byCategory, names);
    DocxNamesOf(items, names);
    doc := DocxDocument(title.GetOr(Pdf.DefaultTitle), date, tables);
  }

  lemma DocxTablesOfPrefixStep(items: seq<LineItem>, names: seq<string>, g: nat)
    requires g < |names|
    ensures DocxTablesOf(items, names[..g + 1]) == DocxTablesOf(items, names[..g]) + [DocxTableOf(items, names[g])]
  {
  }

  lemma DocxNamesOf(items: seq<LineItem>, names: seq<string>)
    ensures DocxNames(DocxTablesOf(items, names)) == names
  {
  }

  /**
   * For the same offer the DOCX and the PDF list the same categories in the same order, with
   * one row per item in the same order and the same net and gross unit prices.
   */
  lemma AgreesWithPdf(items: seq<LineItem>, docx: DocxDocument, pdf: Pdf.OfferDocument)
    requires IsDocxOf(items, docx) && Pdf.IsDocumentOf(items, pdf)
    ensures |docx.tables| == |pdf.tables|
    ensures forall g :: 0 <= g < |docx.tables| ==>
      && docx.tables[g].categoryName == pdf.tables[g].categoryName
      && |docx.tables[g].rows| == |pdf.tables[g].rows|
      && forall j :: 0 <= j < |docx.tables[g].rows| ==>
        && docx.tables[g].rows[j].name == pdf.tables[g].rows[j].item.name
        && docx.tables[g].rows[j].netUnit == pdf.tables[g].rows[j].prices.netUnit
        && docx.tables[g].rows[j].grossUnit == pdf.tables[g].rows[j].prices.grossUnit
  {
    var names := DocxNames(docx.tables);
    var pdfNames := Pdf.TableNames(pdf.tables);
    forall k ensures k in names <==> k in pdfNames {
      assert k in names <==> k in CategoryNames(items);
      assert k in pdfNames <==> k in CategoryNames(items);
    }
    StrictlyAscendingUnique(names, pdfNames);
  }
}

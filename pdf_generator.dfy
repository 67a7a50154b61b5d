// pdf_generator.py without the reportlab layout: the price calculation and the
// content of the offer document, i.e. the tables per category with their
// subtotals and the grand totals, in the order the PDF lists them.
module PdfGenerator {
  import opened Options
  import opened Money
  import opened Ordering
  import opened ReportGrouping

  /** The dictionary calculate_price returns. */
  datatype Prices = Prices(netUnit: real, grossUnit: real, netTotal: real, vatAmount: real, grossTotal: real)

  /** calculate_price's default quantity. */
  const DefaultQuantity := 1.0

  /** The amounts of calculate_price before rounding, all derived from the unrounded net unit price. */
  function ExactPrices(purchasePrice: real, margin: real, vatRate: real, quantity: real): (e: Prices)
    ensures e.grossTotal == e.grossUnit * quantity
    ensures e.vatAmount == (e.grossUnit - e.netUnit) * quantity
    ensures margin >= 0.0 && purchasePrice >= 0.0 ==> e.netUnit >= purchasePrice
  {
    var netUnit := purchasePrice * (1.0 + margin / 100.0);
    var netTotal := netUnit * quantity;
    var vatAmount := netTotal * (vatRate / 100.0);
    Prices(netUnit, netUnit * (1.0 + vatRate / 100.0), netTotal, vatAmount, netTotal + vatAmount)
  }

  /**
   * calculate_price: every amount is computed from the unrounded net unit price and only then
   * rounded to the cent, so each shown amount is within half a cent of its exact value.
   */
  function CalculatePrice(purchasePrice: real, margin: real, vatRate: real, quantity: real): (r: Prices)
    ensures var e := ExactPrices(purchasePrice, margin, vatRate, quantity);
      && Abs(r.netUnit - e.netUnit) <= 0.005
      && Abs(r.grossUnit - e.grossUnit) <= 0.005
      && Abs(r.netTotal - e.netTotal) <= 0.005
      && Abs(r.vatAmount - e.vatAmount) <= 0.005
      && Abs(r.grossTotal - e.grossTotal) <= 0.005
  {
    var e := ExactPrices(purchasePrice, margin, vatRate, quantity);
    Prices(Round2(e.netUnit), Round2(e.grossUnit), Round2(e.netTotal), Round2(e.vatAmount), Round2(e.grossTotal))
  }

  /** At the default quantity the line totals are the unit prices. */
  lemma DefaultQuantityTotals(purchasePrice: real, margin: real, vatRate: real)
    ensures var r := CalculatePrice(purchasePrice, margin, vatRate, DefaultQuantity);
      r.netTotal == r.netUnit && r.grossTotal == r.grossUnit
  {
    var e := ExactPrices(purchasePrice, margin, vatRate, DefaultQuantity);
    assert e.netTotal == e.netUnit;
    assert e.grossTotal == e.netUnit + e.netUnit * (vatRate / 100.0) == e.grossUnit;
  }

  /** Purchase 3000, margin 40 %, VAT 23 %, quantity 2. */
  lemma WorkedExample()
    ensures CalculatePrice(3000.0, 40.0, 23.0, 2.0) == Prices(4200.0, 5166.0, 8400.0, 1932.0, 10332.0)
    ensures CalculatePrice(3000.0, 40.0, 23.0, DefaultQuantity).netUnit > 3000.0
  {
    Round2OfCents(420000);
    Round2OfCents(516600);
    Round2OfCents(840000);
    Round2OfCents(193200);
    Round2OfCents(1033200);
  }

  /** A positive margin on a whole-cent purchase price never sells below the purchase price. */
  lemma MarginNotBelowCost(purchasePrice: real, margin: real, vatRate: real, quantity: real, cents: int)
    requires purchasePrice == cents as real / 100.0 && purchasePrice >= 0.0 && margin >= 0.0
    ensures CalculatePrice(purchasePrice, margin, vatRate, quantity).netUnit >= purchasePrice
  {
    var net := ExactPrices(purchasePrice, margin, vatRate, quantity).netUnit;
    assert net == purchasePrice + purchasePrice * (margin / 100.0);
    assert purchasePrice * (margin / 100.0) >= 0.0;
    Round2Monotone(purchasePrice, net);
    Round2OfCents(cents);
  }

  function PricesOf(item: LineItem): Prices {
    CalculatePrice(item.purchasePriceNet, item.margin, item.vatRate, item.quantity)
  }

  function NetTotalOf(item: LineItem): real { PricesOf(item).netTotal }

  function GrossTotalOf(item: LineItem): real { PricesOf(item).grossTotal }

  /** One product line of a category table: the item and its computed prices. */
  datatype PriceRow = PriceRow(item: LineItem, prices: Prices)

  /** One category's heading, product lines and 'Suma <category>' subtotal line. */
  datatype CategoryTable = CategoryTable(categoryName: string, rows: seq<PriceRow>, totalNet: real, totalGross: real)

  /** What the PDF shows: title, date, the category tables in order, and the grand totals. */
  datatype OfferDocument = OfferDocument(title: string, date: string, tables: seq<CategoryTable>,
                                         grandTotalNet: real, grandTotalGross: real)

  const DefaultTitle := "Oferta handlowa"

  function TableNames(tables: seq<CategoryTable>): (names: seq<string>)
    ensures |names| == |tables| && forall i :: 0 <= i < |tables| ==> names[i] == tables[i].categoryName
  {
    seq(|tables|, i requires 0 <= i < |tables| => tables[i].categoryName)
  }

  /** Each item of a group next to its computed prices, in order. */
  function PricedRows(group: seq<LineItem>): (rows: seq<PriceRow>)
    ensures |rows| == |group|
    ensures forall j :: 0 <= j < |group| ==> rows[j] == PriceRow(group[j], PricesOf(group[j]))
  {
    seq(|group|, j requires 0 <= j < |group| => PriceRow(group[j], PricesOf(group[j])))
  }

  /**
   * The table category `name` gets: its items in offer order with their prices, and subtotals
   * that add up the rounded line totals.
   */
  function CategoryTableOf(items: seq<LineItem>, name: string): CategoryTable {
    var group := ItemsIn(items, name);
    CategoryTable(name, PricedRows(group), SumBy(group, NetTotalOf), SumBy(group, GrossTotalOf))
  }

  /** The tables of the categories `names`, in that order. */
  function TablesOf(items: seq<LineItem>, names: seq<string>): (tables: seq<CategoryTable>)
    ensures |tables| == |names|
    ensures forall g :: 0 <= g < |names| ==> tables[g] == CategoryTableOf(items, names[g])
  {
    seq(|names|, g requires 0 <= g < |names| => CategoryTableOf(items, names[g]))
  }

  /**
   * The document for an offer's items: one table per category that occurs, in ascending name
   * order, and grand totals that add up the category subtotals.
   */
  ghost predicate IsDocumentOf(items: seq<LineItem>, doc: OfferDocument) {
    var names := TableNames(doc.tables);
    && StrictlyAscending(names)
    && (forall k :: k in names <==> k in CategoryNames(items))
    && doc.tables == TablesOf(items, names)
    && doc.grandTotalNet == SumGroups(items, names, NetTotalOf)
    && doc.grandTotalGross == SumGroups(items, names, GrossTotalOf)
  }

  /** One pass of the inner loop of generate_offer_pdf: price each line of a category and total them. */
  method PriceCategory(items: seq<LineItem>, categoryName: string, group: seq<LineItem>) returns (t: CategoryTable)
    requires group == ItemsIn(items, categoryName)
    ensures t == CategoryTableOf(items, categoryName)
  {
    var rows: seq<PriceRow> := [];
    var totalNet, totalGross := 0.0, 0.0;
    var j := 0;
    while j < |group|
      invariant 0 <= j <= |group|
      invariant rows == PricedRows(group[..j])
      invariant totalNet == SumBy(group[..j], NetTotalOf)
      invariant totalGross == SumBy(group[..j], GrossTotalOf)
    {
      var item := group[j];
      var prices := CalculatePrice(item.purchasePriceNet, item.margin, item.vatRate, item.quantity);
      assert group[..j + 1][..j] == group[..j];
      assert PricedRows(group[..j + 1]) == PricedRows(group[..j]) + [PriceRow(item, prices)];
      totalNet := totalNet + prices.netTotal;
      totalGross := totalGross + prices.grossTotal;
      rows := rows + [PriceRow(item, prices)];
      j := j + 1;
    }
    assert group[..j] == group;
    t := CategoryTable(categoryName, rows, totalNet, totalGross);
  }

  /** The outer loop of generate_offer_pdf: one table per category name, in order, and the running grand totals. */
  method BuildTables(items: seq<LineItem>, byCategory: map<string, seq<LineItem>>, names: seq<string>)
    returns (tables: seq<CategoryTable>, grandTotalNet: real, grandTotalGross: real)
    requires forall k :: k in names ==> k in byCategory && byCategory[k] == ItemsIn(items, k)
    ensures tables == TablesOf(items, names)
    ensures grandTotalNet == SumGroups(items, names, NetTotalOf)
    ensures grandTotalGross == SumGroups(items, names, GrossTotalOf)
  {
    tables := [];
    grandTotalNet, grandTotalGross := 0.0, 0.0;
    var g := 0;
    while g < |names|
      invariant 0 <= g <= |names|
      invariant tables == TablesOf(items, names[..g])
      invariant grandTotalNet == SumGroups(items, names[..g], NetTotalOf)
      invariant grandTotalGross == SumGroups(items, names[..g], GrossTotalOf)
    {
      var table := PriceCategory(items, names[g], byCategory[names[g]]);
      SumGroupsPrefixStep(items, names, g, NetTotalOf);
      SumGroupsPrefixStep(items, names, g, GrossTotalOf);
      TablesOfPrefixStep(items, names, g);
      tables := tables + [table];
      grandTotalNet := grandTotalNet + table.totalNet;
      grandTotalGross := grandTotalGross + table.totalGross;
      g := g + 1;
    }
    assert names[..g] == names;
  }

  /**
   * The content generate_offer_pdf lays out: items grouped by category, the groups in ascending
   * name order, each line priced, category subtotals and grand totals accumulated.
   */
  method GenerateOfferPdf(title: Option<string>, date: string, items: seq<LineItem>) returns (doc: OfferDocument)
    ensures doc.title == title.GetOr(DefaultTitle) && doc.date == date
    ensures IsDocumentOf(items, doc)
  {
    var byCategory, names := GroupByCategory(items);
    var tables, grandTotalNet, grandTotalGross := BuildTables(items, byCategory, names);
    TableNamesOf(items, names);
    doc := OfferDocument(title.GetOr(DefaultTitle), date, tables, grandTotalNet, grandTotalGross);
  }

  lemma SumGroupsPrefixStep(items: seq<LineItem>, names: seq<string>, g: nat, f: LineItem -> real)
    requires g < |names|
    ensures SumGroups(items, names[..g + 1], f) == SumGroups(items, names[..g], f) + SumBy(ItemsIn(items, names[g]), f)
  {
    assert names[..g + 1][..g] == names[..g];
  }

  lemma TablesOfPrefixStep(items: seq<LineItem>, names: seq<string>, g: nat)
    requires g < |names|
    ensures TablesOf(items, names[..g + 1]) == TablesOf(items, names[..g]) + [CategoryTableOf(items, names[g])]
  {
  }

  lemma TableNamesOf(items: seq<LineItem>, names: seq<string>)
    ensures TableNames(TablesOf(items, names)) == names
  {
  }

  /** The grand totals are the sums of the rounded line totals of all items, however they are grouped. */
  lemma GrandTotalsAreItemSums(items: seq<LineItem>, doc: OfferDocument)
    requires IsDocumentOf(items, doc)
    ensures doc.grandTotalNet == SumBy(items, NetTotalOf)
    ensures doc.grandTotalGross == SumBy(items, GrossTotalOf)
  {
    var names := TableNames(doc.tables);
    assert Distinct(names);
    forall i | 0 <= i < |items| ensures CategoryOf(items[i]) in names {
      assert CategoryOf(items[i]) in CategoryNames(items);
    }
    SumGroupsIsTotal(items, names, NetTotalOf);
    SumGroupsIsTotal(items, names, GrossTotalOf);
  }

  /** Every item appears in exactly one table: the tables' line counts add up to the number of items. */
  lemma EveryItemInOneTable(items: seq<LineItem>, doc: OfferDocument)
    requires IsDocumentOf(items, doc)
    ensures forall i :: 0 <= i < |items| ==> exists g :: 0 <= g < |doc.tables| && doc.tables[g].categoryName == CategoryOf(items[i])
    ensures SumGroups(items, TableNames(doc.tables), One) == |items| as real
  {
    var names := TableNames(doc.tables);
    assert Distinct(names);
    forall i | 0 <= i < |items| ensures CategoryOf(items[i]) in names {
      assert CategoryOf(items[i]) in CategoryNames(items);
    }
    GroupSizesAddUp(items, names);
  }
}

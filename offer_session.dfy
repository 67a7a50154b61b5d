// The offer being put together in the desktop app (main.py): the list of
// line items the offer view keeps, how it is loaded from the catalog, edited
// line by line, and handed to the PDF generator. The Flet widgets, the
// snackbars and the file written are not modelled; a warning the app would
// show is a `warned` result.
module Offer {
  import opened Options
  import opened Money
  import opened Text
  import opened Ordering
  import opened Catalog
  import opened ReportGrouping
  import Pdf = PdfGenerator

  /** prod.get('default_margin', 30.0): the margin used when a row carries none. */
  const FallbackMargin := 30.0

  /** The line item load_offer_products builds from one product row, at quantity 1. */
  function ItemOf(row: ProductRow): (x: LineItem)
    ensures x.productId == row.product.id && x.name == row.product.name && x.unit == row.product.unit
    ensures x.purchasePriceNet == row.product.purchasePriceNet && x.vatRate == row.product.vatRate
    ensures x.quantity == 1.0 && x.categoryName == row.categoryName
    ensures row.defaultMargin.Some? ==> x.margin == row.defaultMargin.value
    ensures row.defaultMargin.None? ==> x.margin == FallbackMargin
  {
    LineItem(row.product.id, row.product.name, row.product.unit, Pdf.DefaultQuantity,
             row.product.purchasePriceNet, row.product.vatRate,
             row.defaultMargin.GetOr(FallbackMargin), row.categoryName)
  }

  function ItemsOfRows(rows: seq<ProductRow>): (r: seq<LineItem>)
    ensures |r| == |rows| && forall i :: 0 <= i < |rows| ==> r[i] == ItemOf(rows[i])
  {
    seq(|rows|, i requires 0 <= i < |rows| => ItemOf(rows[i]))
  }

  /** The offer load_offer_products builds: the products of each selected category in turn, each block by name. */
  function LoadedItems(db: Database, selected: seq<int>): (r: seq<LineItem>)
    reads db
    ensures forall x :: x in r ==> x.quantity == 1.0
    ensures selected == [] ==> r == []
  {
    if selected == [] then []
    else LoadedItems(db, selected[..|selected| - 1]) + ItemsOfRows(db.GetProducts(Some(selected[|selected| - 1])))
  }

  /** `x` is the line item of some product filed under category `c`. */
  ghost predicate LoadedFrom(cs: seq<Category>, ps: seq<Product>, c: int, x: LineItem) {
    exists p :: p in ps && p.categoryId == Some(c) && x == ItemOf(Join(cs, p))
  }

  /** The category ids offered as checkboxes all name existing categories. */
  predicate AllExist(cs: seq<Category>, selected: seq<int>) {
    forall i :: 0 <= i < |selected| ==> FindCategory(cs, selected[i]).Some?
  }

  function ItemName(x: LineItem): string { x.name }

  /** Applies float(text) to item `index`'s quantity; text that is not a number leaves the offer as it was. */
  function WithQuantity(items: seq<LineItem>, index: nat, text: string): (r: seq<LineItem>)
    requires index < |items|
    ensures |r| == |items|
    ensures forall j :: 0 <= j < |items| && j != index ==> r[j] == items[j]
    ensures ParseFloat(text).None? ==> r == items
    ensures ParseFloat(text).Some? ==> r[index].quantity == ParseFloat(text).value
    ensures r[index] == items[index].(quantity := r[index].quantity)
  {
    match ParseFloat(text)
    case None => items
    case Some(v) => items[index := items[index].(quantity := v)]
  }

  /** Applies float(text) to item `index`'s margin; text that is not a number leaves the offer as it was. */
  function WithMargin(items: seq<LineItem>, index: nat, text: string): (r: seq<LineItem>)
    requires index < |items|
    ensures |r| == |items|
    ensures forall j :: 0 <= j < |items| && j != index ==> r[j] == items[j]
    ensures ParseFloat(text).None? ==> r == items
    ensures ParseFloat(text).Some? ==> r[index].margin == ParseFloat(text).value
    ensures r[index] == items[index].(margin := r[index].margin)
  {
    match ParseFloat(text)
    case None => items
    case Some(v) => items[index := items[index].(margin := v)]
  }

  /** list.pop(index): item `index` leaves, the later items move up by one. */
  function Removed(items: seq<LineItem>, index: nat): (r: seq<LineItem>)
    requires index < |items|
    ensures |r| == |items| - 1
    ensures forall j :: 0 <= j < index ==> r[j] == items[j]
    ensures forall j :: index <= j < |r| ==> r[j] == items[j + 1]
  {
    items[..index] + items[index + 1..]
  }

  /** The unit prices the offer table shows for a line, before the two-decimal formatting. */
  datatype UnitPrice = UnitPrice(net: real, gross: real)

  function UnitPrices(item: LineItem): (u: UnitPrice)
    ensures var e := Pdf.ExactPrices(item.purchasePriceNet, item.margin, item.vatRate, item.quantity);
      u.net == e.netUnit && u.gross == e.grossUnit
    ensures item.purchasePriceNet >= 0.0 && item.margin >= 0.0 ==> u.net >= item.purchasePriceNet
  {
    var net := item.purchasePriceNet * (1.0 + item.margin / 100.0);
    UnitPrice(net, net * (1.0 + item.vatRate / 100.0))
  }

  class OfferSession {
    var offerItems: seq<LineItem>

    /** The app starts with an empty offer. */
    constructor ()
      ensures offerItems == []
    {
      offerItems := [];
    }

    /** show_offer_view: opening the offer view discards the offer being edited. */
    method ShowOfferView()
      modifies this
      ensures offerItems == []
    {
      offerItems := [];
    }

    /**
     * load_offer_products: with no category ticked it only warns; otherwise the offer is replaced
     * by the products of the ticked categories.
     */
    method LoadOfferProducts(db: Database, selected: seq<int>) returns (warned: bool)
      modifies this
      ensures warned <==> selected == []
      ensures warned ==> offerItems == old(offerItems)
      ensures !warned ==> offerItems == LoadedItems(db, selected)
    {
      if selected == [] {
        return true;
      }
      offerItems := [];
      var k := 0;
      while k < |selected|
        invariant 0 <= k <= |selected|
        invariant offerItems == LoadedItems(db, selected[..k])
      {
        var products := db.GetProducts(Some(selected[k]));
        ghost var before := offerItems;
        var j := 0;
        while j < |products|
          invariant 0 <= j <= |products|
          invariant offerItems == before + ItemsOfRows(products[..j])
        {
          ItemsOfRowsSnoc(products, j);
          offerItems := offerItems + [ItemOf(products[j])];
          j := j + 1;
        }
        assert products[..j] == products;
        LoadedItemsStep(db, selected, k);
        k := k + 1;
      }
      assert selected[..k] == selected;
      warned := false;
    }

    /** update_quantity: the text field's value becomes item `index`'s quantity when it is a number. */
    method UpdateQuantity(index: nat, value: string)
      requires index < |offerItems|
      modifies this
      ensures offerItems == WithQuantity(old(offerItems), index, value)
    {
      match ParseFloat(value) {
        case None =>
        case Some(v) =>
          offerItems := offerItems[index := offerItems[index].(quantity := v)];
      }
    }

    /** update_margin: the text field's value becomes item `index`'s margin when it is a number. */
    method UpdateMargin(index: nat, value: string)
      requires index < |offerItems|
      modifies this
      ensures offerItems == WithMargin(old(offerItems), index, value)
    {
      match ParseFloat(value) {
        case None =>
        case Some(v) =>
          offerItems := offerItems[index := offerItems[index].(margin := v)];
      }
    }

    /** remove_offer_item */
    method RemoveOfferItem(index: nat)
      requires index < |offerItems|
      modifies this
      ensures offerItems == Removed(old(offerItems), index)
    {
      offerItems := offerItems[..index] + offerItems[index + 1..];
    }

    /**
     * generate_offer_pdf: an empty offer only warns; otherwise the document is built from the
     * title field, the given date and the offer's items.
     */
    method GenerateOfferPdf(title: string, date: string) returns (doc: Option<Pdf.OfferDocument>)
      ensures doc.None? <==> offerItems == []
      ensures doc.Some? ==> doc.value.title == title && doc.value.date == date
      ensures doc.Some? ==> Pdf.IsDocumentOf(offerItems, doc.value)
    {
      if offerItems == [] {
        return None;
      }
      var d := Pdf.GenerateOfferPdf(Some(title), date, offerItems);
      doc := Some(d);
    }
  }

  // ---- loading ----

  lemma ItemsOfRowsSnoc(rows: seq<ProductRow>, j: nat)
    requires j < |rows|
    ensures ItemsOfRows(rows[..j + 1]) == ItemsOfRows(rows[..j]) + [ItemOf(rows[j])]
  {
  }

  lemma LoadedItemsStep(db: Database, selected: seq<int>, k: nat)
    requires k < |selected|
    ensures LoadedItems(db, selected[..k + 1]) == LoadedItems(db, selected[..k]) + ItemsOfRows(db.GetProducts(Some(selected[k])))
  {
    assert selected[..k + 1][..k] == selected[..k];
  }

  /** The line items of one category's rows are exactly the items of the products filed under it. */
  lemma BlockMembers(db: Database, c: int)
    ensures forall x :: x in ItemsOfRows(db.GetProducts(Some(c))) <==> LoadedFrom(db.categories, db.products, c, x)
  {
    var rows := db.GetProducts(Some(c));
    var block := ItemsOfRows(rows);
    forall x ensures x in block <==> LoadedFrom(db.categories, db.products, c, x) {
      if x in block {
        var i :| 0 <= i < |block| && block[i] == x;
        assert rows[i] in rows;
      }
      if LoadedFrom(db.categories, db.products, c, x) {
        var p :| p in db.products && p.categoryId == Some(c) && x == ItemOf(Join(db.categories, p));
        var row := Join(db.categories, p);
        assert row in rows;
        var i :| 0 <= i < |rows| && rows[i] == row;
        assert block[i] == x;
      }
    }
  }

  /**
   * The loaded offer holds one line for every product of every selected category, and
   * nothing else.
   */
  lemma LoadedItemsMembers(db: Database, selected: seq<int>)
    ensures forall x :: x in LoadedItems(db, selected) <==>
      exists i :: 0 <= i < |selected| && LoadedFrom(db.categories, db.products, selected[i], x)
  {
    forall x ensures x in LoadedItems(db, selected) <==>
      exists i :: 0 <= i < |selected| && LoadedFrom(db.categories, db.products, selected[i], x)
    {
      LoadedItemMember(db, selected, x);
    }
  }

  lemma {:induction false} LoadedItemMember(db: Database, selected: seq<int>, x: LineItem)
    ensures x in LoadedItems(db, selected) <==>
      exists i :: 0 <= i < |selected| && LoadedFrom(db.categories, db.products, selected[i], x)
  {
    if selected != [] {
      var n := |selected| - 1;
      var init, c := selected[..n], selected[n];
      var block := ItemsOfRows(db.GetProducts(Some(c)));
      LoadedItemMember(db, init, x);
      BlockMembers(db, c);
      assert LoadedItems(db, selected) == LoadedItems(db, init) + block;
      if x in LoadedItems(db, init) {
        var i :| 0 <= i < |init| && LoadedFrom(db.categories, db.products, init[i], x);
        assert selected[i] == init[i];
      } else if x in block {
        assert LoadedFrom(db.categories, db.products, selected[n], x);
      } else {
        forall i | 0 <= i < |selected| ensures !LoadedFrom(db.categories, db.products, selected[i], x) {
          if i < n {
            assert init[i] == selected[i];
          } else {
            assert selected[i] == c;
          }
        }
      }
    }
  }

  /**
   * A product of an existing category is offered at quantity 1, with its own name, unit,
   * purchase price and VAT rate, and with its category's name and default margin.
   */
  lemma ItemOfProduct(cs: seq<Category>, p: Product, c: int)
    requires p.categoryId == Some(c) && FindCategory(cs, c).Some?
    ensures var x := ItemOf(Join(cs, p));
            var category := cs[FindCategory(cs, c).value];
      && x.productId == p.id && x.name == p.name && x.unit == p.unit
      && x.purchasePriceNet == p.purchasePriceNet && x.vatRate == p.vatRate
      && x.quantity == 1.0
      && x.margin == category.defaultMargin && x.categoryName == Some(category.name)
  {
  }

  /** When every selected category exists, every loaded line carries its category's name and default margin. */
  lemma LoadedItemsSnapshot(db: Database, selected: seq<int>, x: LineItem)
    requires AllExist(db.categories, selected)
    requires x in LoadedItems(db, selected)
    ensures x.quantity == 1.0
    ensures exists i, p :: (0 <= i < |selected| && p in db.products && p.categoryId == Some(selected[i])
      && x.productId == p.id && x.name == p.name && x.unit == p.unit
      && x.purchasePriceNet == p.purchasePriceNet && x.vatRate == p.vatRate
      && x.margin == db.categories[FindCategory(db.categories, selected[i]).value].defaultMargin
      && x.categoryName == Some(db.categories[FindCategory(db.categories, selected[i]).value].name))
  {
    LoadedItemsMembers(db, selected);
    var i :| 0 <= i < |selected| && LoadedFrom(db.categories, db.products, selected[i], x);
    var p :| p in db.products && p.categoryId == Some(selected[i]) && x == ItemOf(Join(db.categories, p));
    ItemOfProduct(db.categories, p, selected[i]);
  }

  lemma ItemsOfRowsSorted(rows: seq<ProductRow>)
    requires SortedBy(rows, RowName)
    ensures SortedBy(ItemsOfRows(rows), ItemName)
  {
  }

  /** The products of one category come in name order. */
  lemma OneCategorySorted(db: Database, c: int)
    ensures SortedBy(LoadedItems(db, [c]), ItemName)
  {
    LoadedItemsStep(db, [c], 0);
    assert [c][..0] == [] && [c][..1] == [c];
    ItemsOfRowsSorted(db.GetProducts(Some(c)));
  }

  // ---- editing ----

  /** Setting a quantity twice from the same text is the same as setting it once. */
  lemma WithQuantityIdempotent(items: seq<LineItem>, index: nat, text: string)
    requires index < |items|
    ensures WithQuantity(WithQuantity(items, index, text), index, text) == WithQuantity(items, index, text)
  {
  }

  /** Edits of quantities and margins do not interfere with each other, in whichever lines they are made. */
  lemma QuantityAndMarginCommute(items: seq<LineItem>, i: nat, a: string, j: nat, b: string)
    requires i < |items| && j < |items|
    ensures WithMargin(WithQuantity(items, i, a), j, b) == WithQuantity(WithMargin(items, j, b), i, a)
  {
    var left := WithMargin(WithQuantity(items, i, a), j, b);
    var right := WithQuantity(WithMargin(items, j, b), i, a);
    forall k | 0 <= k < |items| ensures left[k] == right[k] {
      if k == i || k == j {
        assert left[k] == items[k].(quantity := left[k].quantity).(margin := left[k].margin);
      }
    }
  }

  /** Removing a line takes exactly that line out of the offer. */
  lemma RemovedPermutation(items: seq<LineItem>, index: nat)
    requires index < |items|
    ensures multiset(Removed(items, index)) + multiset{items[index]} == multiset(items)
  {
    assert items == items[..index] + [items[index]] + items[index + 1..];
  }

  /** The quantity never changes the unit prices: only the line totals. */
  lemma QuantityKeepsUnitPrices(items: seq<LineItem>, index: nat, text: string)
    requires index < |items|
    ensures forall j :: 0 <= j < |items| ==> UnitPrices(WithQuantity(items, index, text)[j]) == UnitPrices(items[j])
  {
  }

  // ---- prices ----

  /**
   * Rounded to the cent, the unit prices the offer table shows are the unit prices calculate_price
   * puts into the document.
   */
  lemma ShownPricesMatchDocument(item: LineItem)
    ensures Round2(UnitPrices(item).net) == Pdf.PricesOf(item).netUnit
    ensures Round2(UnitPrices(item).gross) == Pdf.PricesOf(item).grossUnit
  {
    var shown := UnitPrices(item);
    var e := Pdf.ExactPrices(item.purchasePriceNet, item.margin, item.vatRate, item.quantity);
    assert shown.net == e.netUnit;
    assert shown.gross == e.grossUnit;
  }
}

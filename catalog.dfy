// The catalog store of database.py: the Categories and Products tables held in
// memory. Each table is a sequence in rowid order; the AUTOINCREMENT counters
// are explicit fields. The clock is a parameter (`now`).
module Catalog {
  import opened Options
  import opened Money
  import opened Text
  import opened Ordering

  /** The text datetime.now().strftime('%Y-%m-%d %H:%M:%S') produces. */
  type Timestamp = string

  datatype Category = Category(id: int, name: string, defaultMargin: real)

  datatype Product = Product(
    id: int,
    code: string,
    name: string,
    unit: string,
    purchasePriceNet: real,
    priceUpdateDate: Timestamp,
    vatRate: real,
    categoryId: Option<int>)

  /** A row of `Products p LEFT JOIN Categories c`: the product with c.name and c.default_margin, NULL when unmatched. */
  datatype ProductRow = ProductRow(product: Product, categoryName: Option<string>, defaultMargin: Option<real>)

  /** One record handed to import_products_batch. */
  datatype ProductRecord = ProductRecord(
    code: string,
    name: string,
    unit: string,
    purchasePriceNet: real,
    vatRate: real,
    categoryId: Option<int>)

  /** The Products table with its AUTOINCREMENT counter. */
  datatype ProductTable = ProductTable(rows: seq<Product>, nextId: int)

  /** The outcome of update_product: True, False on a taken code, or the TypeError raised for a missing id. */
  datatype UpdateResult = Updated | CodeTaken | NoSuchProduct

  const SeedCategoryName := "Bez kategorii"
  const SeedCategoryMargin := 30.0
  /** Purchase-price changes up to this amount do not count as a change. */
  const PriceTolerance := 0.001

  // ---- table invariants ----

  ghost predicate CategoriesValid(cs: seq<Category>, nextId: int) {
    && (forall i, j :: 0 <= i < j < |cs| ==> cs[i].id < cs[j].id)
    && (forall i :: 0 <= i < |cs| ==> cs[i].id < nextId)
    && (forall i, j :: 0 <= i < j < |cs| ==> cs[i].name != cs[j].name)
  }

  ghost predicate ProductsValid(t: ProductTable) {
    && (forall i, j :: 0 <= i < j < |t.rows| ==> t.rows[i].id < t.rows[j].id)
    && (forall i :: 0 <= i < |t.rows| ==> t.rows[i].id < t.nextId)
    && (forall i, j :: 0 <= i < j < |t.rows| ==> t.rows[i].code != t.rows[j].code)
  }

  // ---- lookups ----

  predicate NameFree(cs: seq<Category>, name: string) {
    forall i :: 0 <= i < |cs| ==> cs[i].name != name
  }

  function FindCategory(cs: seq<Category>, id: int): (r: Option<nat>)
    ensures r.Some? ==> r.value < |cs| && cs[r.value].id == id
    ensures r.None? ==> forall i :: 0 <= i < |cs| ==> cs[i].id != id
  {
    if cs == [] then None
    else if cs[0].id == id then Some(0)
    else match FindCategory(cs[1..], id)
      case None => None
      case Some(k) => Some(k + 1)
  }

  /** The position of the row with `code`, the first one if several. */
  function FindCode(ps: seq<Product>, code: string): (r: Option<nat>)
    ensures r.Some? ==> r.value < |ps| && ps[r.value].code == code
    ensures r.Some? ==> forall j :: 0 <= j < r.value ==> ps[j].code != code
    ensures r.None? ==> forall i :: 0 <= i < |ps| ==> ps[i].code != code
  {
    if ps == [] then None
    else if ps[0].code == code then Some(0)
    else match FindCode(ps[1..], code)
      case None => None
      case Some(k) => Some(k + 1)
  }

  function FindProduct(ps: seq<Product>, id: int): (r: Option<nat>)
    ensures r.Some? ==> r.value < |ps| && ps[r.value].id == id
    ensures r.None? ==> forall i :: 0 <= i < |ps| ==> ps[i].id != id
  {
    if ps == [] then None
    else if ps[0].id == id then Some(0)
    else match FindProduct(ps[1..], id)
      case None => None
      case Some(k) => Some(k + 1)
  }

  // ---- the effect of each statement on a table ----

  /** UPDATE Categories SET name = ?, default_margin = ? WHERE id = ? */
  function RenameCategory(cs: seq<Category>, id: int, name: string, margin: real): (r: seq<Category>)
    ensures |r| == |cs|
    ensures forall i :: 0 <= i < |cs| ==> r[i] == if cs[i].id == id then Category(id, name, margin) else cs[i]
  {
    seq(|cs|, i requires 0 <= i < |cs| => if cs[i].id == id then Category(id, name, margin) else cs[i])
  }

  /** DELETE FROM Categories WHERE id = ? */
  function RemoveCategory(cs: seq<Category>, id: int): (r: seq<Category>)
    ensures forall c :: c in r <==> c in cs && c.id != id
    ensures (forall i, j :: 0 <= i < j < |cs| ==> cs[i].id < cs[j].id) ==>
              forall i, j :: 0 <= i < j < |r| ==> r[i].id < r[j].id
  {
    if cs == [] then []
    else
      var rest := RemoveCategory(cs[1..], id);
      assert forall c :: c in cs <==> c == cs[0] || c in cs[1..];
      if cs[0].id == id then rest else [cs[0]] + rest
  }

  /** UPDATE Products SET category_id = NULL WHERE category_id = ? */
  function Detach(ps: seq<Product>, id: int): (r: seq<Product>)
    ensures |r| == |ps|
    ensures forall i :: 0 <= i < |ps| ==>
              r[i] == if ps[i].categoryId == Some(id) then ps[i].(categoryId := None) else ps[i]
    ensures forall i :: 0 <= i < |r| ==> r[i].categoryId != Some(id)
  {
    seq(|ps|, i requires 0 <= i < |ps| => if ps[i].categoryId == Some(id) then ps[i].(categoryId := None) else ps[i])
  }

  /** DELETE FROM Products WHERE id = ? */
  function RemoveProduct(ps: seq<Product>, id: int): (r: seq<Product>)
    ensures forall p :: p in r <==> p in ps && p.id != id
    ensures |r| <= |ps|
    ensures (forall i, j :: 0 <= i < j < |ps| ==> ps[i].id < ps[j].id) ==>
              forall i, j :: 0 <= i < j < |r| ==> r[i].id < r[j].id
  {
    if ps == [] then []
    else
      var rest := RemoveProduct(ps[1..], id);
      assert forall p :: p in ps <==> p == ps[0] || p in ps[1..];
      if ps[0].id == id then rest else [ps[0]] + rest
  }

  /** Deleting a product twice is deleting it once. */
  lemma {:induction false} RemoveProductIdempotent(ps: seq<Product>, id: int)
    ensures RemoveProduct(RemoveProduct(ps, id), id) == RemoveProduct(ps, id)
  {
    if ps != [] {
      RemoveProductIdempotent(ps[1..], id);
    }
  }

  /** Deleting a category keeps the Categories invariant. */
  lemma RemoveCategoryValid(cs: seq<Category>, nextId: int, id: int)
    requires CategoriesValid(cs, nextId)
    ensures CategoriesValid(RemoveCategory(cs, id), nextId)
  {
    var r := RemoveCategory(cs, id);
    forall i, j | 0 <= i < j < |r| ensures r[i].name != r[j].name {
      var a :| 0 <= a < |cs| && cs[a] == r[i];
      var b :| 0 <= b < |cs| && cs[b] == r[j];
      assert a != b;
    }
    forall i | 0 <= i < |r| ensures r[i].id < nextId {
      assert r[i] in cs;
    }
  }

  /** Detaching products from a category keeps the Products invariant. */
  lemma DetachValid(t: ProductTable, id: int)
    requires ProductsValid(t)
    ensures ProductsValid(ProductTable(Detach(t.rows, id), t.nextId))
  {
  }

  /** Deleting a product keeps the Products invariant. */
  lemma RemoveProductValid(t: ProductTable, id: int)
    requires ProductsValid(t)
    ensures ProductsValid(ProductTable(RemoveProduct(t.rows, id), t.nextId))
  {
    var r := RemoveProduct(t.rows, id);
    forall i, j | 0 <= i < j < |r| ensures r[i].code != r[j].code {
      var a :| 0 <= a < |t.rows| && t.rows[a] == r[i];
      var b :| 0 <= b < |t.rows| && t.rows[b] == r[j];
      assert a != b;
    }
    forall i | 0 <= i < |r| ensures r[i].id < t.nextId {
      assert r[i] in t.rows;
    }
  }

  /** Overwriting a product in place, same id and a code no other product has, keeps the Products invariant. */
  lemma ReplaceProductValid(t: ProductTable, k: nat, p: Product)
    requires ProductsValid(t) && k < |t.rows| && p.id == t.rows[k].id
    requires forall i :: 0 <= i < |t.rows| && i != k ==> t.rows[i].code != p.code
    ensures ProductsValid(ProductTable(t.rows[k := p], t.nextId))
  {
  }

  // ---- import_products_batch, one record at a time ----

  /** The row a new record is inserted as, stamped with the import time. */
  function NewProduct(id: int, r: ProductRecord, now: Timestamp): (p: Product)
    ensures p.id == id && p.code == r.code && p.priceUpdateDate == now
    ensures p.name == r.name && p.unit == r.unit && p.purchasePriceNet == r.purchasePriceNet
    ensures p.vatRate == r.vatRate && p.categoryId == r.categoryId
  {
    Product(id, r.code, r.name, r.unit, r.purchasePriceNet, now, r.vatRate, r.categoryId)
  }

  /** An existing row overwritten by a record of the same code. */
  function Refreshed(p: Product, r: ProductRecord, now: Timestamp): (q: Product)
    ensures q.id == p.id && q.code == p.code
    ensures q.name == r.name && q.unit == r.unit && q.vatRate == r.vatRate && q.categoryId == r.categoryId
    ensures Abs(p.purchasePriceNet - r.purchasePriceNet) > PriceTolerance ==>
              q.purchasePriceNet == r.purchasePriceNet && q.priceUpdateDate == now
    ensures Abs(p.purchasePriceNet - r.purchasePriceNet) <= PriceTolerance ==>
              q.purchasePriceNet == p.purchasePriceNet && q.priceUpdateDate == p.priceUpdateDate
  {
    if Abs(p.purchasePriceNet - r.purchasePriceNet) > PriceTolerance then
      p.(name := r.name, unit := r.unit, purchasePriceNet := r.purchasePriceNet,
         priceUpdateDate := now, vatRate := r.vatRate, categoryId := r.categoryId)
    else
      p.(name := r.name, unit := r.unit, vatRate := r.vatRate, categoryId := r.categoryId)
  }

  /** One iteration of the import loop: update the row with the record's code, or insert a new row. */
  function UpsertOne(t: ProductTable, r: ProductRecord, now: Timestamp): (t': ProductTable)
    ensures FindCode(t.rows, r.code).Some? ==> |t'.rows| == |t.rows| && t'.nextId == t.nextId
    ensures FindCode(t.rows, r.code).None? ==> |t'.rows| == |t.rows| + 1 && t'.nextId == t.nextId + 1
    ensures forall i :: 0 <= i < |t.rows| ==> t'.rows[i].id == t.rows[i].id && t'.rows[i].code == t.rows[i].code
    ensures FindCode(t.rows, r.code).None? ==> t'.rows == t.rows + [NewProduct(t.nextId, r, now)]
    ensures FindCode(t.rows, r.code).Some? ==>
              var k := FindCode(t.rows, r.code).value;
              t'.rows == t.rows[k := Refreshed(t.rows[k], r, now)]
  {
    match FindCode(t.rows, r.code)
    case Some(k) => ProductTable(t.rows[k := Refreshed(t.rows[k], r, now)], t.nextId)
    case None => ProductTable(t.rows + [NewProduct(t.nextId, r, now)], t.nextId + 1)
  }

  /** The whole import loop, record by record in batch order. */
  function UpsertAll(t: ProductTable, recs: seq<ProductRecord>, now: Timestamp): (t': ProductTable)
    ensures |t.rows| <= |t'.rows| <= |t.rows| + |recs|
    ensures t'.nextId - t.nextId == |t'.rows| - |t.rows|
  {
    if recs == [] then t
    else UpsertOne(UpsertAll(t, recs[..|recs| - 1], now), recs[|recs| - 1], now)
  }

  lemma UpsertAllStep(t: ProductTable, recs: seq<ProductRecord>, i: nat, now: Timestamp)
    requires i < |recs|
    ensures UpsertAll(t, recs[..i + 1], now) == UpsertOne(UpsertAll(t, recs[..i], now), recs[i], now)
  {
    assert recs[..i + 1][..i] == recs[..i];
  }

  /** The stored row for `r.code` already carries everything `r` would write. */
  predicate Agrees(rows: seq<Product>, r: ProductRecord) {
    match FindCode(rows, r.code)
    case None => false
    case Some(k) =>
      && rows[k].name == r.name && rows[k].unit == r.unit
      && rows[k].vatRate == r.vatRate && rows[k].categoryId == r.categoryId
      && Abs(rows[k].purchasePriceNet - r.purchasePriceNet) <= PriceTolerance
  }

  predicate HasCode(rows: seq<Product>, code: string) {
    FindCode(rows, code).Some?
  }

  lemma UpsertOneValid(t: ProductTable, r: ProductRecord, now: Timestamp)
    requires ProductsValid(t)
    ensures ProductsValid(UpsertOne(t, r, now))
  {
  }

  /** The import keeps the table's invariants, never deletes a row, never changes a row's id or code, and leaves every record's code present. */
  lemma {:induction false} UpsertAllKeeps(t: ProductTable, recs: seq<ProductRecord>, now: Timestamp)
    requires ProductsValid(t)
    ensures var t' := UpsertAll(t, recs, now);
      && ProductsValid(t')
      && |t'.rows| >= |t.rows|
      && (forall i :: 0 <= i < |t.rows| ==> t'.rows[i].id == t.rows[i].id && t'.rows[i].code == t.rows[i].code)
      && (forall j :: 0 <= j < |recs| ==> HasCode(t'.rows, recs[j].code))
  {
    if recs != [] {
      var init := recs[..|recs| - 1];
      var last := recs[|recs| - 1];
      UpsertAllKeeps(t, init, now);
      var mid := UpsertAll(t, init, now);
      UpsertOneValid(mid, last, now);
      var t' := UpsertOne(mid, last, now);
      forall j | 0 <= j < |recs| ensures HasCode(t'.rows, recs[j].code) {
        if j < |recs| - 1 {
          assert recs[j] == init[j];
          var k := FindCode(mid.rows, recs[j].code).value;
          assert t'.rows[k].code == recs[j].code;
        } else {
          UpsertOneAgrees(mid, last, now);
        }
      }
    }
  }

  /** Codes other than the record's are found at the same row, and that row is untouched. */
  lemma UpsertOneOtherCode(t: ProductTable, r: ProductRecord, now: Timestamp, code: string)
    requires code != r.code
    ensures var t' := UpsertOne(t, r, now);
      && FindCode(t'.rows, code) == FindCode(t.rows, code)
      && (FindCode(t.rows, code).Some? ==> t'.rows[FindCode(t.rows, code).value] == t.rows[FindCode(t.rows, code).value])
  {
    var t' := UpsertOne(t, r, now);
    var a, b := FindCode(t.rows, code), FindCode(t'.rows, code);
    assert forall i :: 0 <= i < |t'.rows| ==> (t'.rows[i].code == code <==> i < |t.rows| && t.rows[i].code == code);
    if a.Some? && b.Some? {
      assert a.value == b.value;
    }
  }

  lemma UpsertOneAgrees(t: ProductTable, r: ProductRecord, now: Timestamp)
    ensures Agrees(UpsertOne(t, r, now).rows, r)
  {
    var t' := UpsertOne(t, r, now);
    match FindCode(t.rows, r.code)
    case Some(k) =>
      assert FindCode(t'.rows, r.code) == Some(k);
    case None =>
      assert t'.rows[|t.rows|].code == r.code;
      assert FindCode(t'.rows, r.code) == Some(|t.rows|);
  }

  /** After importing a batch whose codes are all different, every record agrees with its stored row. */
  lemma {:induction false} UpsertAllAgrees(t: ProductTable, recs: seq<ProductRecord>, now: Timestamp)
    requires forall i, j :: 0 <= i < j < |recs| ==> recs[i].code != recs[j].code
    ensures forall j :: 0 <= j < |recs| ==> Agrees(UpsertAll(t, recs, now).rows, recs[j])
  {
    if recs != [] {
      var init := recs[..|recs| - 1];
      var last := recs[|recs| - 1];
      UpsertAllAgrees(t, init, now);
      var mid := UpsertAll(t, init, now);
      forall j | 0 <= j < |recs| ensures Agrees(UpsertOne(mid, last, now).rows, recs[j]) {
        if j < |recs| - 1 {
          assert recs[j] == init[j];
          UpsertOneOtherCode(mid, last, now, recs[j].code);
        } else {
          UpsertOneAgrees(mid, last, now);
        }
      }
    }
  }

  lemma UpsertOneWhenAgrees(t: ProductTable, r: ProductRecord, now: Timestamp)
    requires Agrees(t.rows, r)
    ensures UpsertOne(t, r, now) == t
  {
    var k := FindCode(t.rows, r.code).value;
    assert t.rows[k := Refreshed(t.rows[k], r, now)] == t.rows;
  }

  /** Records that already agree with the table change nothing. */
  lemma {:induction false} UpsertAllWhenAgrees(t: ProductTable, recs: seq<ProductRecord>, now: Timestamp)
    requires forall j :: 0 <= j < |recs| ==> Agrees(t.rows, recs[j])
    ensures UpsertAll(t, recs, now) == t
  {
    if recs != [] {
      UpsertAllWhenAgrees(t, recs[..|recs| - 1], now);
      UpsertOneWhenAgrees(t, recs[|recs| - 1], now);
    }
  }

  /** Importing the same batch (distinct codes) a second time, at any later time, leaves the table exactly as the first import left it. */
  lemma ReimportIsFixpoint(t: ProductTable, recs: seq<ProductRecord>, first: Timestamp, second: Timestamp)
    requires forall i, j :: 0 <= i < j < |recs| ==> recs[i].code != recs[j].code
    ensures UpsertAll(UpsertAll(t, recs, first), recs, second) == UpsertAll(t, recs, first)
  {
    UpsertAllAgrees(t, recs, first);
    UpsertAllWhenAgrees(UpsertAll(t, recs, first), recs, second);
  }

  /** A batch whose codes are all present already inserts no row. */
  lemma {:induction false} UpsertAllNoGrowth(t: ProductTable, recs: seq<ProductRecord>, now: Timestamp)
    requires forall j :: 0 <= j < |recs| ==> HasCode(t.rows, recs[j].code)
    ensures |UpsertAll(t, recs, now).rows| == |t.rows|
    ensures UpsertAll(t, recs, now).nextId == t.nextId
    ensures forall i :: 0 <= i < |t.rows| ==> UpsertAll(t, recs, now).rows[i].code == t.rows[i].code
  {
    if recs != [] {
      var init := recs[..|recs| - 1];
      UpsertAllNoGrowth(t, init, now);
      var mid := UpsertAll(t, init, now);
      var c := recs[|recs| - 1].code;
      var k := FindCode(t.rows, c).value;
      assert mid.rows[k].code == c;
    }
  }

  /** Re-importing any batch (duplicate codes allowed) adds no product: every record is counted as updated. */
  lemma ReimportAddsNothing(t: ProductTable, recs: seq<ProductRecord>, first: Timestamp, second: Timestamp)
    requires ProductsValid(t)
    ensures |UpsertAll(UpsertAll(t, recs, first), recs, second).rows| == |UpsertAll(t, recs, first).rows|
  {
    UpsertAllKeeps(t, recs, first);
    UpsertAllNoGrowth(UpsertAll(t, recs, first), recs, second);
  }

  // ---- queries ----

  /** The left join of one product with its category. */
  function Join(cs: seq<Category>, p: Product): (row: ProductRow)
    ensures row.product == p
    ensures row.categoryName.Some? <==> row.defaultMargin.Some?
    ensures row.categoryName.Some? <==> p.categoryId.Some? && FindCategory(cs, p.categoryId.value).Some?
    ensures row.categoryName.Some? ==>
              var k := FindCategory(cs, p.categoryId.value).value;
              row.categoryName == Some(cs[k].name) && row.defaultMargin == Some(cs[k].defaultMargin)
  {
    match p.categoryId
    case None => ProductRow(p, None, None)
    case Some(c) =>
      match FindCategory(cs, c)
      case None => ProductRow(p, None, None)
      case Some(k) => ProductRow(p, Some(cs[k].name), Some(cs[k].defaultMargin))
  }

  function JoinAll(cs: seq<Category>, ps: seq<Product>): (rows: seq<ProductRow>)
    ensures |rows| == |ps| && forall i :: 0 <= i < |ps| ==> rows[i] == Join(cs, ps[i])
  {
    seq(|ps|, i requires 0 <= i < |ps| => Join(cs, ps[i]))
  }

  /** WHERE p.category_id = ? when a category is given, no filter otherwise. */
  predicate InCategory(p: Product, filter: Option<int>) {
    filter.None? || p.categoryId == filter
  }

  function SelectCategory(ps: seq<Product>, filter: Option<int>): (r: seq<Product>)
    ensures forall p :: p in r <==> p in ps && InCategory(p, filter)
    ensures |r| <= |ps|
  {
    if ps == [] then []
    else
      var rest := SelectCategory(ps[1..], filter);
      assert forall p :: p in ps <==> p == ps[0] || p in ps[1..];
      if InCategory(ps[0], filter) then [ps[0]] + rest else rest
  }

  /** p.name LIKE '%q%' OR p.code LIKE '%q%', with SQLite's ASCII-only case folding. */
  predicate MatchesQuery(p: Product, q: string) {
    Contains(Lower(p.name), Lower(q)) || Contains(Lower(p.code), Lower(q))
  }

  function SelectMatching(ps: seq<Product>, q: string): (r: seq<Product>)
    ensures forall p :: p in r <==> p in ps && MatchesQuery(p, q)
    ensures |r| <= |ps|
  {
    if ps == [] then []
    else
      var rest := SelectMatching(ps[1..], q);
      assert forall p :: p in ps <==> p == ps[0] || p in ps[1..];
      if MatchesQuery(ps[0], q) then [ps[0]] + rest else rest
  }

  lemma {:induction false} SelectAll(ps: seq<Product>)
    ensures SelectMatching(ps, "") == ps
    ensures SelectCategory(ps, None) == ps
  {
    if ps != [] {
      SelectAll(ps[1..]);
      ContainsEmpty(Lower(ps[0].name));
    }
  }

  function CategoryName(c: Category): string { c.name }

  function RowName(row: ProductRow): string { row.product.name }

  class Database {
    var categories: seq<Category>
    var products: seq<Product>
    var nextCategoryId: int
    var nextProductId: int

    ghost predicate Valid()
      reads this
    {
      CategoriesValid(categories, nextCategoryId) && ProductsValid(ProductTable(products, nextProductId))
    }

    /** Opening a fresh database file: empty tables, then init_database's seeding. */
    constructor ()
      ensures Valid()
      ensures categories == [Category(1, SeedCategoryName, SeedCategoryMargin)] && nextCategoryId == 2
      ensures products == [] && nextProductId == 1
    {
      categories, products := [], [];
      nextCategoryId, nextProductId := 1, 1;
      new;
      InitDatabase();
    }

    /** Seeds the default category when the Categories table is empty. */
    method InitDatabase()
      requires Valid()
      modifies this
      ensures Valid()
      ensures old(categories) == [] ==>
                categories == [Category(old(nextCategoryId), SeedCategoryName, SeedCategoryMargin)]
                && nextCategoryId == old(nextCategoryId) + 1
      ensures old(categories) != [] ==> categories == old(categories) && nextCategoryId == old(nextCategoryId)
      ensures products == old(products) && nextProductId == old(nextProductId)
    {
      if |categories| == 0 {
        categories := [Category(nextCategoryId, SeedCategoryName, SeedCategoryMargin)];
        nextCategoryId := nextCategoryId + 1;
      }
    }

    /** add_category: refused (False) on a taken name, otherwise exactly one new category. */
    method AddCategory(name: string, defaultMargin: real) returns (ok: bool)
      requires Valid()
      modifies this
      ensures Valid()
      ensures ok <==> NameFree(old(categories), name)
      ensures ok ==> categories == old(categories) + [Category(old(nextCategoryId), name, defaultMargin)]
                     && nextCategoryId == old(nextCategoryId) + 1
      ensures !ok ==> categories == old(categories) && nextCategoryId == old(nextCategoryId)
      ensures products == old(products) && nextProductId == old(nextProductId)
    {
      ok := NameFree(categories, name);
      if ok {
        categories := categories + [Category(nextCategoryId, name, defaultMargin)];
        nextCategoryId := nextCategoryId + 1;
      }
    }

    /** get_categories: every category, ordered by name. */
    function GetCategories(): (r: seq<Category>)
      requires Valid()
      reads this
      ensures multiset(r) == multiset(categories)
      ensures forall i, j :: 0 <= i < j < |r| ==> LexLt(r[i].name, r[j].name)
    {
      var r := SortBy(categories, CategoryName);
      PermutationDistinct(categories, r);
      assert forall i, j :: 0 <= i < j < |r| ==> r[i].name != r[j].name by {
        forall i, j | 0 <= i < j < |r| ensures r[i].name != r[j].name {
          assert r[i] in multiset(categories) && r[j] in multiset(categories);
          var a :| 0 <= a < |categories| && categories[a] == r[i];
          var b :| 0 <= b < |categories| && categories[b] == r[j];
          assert a != b;
        }
      }
      r
    }

    /** update_category: refused when another category already has the name; a missing id updates nothing and succeeds. */
    method UpdateCategory(id: int, name: string, defaultMargin: real) returns (ok: bool)
      requires Valid()
      modifies this
      ensures Valid()
      ensures ok <==> FindCategory(old(categories), id).None?
                      || forall i :: 0 <= i < |old(categories)| && old(categories)[i].id != id ==> old(categories)[i].name != name
      ensures ok ==> categories == RenameCategory(old(categories), id, name, defaultMargin)
      ensures !ok ==> categories == old(categories)
      ensures nextCategoryId == old(nextCategoryId)
      ensures products == old(products) && nextProductId == old(nextProductId)
    {
      ok := FindCategory(categories, id).None?
            || forall i :: 0 <= i < |categories| && categories[i].id != id ==> categories[i].name != name;
      if ok {
        categories := RenameCategory(categories, id, name, defaultMargin);
      }
    }

    /** delete_category: always True; the category's products are detached, not deleted. */
    method DeleteCategory(id: int) returns (ok: bool)
      requires Valid()
      modifies this
      ensures Valid()
      ensures ok
      ensures categories == RemoveCategory(old(categories), id)
      ensures products == Detach(old(products), id)
      ensures forall i :: 0 <= i < |products| ==> products[i].categoryId != Some(id)
      ensures nextCategoryId == old(nextCategoryId) && nextProductId == old(nextProductId)
    {
      RemoveCategoryValid(categories, nextCategoryId, id);
      DetachValid(ProductTable(products, nextProductId), id);
      products := Detach(products, id);
      categories := RemoveCategory(categories, id);
      ok := true;
    }

    /** add_product: refused on a taken code, otherwise one new product stamped with `now`. */
    method AddProduct(code: string, name: string, unit: string, purchasePriceNet: real, vatRate: real,
                      categoryId: Option<int>, now: Timestamp) returns (ok: bool)
      requires Valid()
      modifies this
      ensures Valid()
      ensures ok <==> !HasCode(old(products), code)
      ensures ok ==> products == old(products) + [Product(old(nextProductId), code, name, unit, purchasePriceNet, now, vatRate, categoryId)]
                     && nextProductId == old(nextProductId) + 1
      ensures !ok ==> products == old(products) && nextProductId == old(nextProductId)
      ensures categories == old(categories) && nextCategoryId == old(nextCategoryId)
    {
      ok := !HasCode(products, code);
      if ok {
        products := products + [Product(nextProductId, code, name, unit, purchasePriceNet, now, vatRate, categoryId)];
        nextProductId := nextProductId + 1;
      }
    }

    /** update_product: every field written; the price date moves only when the price moves by more than the tolerance. */
    method UpdateProduct(id: int, code: string, name: string, unit: string, purchasePriceNet: real, vatRate: real,
                         categoryId: Option<int>, now: Timestamp) returns (r: UpdateResult)
      requires Valid()
      modifies this
      ensures Valid()
      ensures r == NoSuchProduct <==> FindProduct(old(products), id).None?
      ensures r == CodeTaken <==> FindProduct(old(products), id).Some?
                                  && exists i :: 0 <= i < |old(products)| && old(products)[i].code == code && old(products)[i].id != id
      ensures r != Updated ==> products == old(products)
      ensures r == Updated ==>
                var k := FindProduct(old(products), id).value;
                var before := old(products)[k];
                products == old(products)[k := Product(id, code, name, unit, purchasePriceNet,
                  if Abs(before.purchasePriceNet - purchasePriceNet) > PriceTolerance then now else before.priceUpdateDate,
                  vatRate, categoryId)]
      ensures categories == old(categories) && nextCategoryId == old(nextCategoryId) && nextProductId == old(nextProductId)
    {
      match FindProduct(products, id)
      case None =>
        r := NoSuchProduct;
      case Some(k) =>
        var before := products[k];
        if exists i :: 0 <= i < |products| && products[i].code == code && products[i].id != id {
          r := CodeTaken;
        } else {
          var date := if Abs(before.purchasePriceNet - purchasePriceNet) > PriceTolerance then now else before.priceUpdateDate;
          var after := Product(id, code, name, unit, purchasePriceNet, date, vatRate, categoryId);
          ReplaceProductValid(ProductTable(products, nextProductId), k, after);
          products := products[k := after];
          r := Updated;
        }
    }

    /** delete_product: always True; removes the product with the id if there is one. */
    method DeleteProduct(id: int) returns (ok: bool)
      requires Valid()
      modifies this
      ensures Valid()
      ensures ok
      ensures products == RemoveProduct(old(products), id)
      ensures categories == old(categories) && nextCategoryId == old(nextCategoryId) && nextProductId == old(nextProductId)
    {
      RemoveProductValid(ProductTable(products, nextProductId), id);
      products := RemoveProduct(products, id);
      ok := true;
    }

    /** get_products: the products of one category (or all), left-joined with their category, ordered by name. */
    function GetProducts(filter: Option<int>): (r: seq<ProductRow>)
      reads this
      ensures multiset(r) == multiset(JoinAll(categories, SelectCategory(products, filter)))
      ensures forall row :: row in r <==> row.product in products && InCategory(row.product, filter)
                                          && row == Join(categories, row.product)
      ensures SortedBy(r, RowName)
    {
      var rows := JoinAll(categories, SelectCategory(products, filter));
      var r := SortBy(rows, RowName);
      assert forall row :: row in r <==> row in multiset(rows);
      r
    }

    /** search_products: products whose name or code contains the query (ASCII case-insensitive), ordered by name. */
    function SearchProducts(query: string): (r: seq<ProductRow>)
      requires '%' !in query && '_' !in query
      reads this
      ensures multiset(r) == multiset(JoinAll(categories, SelectMatching(products, query)))
      ensures forall row :: row in r <==> row.product in products && MatchesQuery(row.product, query)
                                          && row == Join(categories, row.product)
      ensures SortedBy(r, RowName)
    {
      var rows := JoinAll(categories, SelectMatching(products, query));
      var r := SortBy(rows, RowName);
      assert forall row :: row in r <==> row in multiset(rows);
      r
    }

    /** One pass of import_products_batch's loop: update the row with the record's code, or insert it. */
    method UpsertRecord(r: ProductRecord, now: Timestamp) returns (inserted: bool)
      modifies this
      ensures inserted <==> FindCode(old(products), r.code).None?
      ensures ProductTable(products, nextProductId) == UpsertOne(ProductTable(old(products), old(nextProductId)), r, now)
      ensures categories == old(categories) && nextCategoryId == old(nextCategoryId)
    {
      match FindCode(products, r.code) {
        case Some(k) =>
          products := products[k := Refreshed(products[k], r, now)];
          inserted := false;
        case None =>
          products := products + [NewProduct(nextProductId, r, now)];
          nextProductId := nextProductId + 1;
          inserted := true;
      }
    }

    /** import_products_batch: an upsert keyed by code; returns (added, updated). */
    method ImportProductsBatch(records: seq<ProductRecord>, now: Timestamp) returns (added: nat, updated: nat)
      requires Valid()
      modifies this
      ensures Valid()
      ensures ProductTable(products, nextProductId) == UpsertAll(ProductTable(old(products), old(nextProductId)), records, now)
      ensures added + updated == |records|
      ensures added == |products| - |old(products)|
      ensures categories == old(categories) && nextCategoryId == old(nextCategoryId)
    {
      added, updated := 0, 0;
      var i := 0;
      while i < |records|
        invariant 0 <= i <= |records|
        invariant ProductTable(products, nextProductId) == UpsertAll(ProductTable(old(products), old(nextProductId)), records[..i], now)
        invariant added + updated == i
        invariant added == |products| - |old(products)|
        invariant categories == old(categories) && nextCategoryId == old(nextCategoryId)
      {
        UpsertAllStep(ProductTable(old(products), old(nextProductId)), records, i, now);
        var inserted := UpsertRecord(records[i], now);
        if inserted {
          added := added + 1;
        } else {
          updated := updated + 1;
        }
        i := i + 1;
      }
      assert records[..i] == records;
      UpsertAllKeeps(ProductTable(old(products), old(nextProductId)), records, now);
    }
  }

  /** An empty search query lists every product, exactly as get_products() with no category does. */
  lemma SearchEmptyListsAll(db: Database)
    ensures db.SearchProducts("") == db.GetProducts(None)
  {
    SelectAll(db.products);
  }
}

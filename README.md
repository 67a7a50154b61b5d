# Ofertomat core in Dafny

Ofertomat is a desktop application for pricing trade offers. It keeps a catalogue of product
categories and products in a SQLite database. It imports product lists from spreadsheets. It builds
an offer from the products of chosen categories, and it prints the offer as a PDF or DOCX
document: one table per category, a subtotal per table and grand totals.

This project models that core and proves properties of the model:

- `catalog.dfy` (module `Catalog`): the `Database` class. The two tables are sequence fields the
  methods reassign, together with the two AUTOINCREMENT counters. Its methods model adding,
  renaming and deleting categories, and adding, updating, deleting, listing, searching and
  batch-importing products. The UNIQUE constraints and the growing ids are the class invariant
  `Valid()`.
- `report_grouping.dfy` (module `ReportGrouping`): the offer line item and the grouping loop both
  generators share. Items are collected into a dictionary keyed by category name, and the keys
  are then visited in sorted order. It also defines sums over items and over groups.
- `pdf_generator.dfy` (module `PdfGenerator`): `calculate_price` with rounding to cents; the
  per-category tables, subtotals and grand totals; the document's title and date.
- `docx_generator.dfy` (module `DocxGenerator`): the same price calculation and grouping for the
  Word document, and the agreement of its tables with the PDF's.
- `importer.py`'s logic in `importer.dfy` (module `Importer`): `parse_vat_rate`; the column
  renaming; the required-column check; the default columns; the row loop that normalises a
  sheet into product records.
- `offer_session.dfy` (module `Offer`): the `offer_items` list of the application window, as a
  class `OfferSession` whose methods load, edit, remove and print the offer.
- Support modules:
  - `money.dfy`: absolute value and round-half-even to cents;
  - `text.dfy`: whitespace stripping, character removal, ASCII lower-casing, substring search
    and decimal parsing;
  - `ordering.dfy`: code-point string order and a stable insertion sort;
  - `options.dfy`: `Option` and `Result`.

Money and rates are `real`. A stored value is an exact decimal; the source's binary
floating point is not modelled. `round(x, 2)` is round-half-even to cents on that exact value.
The clock (`datetime.now()`) is a `now`/`date` parameter. A spreadsheet is a `Sheet` of header
strings and optional cell texts. A warning snackbar is a `warned` result or a `None` document.

## Model

| member | source | states |
|---|---|---|
| Catalog.Database.constructor | database.py:6-8 | A new database holds only the seeded category "Bez kategorii" with margin 30.0 and no products. The invariant holds. |
| Catalog.Database.InitDatabase | database.py:45-49 | Seeds the default category exactly when there are no categories; otherwise nothing changes. Products are never touched. |
| Catalog.Database.AddCategory | database.py:56-67 | Succeeds iff no category already has the name. On success exactly one category is appended, with the next id. On refusal nothing changes. Names stay unique. |
| Catalog.Database.GetCategories | database.py:69-76 | Returns a permutation of the categories in strictly ascending name order. |
| Catalog.Database.UpdateCategory | database.py:78-89 | Fails iff the id exists and another category already has the name. Otherwise only the category with that id gets the new name and margin; a missing id changes nothing. Products are untouched. |
| Catalog.RenameCategory | database.py:83-84 | Only rows with the id change, to the new name and margin. Every other row is unchanged. |
| Catalog.Database.DeleteCategory | database.py:91-100 | Always succeeds. Removes the category. Products in it are detached and keep every other field. No product is left pointing at the id. |
| Catalog.Detach | database.py:95-96 | Each product loses its category exactly when it was the deleted one. Everything else stays equal and the count is kept. |
| Catalog.RemoveCategory | database.py:97 | Keeps exactly the categories with other ids, and keeps the ids ascending. |
| Catalog.RemoveCategoryValid | database.py:22-28 | Deleting a category keeps names unique and ids ascending and below the counter. |
| Catalog.DetachValid | database.py:31-43 | Detaching products keeps codes unique and ids ascending. |
| Catalog.Database.AddProduct | database.py:104-119 | Succeeds iff the code is not taken. On success one product is appended with the next id and the price date set to now. On refusal nothing changes. |
| Catalog.Database.UpdateProduct | database.py:121-149 | Reports a missing id, or a code held by a different product. Otherwise all fields are overwritten. The price date moves to now iff the price changed by more than 0.001. Codes stay unique. |
| Catalog.ReplaceProductValid | database.py:31-43 | Overwriting one product, with its id kept and its code not held by another, keeps the product invariant. |
| Catalog.Database.DeleteProduct | database.py:151-158 | Always succeeds. Removes exactly the product with the id; categories are untouched. |
| Catalog.RemoveProduct | database.py:155 | Keeps exactly the products with other ids; never grows; keeps ids ascending. |
| Catalog.RemoveProductValid | database.py:31-43 | Deleting a product keeps the product invariant. |
| Catalog.RemoveProductIdempotent | database.py:151-158 | Deleting the same id twice equals deleting it once. |
| Catalog.Join | database.py:163-170 | The left join yields a category name and a margin together, exactly when the product's category id names an existing category. They are then that category's own name and default margin. |
| Catalog.JoinAll | database.py:163-181 | One joined row per product, in the same order. |
| Catalog.SelectCategory | database.py:165-172 | Keeps exactly the products of the requested category; with no filter, all of them. |
| Catalog.Database.GetProducts | database.py:160-183 | A permutation of the joined, filtered products, ordered by name. A row is listed iff its product is stored and in the requested category. |
| Catalog.SelectMatching | database.py:203-208 | Keeps exactly the products whose name or code contains the query, ignoring ASCII case. |
| Text.LowerAscii | database.py:208 | LIKE's case folding: a capital A-Z becomes its own lower-case letter (32 code points on), and every other character is kept. |
| Catalog.Database.SearchProducts | database.py:199-213 | A permutation of the joined matching products, ordered by name. A row is listed iff its product matches by name or code. |
| Catalog.SelectAll | database.py:199-213 | The empty query matches every product, and no filter keeps every product. |
| Catalog.SearchEmptyListsAll | database.py:199-213 | Searching for the empty string lists the same rows as get_products() without a filter. |
| Text.ContainsIff | database.py:207-208 | The substring test used for the search holds iff the query occurs at some position (both directions). |
| Catalog.FindCode | database.py:226-229 | Finds the first product with the code, or reports that none has it. |
| Catalog.Refreshed | database.py:232-248 | An existing product keeps its id and code and takes the record's name, unit, VAT and category. Its price and date change iff the price moved by more than 0.001. |
| Catalog.NewProduct | database.py:250-257 | A new row takes the given id, every field of the record, and now as its price date. |
| Catalog.UpsertOne | database.py:226-257 | A known code overwrites its first row with the refreshed product, keeping the size and the counter. An unknown code appends a new product with id nextId, stamped with now, and moves the counter by one. Existing rows keep their ids and codes. |
| Catalog.UpsertAll | database.py:226-257 | A batch never shrinks the table and adds at most one row per record. The counter moves by exactly the number of rows added. |
| Catalog.UpsertOneValid | database.py:215-261 | One insert-or-update keeps codes unique and ids ascending. |
| Catalog.UpsertOneOtherCode | database.py:226-257 | Upserting one code leaves the row of every other code where and as it was. |
| Catalog.UpsertOneAgrees | database.py:226-257 | After upserting a record, the stored row with its code carries the record's fields. |
| Catalog.UpsertAllKeeps | database.py:215-261 | A batch keeps the invariant, deletes nothing, keeps every existing id and code, and leaves every record's code stored. |
| Catalog.UpsertAllAgrees | database.py:215-261 | After a batch with distinct codes, every record agrees with its stored row. |
| Catalog.UpsertOneWhenAgrees | database.py:232-248 | Upserting a record its row already agrees with changes nothing, the price date included. |
| Catalog.UpsertAllWhenAgrees | database.py:215-261 | A batch whose records all agree with the table changes nothing. |
| Catalog.ReimportIsFixpoint | database.py:215-261 | Importing the same batch of distinct codes again, at any later time, leaves the table as the first import left it. |
| Catalog.UpsertAllNoGrowth | database.py:226-250 | A batch of codes that are all stored adds no row and moves no code. |
| Catalog.ReimportAddsNothing | database.py:250-257 | Importing a batch a second time adds no products. |
| Catalog.Database.ImportProductsBatch | database.py:215-261 | The table becomes the in-order upsert of the records. The added and updated counts sum to the number of records, and the added count is the table's growth. Categories are untouched. |
| Catalog.Database.UpsertRecord | database.py:226-257 | One pass of the loop leaves the table as UpsertOne of the old table. It reports an insert iff the code was not stored. Categories are untouched. |
| Money.Abs | database.py:133 | A non-negative value equal to x or to -x. |
| Money.RoundCents | pdf_generator.py:57-63 | The nearest whole number of cents, within half a cent. |
| Money.Round2 | pdf_generator.py:57-63 | Rounding to two decimals gives a whole number of cents, at most half a cent from the value. |
| Money.Round2OfCents | pdf_generator.py:57-63 | Whole-cent values are left unchanged by rounding. |
| Money.Round2Monotone | pdf_generator.py:57-63 | Rounding to cents preserves order. |
| PdfGenerator.CalculatePrice | pdf_generator.py:39-63 | Each of the five amounts is within half a cent of its exact value. The exact values are net unit = cost × (1 + margin/100), gross unit = net × (1 + VAT/100), net total = net × quantity, VAT amount = net total × VAT/100, gross total = net total + VAT amount. |
| PdfGenerator.ExactPrices | pdf_generator.py:46-55 | Before rounding, the gross total is the gross unit price times the quantity. The VAT amount is the per-unit VAT times the quantity. A non-negative margin never prices below cost. |
| PdfGenerator.DefaultQuantityTotals | pdf_generator.py:39 | At the default quantity 1 the totals equal the unit prices. |
| PdfGenerator.WorkedExample | pdf_generator.py:39-63 | Cost 3000, margin 40 %, VAT 23 %, two units price at 4200 / 5166 / 8400 / 1932 / 10332. |
| PdfGenerator.MarginNotBelowCost | pdf_generator.py:47-58 | With a non-negative margin, the rounded net price of a whole-cent cost is never below that cost. |
| ReportGrouping.ItemsIn | pdf_generator.py:113-118 | A category's group holds only offer items of that category, and is never longer than the offer. |
| ReportGrouping.CategoryOfKey | pdf_generator.py:115 | An item's dictionary key is its category name, or "Bez kategorii" when it has none. |
| ReportGrouping.ItemsInComplete | pdf_generator.py:113-118 | No item is lost: every item of a category is in that category's group. |
| ReportGrouping.ItemsInAppend | pdf_generator.py:113-118 | Grouping keeps offer order: the group of a concatenation is the first part's group followed by the second part's. |
| ReportGrouping.GroupByCategory | pdf_generator.py:112-125 | The dictionary's keys are exactly the categories that occur. Each key maps to that category's items in offer order. The visiting order lists each key once, strictly ascending. |
| ReportGrouping.GroupStepSeen | pdf_generator.py:116-118 | Appending an item of a known category keeps the grouping invariant. |
| ReportGrouping.GroupStepNew | pdf_generator.py:115-118 | Opening a new category keeps the grouping invariant. |
| ReportGrouping.SortedNames | pdf_generator.py:125 | Sorting the distinct first-seen keys gives the same keys in strictly ascending order. |
| ReportGrouping.ItemsInAbsent | pdf_generator.py:113-118 | A category no item carries has an empty group. |
| ReportGrouping.SumGroupsSnoc | pdf_generator.py:155-167 | A new item adds its amount to exactly one listed category's sum. |
| ReportGrouping.SumGroupsIsTotal | pdf_generator.py:121-167 | Summing the per-category subtotals over categories that cover every item gives the sum over all items. |
| ReportGrouping.GroupSizesAddUp | pdf_generator.py:113-118 | Every item lands in exactly one group: the group sizes add up to the item count. |
| PdfGenerator.PricedRows | pdf_generator.py:134-146 | One priced row per item of the group, in order, each carrying calculate_price of that item. |
| PdfGenerator.TablesOf | pdf_generator.py:125-163 | One table per category name, in the order given. |
| PdfGenerator.TableNames | pdf_generator.py:125-130 | The tables' headings, in order. |
| PdfGenerator.PriceCategory | pdf_generator.py:134-163 | The table for one category holds that category's priced items. Its subtotals are the sums of their rounded line totals. |
| PdfGenerator.BuildTables | pdf_generator.py:121-167 | Produces the tables for the sorted categories. The grand totals are the sums of the per-category subtotals. |
| PdfGenerator.GenerateOfferPdf | pdf_generator.py:100-211 | The title defaults to "Oferta handlowa" and the date is passed through. The tables are the sorted category tables of the items, with the matching grand totals. |
| PdfGenerator.GrandTotalsAreItemSums | pdf_generator.py:208-211 | The summary's grand net and gross totals equal the sums of the items' rounded line totals. |
| PdfGenerator.EveryItemInOneTable | pdf_generator.py:112-146 | Every item's category has a table, and the table sizes add up to the item count. |
| PdfGenerator.TableNamesOf | pdf_generator.py:125 | The document's headings are the category names, in the order given. |
| DocxGenerator.CalculatePrice | docx_generator.py:17-41 | Computes exactly what the PDF generator's calculate_price computes. |
| DocxGenerator.UnitLabel | docx_generator.py:158 | The unit label is "zł/" followed by the unit itself. |
| DocxGenerator.RowsOf | docx_generator.py:138-170 | One row per item of the group, in order. |
| DocxGenerator.DocxTablesOf | docx_generator.py:109-170 | One table per category name, in the order given. |
| DocxGenerator.BuildRows | docx_generator.py:138-170 | The loop builds exactly the rows of the group. |
| DocxGenerator.BuildDocxTables | docx_generator.py:109-170 | The loop builds exactly one table per sorted category. |
| DocxGenerator.GenerateOfferDocx | docx_generator.py:85-170 | The title defaults to "Oferta handlowa" and the date is passed through. The tables are the sorted category tables of the items. |
| DocxGenerator.DocxNamesOf | docx_generator.py:109 | The document's headings are the category names, in order. |
| DocxGenerator.AgreesWithPdf | docx_generator.py:100-170 | For the same items, the Word and the PDF document have the same number of tables under the same headings. Row by row they show the same product names and the same net and gross unit prices. |
| Importer.ScaleVat | importer.py:25-29 | A value strictly between 0 and 1 is a fraction and becomes a percentage. Any other value is kept. |
| Importer.VatText | importer.py:17-20 | The text handed to float() holds no percent sign and no surrounding whitespace. |
| Importer.ParseVatRate | importer.py:9-31 | A missing cell, or text that float() rejects after cleaning, gives 23. Otherwise the result is the parsed number, turned into a percentage when it is a fraction. |
| Importer.DefaultRate | importer.py:14-31 | A missing cell, or text that does not parse as a number, gives the default rate 23. |
| Importer.VatTextIgnoresPercent | importer.py:17-20 | Removing a percent sign anywhere in the cell does not change the cleaned text. |
| Importer.PercentAnywhere | importer.py:17-29 | A percent sign anywhere in the cell does not change the parsed rate. |
| Importer.PaddingIgnored | importer.py:17-20 | Surrounding whitespace does not change the parsed rate. |
| Importer.WholeRate | importer.py:22-29 | Any whole number written in decimal parses to itself. |
| Importer.FractionRate | importer.py:25-27 | The fraction "0.23" is read as 23 %. |
| Importer.WholeRateExamples | importer.py:9-29 | "23" and "23%" both give 23. |
| Importer.SpacedPercentExample | importer.py:17-29 | "5 %" gives 5. |
| Text.Strip | importer.py:17 | The result is no longer than the input and has no leading or trailing whitespace. |
| Text.StripIdempotent | importer.py:17-20 | Stripping twice equals stripping once. |
| Text.StripRemoveStrip | importer.py:17-20 | Stripping, removing a non-space character and stripping again equals removing it and stripping once. |
| Text.RemoveChar | importer.py:20 | Exactly the characters other than the removed one remain. |
| Text.ParseNatDigits | importer.py:23 | float() of a decimal numeral is its value. |
| Text.ParseFloat | importer.py:23 | Only text that holds a digit parses as a number. |
| Text.ParseFloatPadding | importer.py:23 | Surrounding whitespace never changes what float() reads. |
| Text.DigitsValueBound | importer.py:23 | A run of k digits denotes less than 10^k. |
| Text.DecimalFraction | importer.py:23 | The digits after a decimal point denote a value in [0, 1). |
| Text.ParseUnsignedDecimal | importer.py:23 | An unsigned numeral "whole.fraction" reads as the whole part plus the fraction's digits over a power of ten. |
| Text.ParseFloatUnsigned | importer.py:23 | Unpadded text without a sign is read as an unsigned numeral. |
| Text.ParseDecimal | importer.py:23 | float("whole.fraction") is the whole part plus the fraction's digits over a power of ten, for every such numeral. |
| Text.MinusNumeral | importer.py:23 | float() of "-" followed by a numeral is the numeral's negation; after "-" anything that is no numeral is rejected. |
| Text.PlusNumeral | importer.py:23 | A leading "+" reads the rest as an unsigned numeral. |
| Text.ParseUnsignedWhole | importer.py:23 | Every non-empty run of digits is accepted, as the number it denotes. |
| Text.ParseUnsignedShape | importer.py:23 | Only unsigned numerals are accepted: accepted text is digits, optionally a point and more digits, with a digit somewhere, and reads as those digits' value. |
| Text.ParseFloatShape | importer.py:23 | Only signed numerals are accepted: accepted text is, once stripped, an optional sign and an unsigned numeral, and reads as that numeral's value, negated after "-". Text such as "12abc" or "1.2.3" is rejected. |
| Importer.RenamedAll | importer.py:95-102 | Each header is renamed by the mapping after stripping, or kept as is, position by position. |
| Importer.RenameColumns | importer.py:95-102 | The renaming loop produces exactly the renamed headers. |
| Importer.RenameMapLookup | importer.py:96-100 | A header is renamed iff its stripped form is a known column title; it then maps to that title's column name. |
| Importer.MappedValues | importer.py:68-93 | Every column title maps to one of the five column names. |
| Importer.MappedNameNotHeader | importer.py:68-93 | No target column name is itself a title the mapping renames. |
| Importer.MappedNameTrimmed | importer.py:68-93 | Every target column name is free of surrounding whitespace. |
| Importer.RenameIdempotent | importer.py:95-102 | Renaming an already renamed header changes nothing. |
| Importer.Missing | importer.py:105-106 | Lists exactly the required columns that are absent. |
| Importer.NothingMissing | importer.py:104-109 | Nothing is missing iff both "code" and "name" are present. |
| Importer.IndicesOf | importer.py:121-130 | The positions holding a column name, exactly, in ascending order. |
| Importer.IndicesOfEmpty | importer.py:111-117 | A column has no position iff it is absent. |
| Importer.CellOf | importer.py:111-130 | A cell is absent iff no header is the column's name. It is ambiguous iff two headers are. Otherwise it is the row's entry under that one header, or NaN past the row's end. |
| Importer.TextCell | importer.py:127-129 | Fails only on a duplicated column. A present cell gives its text stripped; a NaN cell or an absent column gives the default. |
| Importer.PriceCell | importer.py:130 | Fails exactly on a duplicated column, or on text float() rejects, naming the row and the text. Otherwise it gives the float() of the text, or 0.0 for a NaN cell or an absent column. |
| Importer.VatCell | importer.py:131 | Fails only on a duplicated column. A present cell goes through parse_vat_rate, and an absent column gives 23. |
| Importer.CellsOf | importer.py:111-117 | The unit, price and VAT cells are absent exactly when their columns are. |
| Importer.CellsOfPositions | importer.py:111-130 | The code, name, unit, price and VAT cells are each read from the column of that name. |
| Importer.RecordOf | importer.py:126-133 | Fails exactly when a column is duplicated or the price does not parse. Otherwise every field is read from its cell (stripped text, float() of the price, parse_vat_rate of the rate). The record carries the code and the chosen category, and NaN cells and absent columns give "", "szt.", 0.0 and 23. |
| Importer.CodeOf | importer.py:123-127 | A row's code, when kept, is non-empty and stripped. |
| Importer.NormalizeRow | importer.py:121-135 | A row is skipped iff its code is missing or blank. It fails exactly on a duplicated code column, or when a kept row's record fails. A kept row's record has the stripped code and every field read from its cells. |
| Importer.NormalizeRows | importer.py:119-137 | The row loop computes exactly the normalisation of all rows, stopping at the first failing row. |
| Importer.NormalizeAll | importer.py:119-137 | A successful pass yields at most one record per row, each carrying the chosen category. |
| Importer.Import | importer.py:104-137 | A missing-columns failure names a non-empty list of required columns, each absent after renaming. Every imported record carries the chosen category. |
| Importer.ImportFromFile | importer.py:67-137 | Computes the whole import of a sheet: renaming, the required-column check, defaults and the row loop. |
| Importer.NormalizeAllStep | importer.py:119-137 | One more row either fails, is skipped, or appends its record. |
| Importer.NormalizeAllErrSticks | importer.py:119-137 | Once a row fails, later rows do not change the outcome. |
| Importer.MissingColumnsIff | importer.py:104-109 | The import fails for missing columns iff "code" or "name" is absent after renaming. |
| Importer.NormalizeAllNoMissing | importer.py:119-137 | The row loop itself never reports missing columns. |
| Importer.KeptRows | importer.py:122-124 | At most every row is kept. |
| Importer.ImportCount | importer.py:119-137 | A successful import yields one record per row with a non-blank code, and never more records than rows. |
| Importer.ImportClean | importer.py:126-133 | Every imported record has a non-empty stripped code, stripped name and unit, and the chosen category. |
| Importer.ImportDefaults | importer.py:111-117 | Absent unit, price and VAT columns give "szt.", 0.0 and 23 in every record. |
| Importer.ImportReadsRows | importer.py:119-137 | Every imported record comes from some row of the sheet: that row's code cell gives its code and its cells give its fields as parse_vat_rate, float() and strip read them. |
| Importer.SourceRow | importer.py:119-137 | For each imported record, a row position whose cells give that record. |
| Ordering.SortBy | database.py:73 | Sorting by a text key gives a permutation in ascending key order. |
| Ordering.InsertBySorted | database.py:171 | Inserting into a sorted list keeps it sorted. |
| Ordering.LexLeTotal | pdf_generator.py:125 | Any two strings are comparable. |
| Ordering.LexLeTransitive | pdf_generator.py:125 | String order is transitive. |
| Ordering.LexLeAntisymmetric | pdf_generator.py:125 | Two strings each not above the other are equal. |
| Ordering.PermutationDistinct | pdf_generator.py:125 | A permutation of a list without repeats has no repeats. |
| Ordering.StrictlyAscendingUnique | docx_generator.py:109 | A set of names has only one strictly ascending listing, which is why both generators order their tables alike. |
| Offer.OfferSession.constructor | main.py:16 | A new window starts with an empty offer. |
| Offer.OfferSession.ShowOfferView | main.py:550-552 | Opening the offer view clears the offer. |
| Offer.OfferSession.LoadOfferProducts | main.py:587-610 | Warns iff no category is selected, and then leaves the offer unchanged. Otherwise the offer becomes the items of each selected category's listed products, category by category. |
| Offer.ItemsOfRows | main.py:598-608 | One line item per listed product, in order. |
| Offer.ItemOf | main.py:599-608 | An item takes its product's id, name, unit, price and VAT, quantity 1 and the row's category name. Its margin is the row's default margin, or 30.0 when the row has none. |
| Offer.LoadedItems | main.py:595-608 | Every loaded item starts at quantity 1, and no selection loads nothing. |
| Offer.LoadedItemsStep | main.py:596-608 | Each selected category appends its own block of items. |
| Offer.BlockMembers | main.py:597-608 | A category's block holds exactly the items built from stored products of that category. |
| Offer.LoadedItemsMembers | main.py:595-608 | An item is loaded iff it is built from a stored product of some selected category. |
| Offer.LoadedItemMember | main.py:595-608 | The same, for one item. |
| Offer.ItemOfProduct | main.py:599-608 | An item starts at quantity 1 with its product's id, name, unit, price and VAT. Its margin and category name are the category's. |
| Offer.LoadedItemsSnapshot | main.py:595-608 | When the selected categories exist, every loaded item has quantity 1, snapshots a stored product of a selected category, and takes that category's margin. |
| Offer.ItemsOfRowsSorted | main.py:597-599 | The items keep the listing's name order. |
| Offer.OneCategorySorted | main.py:596-599 | Loading one category gives its items in name order. |
| Offer.WithQuantity | main.py:686-692 | Only the chosen item's quantity changes, and only when the text parses as a number; otherwise the offer is unchanged. |
| Offer.OfferSession.UpdateQuantity | main.py:686-692 | The offer becomes the quantity edit of the old offer. |
| Offer.WithMargin | main.py:694-700 | Only the chosen item's margin changes, and only when the text parses as a number; otherwise the offer is unchanged. |
| Offer.OfferSession.UpdateMargin | main.py:694-700 | The offer becomes the margin edit of the old offer. |
| Offer.Removed | main.py:702-705 | The item at the index is dropped and the later items shift down by one. |
| Offer.OfferSession.RemoveOfferItem | main.py:702-705 | The offer becomes the old offer without the item at the index. |
| Offer.RemovedPermutation | main.py:704 | Removing an item loses exactly that item and keeps every other one. |
| Offer.WithQuantityIdempotent | main.py:686-692 | Entering the same quantity twice equals entering it once. |
| Offer.QuantityAndMarginCommute | main.py:686-700 | A quantity edit and a margin edit give the same offer in either order. |
| Offer.QuantityKeepsUnitPrices | main.py:617-618 | Changing a quantity changes no item's unit prices as shown in the window. |
| Offer.UnitPrices | main.py:617-618 | The window's net and gross unit prices are exactly calculate_price's unrounded ones. A non-negative margin never shows a net price below cost. |
| Offer.ShownPricesMatchDocument | main.py:617-618 | The unit prices shown in the window, rounded to cents, are the ones the PDF prints. |
| Offer.OfferSession.GenerateOfferPdf | main.py:707-718 | No document iff the offer is empty. Otherwise the document carries the entered title and the date, and is the PDF of the current offer. |

## Left out

- The Flet user interface: layouts, dialogs, text fields, checkboxes, snackbars and page
  refreshes. A warning is a `warned` result, or a `None` document for an empty offer.
- SQLite plumbing is not modelled: connections, cursors, commits, the database file path and
  `sqlite3.Row`. A failed insert or update that SQLite reports as `IntegrityError` is the
  refusal it causes.
- The clock is not modelled: `datetime.now()` becomes the `now` and `date` parameters. The
  timestamp string format is not modelled.
- Binary floating point is not modelled. Money is an exact `real`, and `round(x, 2)` rounds
  that exact value half to even, so a value whose binary float lies just beside a half cent
  can round differently in the source.
- `float()` is not fully modelled: infinity, NaN, exponents, digit underscores and non-ASCII
  decimal digits (Python reads "٢٣" as 23.0) are not accepted. `ParseFloat` reads plain
  ASCII decimal text with an optional sign and surrounding whitespace.
- Catalog.Database.SearchProducts: requires a query without `%` or `_`, because SQL `LIKE`
  wildcards are not modelled. Case folding is ASCII only, as SQLite's `LIKE` does by default.
- Catalog.Database.GetCategories: the order among equal names is not pinned. Names are unique,
  so this never matters.
- Catalog.Database.GetProducts: the order among products with equal names is left open, as
  `ORDER BY p.name` leaves it. The contract states a permutation in name order.
- Catalog.Database.DeleteCategory: the test suite expects `delete_category` to refuse a
  category that still holds products (test_ofertomat.py:71-73). The code always detaches the
  products and returns `True`. The model follows the code.
- Foreign keys are not enforced by SQLite without `PRAGMA foreign_keys`, so a product may name
  a category id that does not exist. The join then yields no category name or margin.
- Catalog.Database.UpdateProduct: on an id that does not exist the source crashes with
  `TypeError`, from indexing `None` at database.py:130. The model returns `NoSuchProduct` and
  changes nothing.
- `get_product_by_id` and `validate_import_file` are not part of this model.
- Reading files is not modelled: pandas' CSV and Excel readers, the separator retry, and the
  unsupported-extension error. The import starts from a `Sheet` of header strings and optional
  cell texts; non-text headers are not modelled.
- Importer.ImportFromFile: a duplicated column after renaming is reported as an
  `AmbiguousColumn` error. In pandas, `row['code']` then yields a Series and the truthiness
  test raises.
- Importer.NormalizeRow: a price cell that `float()` rejects is a `BadPrice` error, where the
  source raises `ValueError` out of the import. A VAT cell never fails on its contents, as in
  the source; only a duplicated `vat_rate` column fails it.
- Rendering is not modelled: fonts, table styles, colours, page layout, writing the .pdf or
  .docx file, the `try`/`except` that returns `False`, and opening the file with
  `os.startfile`. A document is modelled by its title, date, tables, rows and totals.
- Offer.OfferSession.LoadOfferProducts: the checkbox list is the `selected` parameter, and the
  database is passed in.
- Offer.ItemOf: the joined row always carries the keys `default_margin` and `category_name`,
  so the `.get` fallbacks 30.0 and "Brak" never apply. For a product whose category row is
  missing the source stores `None`. The model uses 30.0 as the margin and no category name
  in that case. That case cannot arise when the selected categories exist, which
  Offer.LoadedItemsSnapshot assumes.
- ReportGrouping.CategoryOf: an item without a category name is grouped under
  "Bez kategorii". In the source a `None` name raises in the sort when such an item shares
  the offer with a named category, since `None` and a string cannot be compared.
- Offer.OfferSession.UpdateQuantity, Offer.OfferSession.UpdateMargin and
  Offer.OfferSession.RemoveOfferItem: these require a valid index, which the window always
  passes. `IndexError` is not modelled.
- Offer.OfferSession.GenerateOfferPdf: the output file name built from the timestamp is not
  modelled. Neither is the success or failure snackbar.
- The unit prices shown in the window are modelled by `Offer.UnitPrices` (net and gross before
  rounding). The table widgets that display them are not.

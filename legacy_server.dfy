/** The JSON-mode API of `backend/server.js`: every route reads the parsed
    data file `productData` and never writes it. The product listing
    narrows a copy of the records by one `filter` per supplied query
    parameter, without sorting, then cuts a page from what is left. */
module LegacyServer {
  import opened Wrappers
  import Text
  import Seqs
  import opened Catalog
  import opened Http
  import InitDatabase

  type JsonCategory = InitDatabase.JsonCategory
  type JsonSubCategory = InitDatabase.JsonSubCategory
  type JsonProduct = InitDatabase.JsonProduct

  // ---------------------------------------------------------------------
  // Lookups by id and the subcategory list
  // ---------------------------------------------------------------------

  /** The body of a lookup: the record itself, or `{ message }`. */
  datatype Found<T> = Record(record: T) | Missing(message: string)

  /** `records.find(r => r.id === id)`, answered as the record or a 404. */
  function ById<T>(records: seq<T>, idOf: T -> string, id: string, missing: string): Reply<Found<T>> {
    match Seqs.Find(records, (r: T) => idOf(r) == id)
    case Some(r) => Json(OkStatus, Record(r))
    case None => Json(NotFoundStatus, Missing(missing))
  }

  /** A lookup answers 404 with its message exactly when no record carries
      the id, and otherwise 200 with the first record that does. */
  lemma ByIdMeaning<T>(records: seq<T>, idOf: T -> string, id: string, missing: string)
    ensures var reply := ById(records, idOf, id, missing);
      && reply.Json?
      && (reply.status == 404 <==> forall k :: 0 <= k < |records| ==> idOf(records[k]) != id)
      && (reply.status == 404 ==> reply.body == Missing(missing))
      && (reply.status != 404 ==>
            && reply.status == 200 && reply.body.Record?
            && exists i :: 0 <= i < |records| && records[i] == reply.body.record && idOf(records[i]) == id
                 && forall j :: 0 <= j < i ==> idOf(records[j]) != id)
  {
    var f := (r: T) => idOf(r) == id;
    Seqs.FindFirst(records, f);
    if Seqs.Find(records, f).None? {
      forall k | 0 <= k < |records| ensures idOf(records[k]) != id {
        assert records[k] in records;
      }
    }
  }

  function CategoryKey(c: JsonCategory): string { c.id }
  function SubCategoryKey(s: JsonSubCategory): string { s.id }
  function ProductKey(p: JsonProduct): string { p.id }

  /** `GET /api/categories/:id`. */
  function GetCategory(data: InitDatabase.JsonData, id: string): Reply<Found<JsonCategory>> {
    ById(data.categories, CategoryKey, id, "Category not found")
  }

  /** `GET /api/subcategories/:id`. */
  function GetSubCategory(data: InitDatabase.JsonData, id: string): Reply<Found<JsonSubCategory>> {
    ById(data.subCategories, SubCategoryKey, id, "Subcategory not found")
  }

  /** `GET /api/products/:id`. */
  function GetProduct(data: InitDatabase.JsonData, id: string): Reply<Found<JsonProduct>> {
    ById(data.products, ProductKey, id, "Product not found")
  }

  /** Each of the three lookups answers 404 with its entity's message
      exactly when no record of that entity has the id. */
  lemma LookupsAnswer(data: InitDatabase.JsonData, id: string)
    ensures GetCategory(data, id).Json?
    ensures GetCategory(data, id).status == 404 <==> forall c :: c in data.categories ==> c.id != id
    ensures GetCategory(data, id).status == 404 ==> GetCategory(data, id).body == Missing("Category not found")
    ensures GetSubCategory(data, id).status == 404 <==> forall s :: s in data.subCategories ==> s.id != id
    ensures GetSubCategory(data, id).status == 404 ==> GetSubCategory(data, id).body == Missing("Subcategory not found")
    ensures GetProduct(data, id).status == 404 <==> forall p :: p in data.products ==> p.id != id
    ensures GetProduct(data, id).status == 404 ==> GetProduct(data, id).body == Missing("Product not found")
  {
    ByIdMeaning(data.categories, CategoryKey, id, "Category not found");
    ByIdMeaning(data.subCategories, SubCategoryKey, id, "Subcategory not found");
    ByIdMeaning(data.products, ProductKey, id, "Product not found");
  }

  /** `GET /api/subcategories`: all of them, or those of a truthy
      `categoryId`. */
  function SubCategoriesOf(subs: seq<JsonSubCategory>, categoryId: Option<string>): seq<JsonSubCategory> {
    if Text.Truthy(categoryId) then Seqs.Filter(subs, (sc: JsonSubCategory) => sc.categoryId == categoryId.value)
    else subs
  }

  /** Exactly the subcategories of the category are listed, in data-file
      order; without a category every subcategory is. */
  lemma SubCategoriesOfExact(subs: seq<JsonSubCategory>, more: seq<JsonSubCategory>, categoryId: Option<string>,
                             sc: JsonSubCategory)
    ensures !Text.Truthy(categoryId) ==> SubCategoriesOf(subs, categoryId) == subs
    ensures Text.Truthy(categoryId) ==>
      (sc in SubCategoriesOf(subs, categoryId) <==> sc in subs && sc.categoryId == categoryId.value)
    ensures SubCategoriesOf(subs + more, categoryId) == SubCategoriesOf(subs, categoryId) + SubCategoriesOf(more, categoryId)
  {
    if Text.Truthy(categoryId) {
      var f := (sc: JsonSubCategory) => sc.categoryId == categoryId.value;
      Seqs.FilterMembership(subs, f, sc);
      Seqs.FilterConcat(subs, more, f);
    }
  }

  // ---------------------------------------------------------------------
  // The product listing
  // ---------------------------------------------------------------------

  /** `req.query` of `GET /api/products`; `page` and `limit` are the
      results of `parseInt`. */
  datatype ListingRequest = ListingRequest(
    category: Option<string>,
    subCategory: Option<string>,
    search: Option<string>,
    productType: Option<string>,
    usage: Option<string>,
    inStock: Option<string>,
    page: Option<nat>,
    limit: Option<nat>)

  /** `p.attributes && p.attributes[key]`, when that is a non-empty string. */
  function AttrOf(p: JsonProduct, key: string): Option<string> {
    if p.attributes.Some? && TextAttr(p.attributes.value, key).Some? && TextAttr(p.attributes.value, key).value != ""
    then TextAttr(p.attributes.value, key)
    else None
  }

  /** The test of one `products.filter(…)` of the handler. */
  datatype Test =
    | CategoryIs(category: string)
    | SubCategoryIs(subCategory: string)
    | Mentions(term: string)
    | TypeIs(productType: string)
    | UsageHas(usage: string)
    | StockIs(inStock: bool)

  predicate Passes(p: JsonProduct, t: Test) {
    match t
    case CategoryIs(c) => p.category == c
    case SubCategoryIs(s) => p.subCategory == s
    case Mentions(term) =>
      Text.Contains(Text.ToLower(p.name), Text.ToLower(term))
      || Text.Contains(Text.ToLower(p.description), Text.ToLower(term))
    case TypeIs(ty) => AttrOf(p, "type").Some? && Text.ToLower(AttrOf(p, "type").value) == Text.ToLower(ty)
    case UsageHas(u) => AttrOf(p, "usage").Some? && Text.Contains(Text.ToLower(AttrOf(p, "usage").value), Text.ToLower(u))
    case StockIs(b) => p.inStock == Some(b)
  }

  function Testing(t: Test): JsonProduct -> bool {
    (p: JsonProduct) => Passes(p, t)
  }

  /** The k-th `if` block of the handler: its test when the parameter is
      supplied. Text parameters count when truthy; `inStock` whenever it is
      present, any string but `'true'` asking for products out of stock. */
  function Stage(q: ListingRequest, k: nat): Option<Test> {
    if k == 0 then (if Text.Truthy(q.category) then Some(CategoryIs(q.category.value)) else None)
    else if k == 1 then (if Text.Truthy(q.subCategory) then Some(SubCategoryIs(q.subCategory.value)) else None)
    else if k == 2 then (if Text.Truthy(q.search) then Some(Mentions(q.search.value)) else None)
    else if k == 3 then (if Text.Truthy(q.productType) then Some(TypeIs(q.productType.value)) else None)
    else if k == 4 then (if Text.Truthy(q.usage) then Some(UsageHas(q.usage.value)) else None)
    else if k == 5 then (if q.inStock.Some? then Some(StockIs(q.inStock.value == "true")) else None)
    else None
  }

  const StageCount: nat := 6

  /** The product survives the first `n` blocks. */
  predicate PassesUpTo(q: ListingRequest, n: nat, p: JsonProduct) {
    n == 0 || (PassesUpTo(q, n - 1, p) && StagePasses(q, n - 1, p))
  }

  function Kept(q: ListingRequest, n: nat): JsonProduct -> bool {
    (p: JsonProduct) => PassesUpTo(q, n, p)
  }

  /** The records the handler lists before the page is cut. */
  function Listed(products: seq<JsonProduct>, q: ListingRequest): seq<JsonProduct> {
    Seqs.Filter(products, Kept(q, StageCount))
  }

  /** What the query asks of a product, parameter by parameter. */
  predicate Selected(q: ListingRequest, p: JsonProduct) {
    && (Text.Truthy(q.category) ==> p.category == q.category.value)
    && (Text.Truthy(q.subCategory) ==> p.subCategory == q.subCategory.value)
    && (Text.Truthy(q.search) ==>
          Text.Contains(Text.ToLower(p.name), Text.ToLower(q.search.value))
          || Text.Contains(Text.ToLower(p.description), Text.ToLower(q.search.value)))
    && (Text.Truthy(q.productType) ==>
          AttrOf(p, "type").Some? && Text.ToLower(AttrOf(p, "type").value) == Text.ToLower(q.productType.value))
    && (Text.Truthy(q.usage) ==>
          AttrOf(p, "usage").Some? && Text.Contains(Text.ToLower(AttrOf(p, "usage").value), Text.ToLower(q.usage.value)))
    && (q.inStock.Some? ==> p.inStock == Some(q.inStock.value == "true"))
  }

  /** The k-th block lets the product through. */
  predicate StagePasses(q: ListingRequest, k: nat, p: JsonProduct) {
    Stage(q, k).None? || Passes(p, Stage(q, k).value)
  }

  /** Surviving all six blocks is meeting every supplied parameter. */
  lemma PassesAllMeaning(q: ListingRequest, p: JsonProduct)
    ensures PassesUpTo(q, StageCount, p) <==> Selected(q, p)
  {
    assert PassesUpTo(q, 6, p) == (PassesUpTo(q, 5, p) && StagePasses(q, 5, p));
    assert PassesUpTo(q, 5, p) == (PassesUpTo(q, 4, p) && StagePasses(q, 4, p));
    assert PassesUpTo(q, 4, p) == (PassesUpTo(q, 3, p) && StagePasses(q, 3, p));
    assert PassesUpTo(q, 3, p) == (PassesUpTo(q, 2, p) && StagePasses(q, 2, p));
    assert PassesUpTo(q, 2, p) == (PassesUpTo(q, 1, p) && StagePasses(q, 1, p));
    assert PassesUpTo(q, 1, p) == StagePasses(q, 0, p);
    SearchStage(q, p);
    TypeStage(q, p);
    UsageStage(q, p);
  }

  lemma SearchStage(q: ListingRequest, p: JsonProduct)
    ensures StagePasses(q, 2, p) == (Text.Truthy(q.search) ==>
      Text.Contains(Text.ToLower(p.name), Text.ToLower(q.search.value))
      || Text.Contains(Text.ToLower(p.description), Text.ToLower(q.search.value)))
  {
    if Text.Truthy(q.search) {
      assert Stage(q, 2) == Some(Mentions(q.search.value));
    }
  }

  lemma TypeStage(q: ListingRequest, p: JsonProduct)
    ensures StagePasses(q, 3, p) == (Text.Truthy(q.productType) ==>
      AttrOf(p, "type").Some? && Text.ToLower(AttrOf(p, "type").value) == Text.ToLower(q.productType.value))
  {
    if Text.Truthy(q.productType) {
      assert Stage(q, 3) == Some(TypeIs(q.productType.value));
    }
  }

  lemma UsageStage(q: ListingRequest, p: JsonProduct)
    ensures StagePasses(q, 4, p) == (Text.Truthy(q.usage) ==>
      AttrOf(p, "usage").Some? && Text.Contains(Text.ToLower(AttrOf(p, "usage").value), Text.ToLower(q.usage.value)))
  {
    if Text.Truthy(q.usage) {
      assert Stage(q, 4) == Some(UsageHas(q.usage.value));
    }
  }

  /** A record is listed exactly when it is in the data file and meets
      every supplied parameter. */
  lemma ListedExact(products: seq<JsonProduct>, q: ListingRequest, p: JsonProduct)
    ensures p in Listed(products, q) <==> p in products && Selected(q, p)
  {
    Seqs.FilterMembership(products, Kept(q, StageCount), p);
    PassesAllMeaning(q, p);
  }

  /** No sorting: the records of an earlier part of the file come before
      those of a later part, as in the file. */
  lemma ListedKeepsFileOrder(a: seq<JsonProduct>, b: seq<JsonProduct>, q: ListingRequest)
    ensures Listed(a + b, q) == Listed(a, q) + Listed(b, q)
  {
    Seqs.FilterConcat(a, b, Kept(q, StageCount));
  }

  /** Without any filter parameter every record is listed, in file order. */
  lemma NoFilterListsAll(products: seq<JsonProduct>, q: ListingRequest)
    requires !Text.Truthy(q.category) && !Text.Truthy(q.subCategory) && !Text.Truthy(q.search)
    requires !Text.Truthy(q.productType) && !Text.Truthy(q.usage) && q.inStock.None?
    ensures Listed(products, q) == products
  {
    forall k | 0 <= k < |products| ensures Kept(q, StageCount)(products[k]) {
      PassesAllMeaning(q, products[k]);
    }
    Seqs.FilterAll(products, Kept(q, StageCount));
  }

  /** `inStock` other than `'true'`, `'false'` included, lists only
      records whose `inStock` is `false`; a record without the field is
      never listed once `inStock` is given. */
  lemma InStockStrings(products: seq<JsonProduct>, q: ListingRequest, p: JsonProduct)
    requires p in Listed(products, q) && q.inStock.Some?
    ensures q.inStock.value == "true" ==> p.inStock == Some(true)
    ensures q.inStock.value != "true" ==> p.inStock == Some(false)
  {
    ListedExact(products, q, p);
  }

  /** One `if (…) { products = products.filter(…) }` block. */
  method FilterStep(q: ListingRequest, k: nat, ghost all: seq<JsonProduct>, products: seq<JsonProduct>)
    returns (products': seq<JsonProduct>)
    requires products == Seqs.Filter(all, Kept(q, k))
    ensures products' == Seqs.Filter(all, Kept(q, k + 1))
  {
    match Stage(q, k)
    case Some(t) =>
      products' := Seqs.Filter(products, Testing(t));
      forall p ensures Kept(q, k + 1)(p) == (Kept(q, k)(p) && Testing(t)(p)) {
        assert PassesUpTo(q, k + 1, p) == (PassesUpTo(q, k, p) && Passes(p, t));
      }
      Seqs.FilterFusion(all, Kept(q, k), Testing(t), Kept(q, k + 1));
    case None =>
      products' := products;
      forall i | 0 <= i < |all| ensures Kept(q, k)(all[i]) == Kept(q, k + 1)(all[i]) {
        assert PassesUpTo(q, k + 1, all[i]) == PassesUpTo(q, k, all[i]);
      }
      Seqs.FilterCongruent(all, Kept(q, k), Kept(q, k + 1));
  }

  /** `parseInt(page) || 1` and `parseInt(limit) || 10`. */
  function PageNumber(q: ListingRequest): (page: nat)
    ensures page >= 1
    ensures q.page.Some? && q.page.value > 0 ==> page == q.page.value
  {
    if q.page.None? || q.page.value == 0 then 1 else q.page.value
  }

  function LimitNumber(q: ListingRequest): (limit: nat)
    ensures limit >= 1
    ensures q.limit.Some? && q.limit.value > 0 ==> limit == q.limit.value
  {
    if q.limit.None? || q.limit.value == 0 then 10 else q.limit.value
  }

  /** `(pageNumber - 1) * limitNumber`. */
  function StartIndex(q: ListingRequest): nat {
    var previous: nat := PageNumber(q) - 1;
    previous * LimitNumber(q)
  }

  /** The JSON the listing answers with. */
  datatype Listing = Listing(products: seq<JsonProduct>, pagination: Pagination)

  /** `GET /api/products`, over `productData.products`. */
  method GetProducts(products: seq<JsonProduct>, q: ListingRequest) returns (body: Listing)
    ensures body.products == Seqs.Slice(Listed(products, q), StartIndex(q), StartIndex(q) + LimitNumber(q))
    ensures var total := |Listed(products, q)|;
      body.pagination == Pagination(PageNumber(q), Seqs.CeilDiv(total, LimitNumber(q)), total, LimitNumber(q),
        StartIndex(q) + LimitNumber(q) < total, PageNumber(q) > 1)
  {
    var filtered := products;
    Seqs.FilterAll(products, Kept(q, 0));
    filtered := FilterStep(q, 0, products, filtered);
    filtered := FilterStep(q, 1, products, filtered);
    filtered := FilterStep(q, 2, products, filtered);
    filtered := FilterStep(q, 3, products, filtered);
    filtered := FilterStep(q, 4, products, filtered);
    filtered := FilterStep(q, 5, products, filtered);

    var totalProducts := |filtered|;
    var pageNumber := PageNumber(q);
    var limitNumber := LimitNumber(q);
    var startIndex := StartIndex(q);
    var endIndex := startIndex + limitNumber;
    var paginatedProducts := Seqs.Slice(filtered, startIndex, endIndex);
    body := Listing(paginatedProducts,
      Pagination(pageNumber, Seqs.CeilDiv(totalProducts, limitNumber), totalProducts, limitNumber,
                 endIndex < totalProducts, pageNumber > 1));
  }

  /** A page holds at most `limit` records, and `hasNextPage` says exactly
      that the page is not the last of `totalPages`. */
  lemma ListingPageShape(products: seq<JsonProduct>, q: ListingRequest)
    ensures |Seqs.Slice(Listed(products, q), StartIndex(q), StartIndex(q) + LimitNumber(q))| <= LimitNumber(q)
    ensures StartIndex(q) + LimitNumber(q) < |Listed(products, q)|
        <==> PageNumber(q) < Seqs.CeilDiv(|Listed(products, q)|, LimitNumber(q))
  {
    var previous: nat := PageNumber(q) - 1;
    assert StartIndex(q) + LimitNumber(q) == PageNumber(q) * LimitNumber(q);
    Seqs.CeilDivAbove(|Listed(products, q)|, LimitNumber(q), PageNumber(q));
  }

  // ---------------------------------------------------------------------
  // The filter dropdown values
  // ---------------------------------------------------------------------

  /** `products.filter(p => p.attributes && p.attributes[key]).map(p => p.attributes[key])`. */
  function AttrValues(products: seq<JsonProduct>, key: string): seq<string> {
    if products == [] then []
    else (if AttrOf(products[0], key).Some? then [AttrOf(products[0], key).value] else []) + AttrValues(products[1..], key)
  }

  /** `GET /api/filters/types` and `GET /api/filters/usages`. */
  function Types(products: seq<JsonProduct>): seq<string> {
    Seqs.Dedup(AttrValues(products, "type"))
  }

  function Usages(products: seq<JsonProduct>): seq<string> {
    Seqs.Dedup(AttrValues(products, "usage"))
  }

  /** A value is collected exactly when some record carries it, non-empty,
      under the key. */
  lemma {:induction false} AttrValuesExact(products: seq<JsonProduct>, key: string, v: string)
    ensures v in AttrValues(products, key) <==> exists p :: p in products && AttrOf(p, key) == Some(v)
  {
    if products != [] {
      AttrValuesExact(products[1..], key, v);
      assert products == [products[0]] + products[1..];
      if exists p :: p in products[1..] && AttrOf(p, key) == Some(v) {
        var p :| p in products[1..] && AttrOf(p, key) == Some(v);
        assert p in products;
      }
    }
  }

  /** The dropdowns list each non-empty value once, and nothing else; the
      order of first occurrence is `Seqs.DedupFirstOccurrenceOrder`. */
  lemma DropdownValuesExact(products: seq<JsonProduct>, v: string)
    ensures v in Types(products) <==> exists p :: p in products && AttrOf(p, "type") == Some(v)
    ensures v in Usages(products) <==> exists p :: p in products && AttrOf(p, "usage") == Some(v)
    ensures Seqs.NoDuplicates(Types(products)) && Seqs.NoDuplicates(Usages(products))
    ensures v in Types(products) ==> v != ""
  {
    AttrValuesExact(products, "type", v);
    AttrValuesExact(products, "usage", v);
    var ts := AttrValues(products, "type");
    var us := AttrValues(products, "usage");
    if v in Types(products) {
      var i :| 0 <= i < |Types(products)| && Types(products)[i] == v;
    }
    if v in ts {
      var i :| 0 <= i < |ts| && ts[i] == v;
      assert ts[i] in Types(products);
    }
    if v in Usages(products) {
      var i :| 0 <= i < |Usages(products)| && Usages(products)[i] == v;
    }
    if v in us {
      var i :| 0 <= i < |us| && us[i] == v;
      assert us[i] in Usages(products);
    }
  }
}

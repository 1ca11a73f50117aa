/** The frontend's fixture mode, `frontend/src/data/staticData.js`:
    `filterProducts` narrows a copy of the product array by one `filter`
    per supplied filter and then sorts it in place; `paginateProducts`
    cuts a page from a list. */
module StaticData {
  import opened Wrappers
  import Text
  import Seqs
  import opened Catalog
  import ProductFilters

  /** The `filters` object of `filterProducts`. A price bound is present
      when it is neither `undefined`, `null` nor `''`; it is the number
      `parseFloat` reads. */
  datatype FixtureFilters = FixtureFilters(
    category: Option<string>,
    subCategory: Option<string>,
    productType: Option<string>,
    usage: Option<string>,
    minPrice: Option<int>,
    maxPrice: Option<int>,
    search: Option<string>,
    sortBy: Option<string>)

  /** The test of one `filtered.filter(…)`. */
  datatype Test =
    | CategoryIs(category: string)
    | SubCategoryIs(subCategory: string)
    | TypeIs(productType: string)
    | UsageIs(usage: string)
    | PriceAtLeast(min: int)
    | PriceAtMost(max: int)
    | Mentions(term: string)

  /** `type` and `usage` compare exactly, case included. */
  predicate Passes(p: CatalogProduct, t: Test) {
    match t
    case CategoryIs(c) => p.category == c
    case SubCategoryIs(s) => p.subCategory == s
    case TypeIs(ty) => TextAttr(p.attributes, "type") == Some(ty)
    case UsageIs(u) => TextAttr(p.attributes, "usage") == Some(u)
    case PriceAtLeast(m) => p.price >= m
    case PriceAtMost(m) => p.price <= m
    case Mentions(term) =>
      Text.Contains(Text.ToLower(p.name), Text.ToLower(term))
      || Text.Contains(Text.ToLower(p.description), Text.ToLower(term))
  }

  function Testing(t: Test): CatalogProduct -> bool {
    (p: CatalogProduct) => Passes(p, t)
  }

  /** The k-th `if` block of `filterProducts`, in source order. */
  function Stage(f: FixtureFilters, k: nat): Option<Test> {
    if k == 0 then (if Text.Truthy(f.category) then Some(CategoryIs(f.category.value)) else None)
    else if k == 1 then (if Text.Truthy(f.subCategory) then Some(SubCategoryIs(f.subCategory.value)) else None)
    else if k == 2 then (if Text.Truthy(f.productType) then Some(TypeIs(f.productType.value)) else None)
    else if k == 3 then (if Text.Truthy(f.usage) then Some(UsageIs(f.usage.value)) else None)
    else if k == 4 then (if f.minPrice.Some? then Some(PriceAtLeast(f.minPrice.value)) else None)
    else if k == 5 then (if f.maxPrice.Some? then Some(PriceAtMost(f.maxPrice.value)) else None)
    else if k == 6 then (if Text.Truthy(f.search) then Some(Mentions(f.search.value)) else None)
    else None
  }

  const StageCount: nat := 7

  predicate StagePasses(f: FixtureFilters, k: nat, p: CatalogProduct) {
    Stage(f, k).None? || Passes(p, Stage(f, k).value)
  }

  /** The product survives the first `n` blocks. */
  predicate PassesUpTo(f: FixtureFilters, n: nat, p: CatalogProduct) {
    n == 0 || (PassesUpTo(f, n - 1, p) && StagePasses(f, n - 1, p))
  }

  function Kept(f: FixtureFilters, n: nat): CatalogProduct -> bool {
    (p: CatalogProduct) => PassesUpTo(f, n, p)
  }

  /** The products left after the seven blocks, in input order. */
  function Matching(products: seq<CatalogProduct>, f: FixtureFilters): seq<CatalogProduct> {
    Seqs.Filter(products, Kept(f, StageCount))
  }

  /** The order a truthy `sortBy` picks: `'name'`, `'price_asc'` or
      `'price_desc'`; any other value leaves the order alone. */
  function SortKey(sortBy: Option<string>): Option<SortOrder> {
    if sortBy == Some("name") then Some(ByName)
    else if sortBy == Some("price_asc") then Some(PriceAscending)
    else if sortBy == Some("price_desc") then Some(PriceDescending)
    else None
  }

  /** What `filterProducts` returns. */
  function Filtered(products: seq<CatalogProduct>, f: FixtureFilters): seq<CatalogProduct> {
    var kept := Matching(products, f);
    match SortKey(f.sortBy)
    case Some(order) => Seqs.Sort(kept, Comparator(order))
    case None => kept
  }

  /** What the filters ask of a product, filter by filter. */
  predicate Selected(f: FixtureFilters, p: CatalogProduct) {
    && (Text.Truthy(f.category) ==> p.category == f.category.value)
    && (Text.Truthy(f.subCategory) ==> p.subCategory == f.subCategory.value)
    && (Text.Truthy(f.productType) ==> TextAttr(p.attributes, "type") == f.productType)
    && (Text.Truthy(f.usage) ==> TextAttr(p.attributes, "usage") == f.usage)
    && (f.minPrice.Some? ==> p.price >= f.minPrice.value)
    && (f.maxPrice.Some? ==> p.price <= f.maxPrice.value)
    && (Text.Truthy(f.search) ==>
          Text.Contains(Text.ToLower(p.name), Text.ToLower(f.search.value))
          || Text.Contains(Text.ToLower(p.description), Text.ToLower(f.search.value)))
  }

  lemma SearchStage(f: FixtureFilters, p: CatalogProduct)
    ensures StagePasses(f, 6, p) == (Text.Truthy(f.search) ==>
      Text.Contains(Text.ToLower(p.name), Text.ToLower(f.search.value))
      || Text.Contains(Text.ToLower(p.description), Text.ToLower(f.search.value)))
  {
    if Text.Truthy(f.search) {
      assert Stage(f, 6) == Some(Mentions(f.search.value));
    }
  }

  /** Surviving all seven blocks is meeting every supplied filter. */
  lemma PassesAllMeaning(f: FixtureFilters, p: CatalogProduct)
    ensures PassesUpTo(f, StageCount, p) <==> Selected(f, p)
  {
    assert PassesUpTo(f, 7, p) == (PassesUpTo(f, 6, p) && StagePasses(f, 6, p));
    assert PassesUpTo(f, 6, p) == (PassesUpTo(f, 5, p) && StagePasses(f, 5, p));
    assert PassesUpTo(f, 5, p) == (PassesUpTo(f, 4, p) && StagePasses(f, 4, p));
    assert PassesUpTo(f, 4, p) == (PassesUpTo(f, 3, p) && StagePasses(f, 3, p));
    assert PassesUpTo(f, 3, p) == (PassesUpTo(f, 2, p) && StagePasses(f, 2, p));
    assert PassesUpTo(f, 2, p) == (PassesUpTo(f, 1, p) && StagePasses(f, 1, p));
    assert PassesUpTo(f, 1, p) == StagePasses(f, 0, p);
    SearchStage(f, p);
  }

  /** A product is kept exactly when it is in the input and meets every
      supplied filter. */
  lemma MatchingExact(products: seq<CatalogProduct>, f: FixtureFilters, p: CatalogProduct)
    ensures p in Matching(products, f) <==> p in products && Selected(f, p)
  {
    Seqs.FilterMembership(products, Kept(f, StageCount), p);
    PassesAllMeaning(f, p);
  }

  /** The result draws only on the input: it is a sub-multiset of it, and a
      product is in it exactly when it is in the input and meets every
      supplied filter. */
  lemma FilteredExact(products: seq<CatalogProduct>, f: FixtureFilters, p: CatalogProduct)
    ensures multiset(Filtered(products, f)) <= multiset(products)
    ensures p in Filtered(products, f) <==> p in products && Selected(f, p)
  {
    var kept := Matching(products, f);
    Seqs.FilterSubMultiset(products, Kept(f, StageCount));
    MatchingExact(products, f, p);
    if SortKey(f.sortBy).Some? {
      SortByOrder(SortKey(f.sortBy).value, kept);
      assert p in Filtered(products, f) <==> p in multiset(kept);
    }
  }

  /** `'price_asc'` gives non-decreasing prices, `'price_desc'`
      non-increasing ones and `'name'` name order; with no `sortBy`, or
      any other one, the order of the input is kept. */
  lemma FilteredOrder(products: seq<CatalogProduct>, more: seq<CatalogProduct>, f: FixtureFilters)
    ensures f.sortBy == Some("price_asc") ==> InOrder(PriceAscending, Filtered(products, f))
    ensures f.sortBy == Some("price_desc") ==> InOrder(PriceDescending, Filtered(products, f))
    ensures f.sortBy == Some("name") ==> InOrder(ByName, Filtered(products, f))
    ensures SortKey(f.sortBy).None? ==>
      Filtered(products + more, f) == Filtered(products, f) + Filtered(more, f)
  {
    if SortKey(f.sortBy).Some? {
      SortByOrder(SortKey(f.sortBy).value, Matching(products, f));
    } else {
      Seqs.FilterConcat(products, more, Kept(f, StageCount));
    }
    assert "price_asc" != "name" && "price_desc" != "name" && "price_asc" != "price_desc" by {
      assert "price_asc"[1] != "name"[1] && "price_desc"[1] != "name"[1] && "price_asc"[6] != "price_desc"[6];
    }
  }

  /** The backend's filter of its static products selects the same
      products from the same filters: the two variants differ only in how
      they sort and paginate. */
  lemma SelectionAgreesWithBackendStatics(f: FixtureFilters, p: CatalogProduct)
    ensures Selected(f, p) <==> ProductFilters.MeetsEachFilter(
      ProductFilters.Filters(f.category, f.subCategory, f.productType, f.usage, f.search,
                             f.minPrice, f.maxPrice, None, None, f.sortBy), p)
  {
  }

  /** One `if (filters.…) { filtered = filtered.filter(…) }` block. */
  method FilterStep(f: FixtureFilters, k: nat, ghost all: seq<CatalogProduct>, filtered: seq<CatalogProduct>)
    returns (filtered': seq<CatalogProduct>)
    requires filtered == Seqs.Filter(all, Kept(f, k))
    ensures filtered' == Seqs.Filter(all, Kept(f, k + 1))
  {
    match Stage(f, k)
    case Some(t) =>
      filtered' := Seqs.Filter(filtered, Testing(t));
      forall p ensures Kept(f, k + 1)(p) == (Kept(f, k)(p) && Testing(t)(p)) {
        assert PassesUpTo(f, k + 1, p) == (PassesUpTo(f, k, p) && Passes(p, t));
      }
      Seqs.FilterFusion(all, Kept(f, k), Testing(t), Kept(f, k + 1));
    case None =>
      filtered' := filtered;
      forall i | 0 <= i < |all| ensures Kept(f, k)(all[i]) == Kept(f, k + 1)(all[i]) {
        assert PassesUpTo(f, k + 1, all[i]) == PassesUpTo(f, k, all[i]);
      }
      Seqs.FilterCongruent(all, Kept(f, k), Kept(f, k + 1));
  }

  /** `filterProducts(products, filters)`. It reads `products` and, having
      no `modifies` clause, leaves that array as it was. */
  method FilterProducts(products: array<CatalogProduct>, f: FixtureFilters) returns (result: seq<CatalogProduct>)
    ensures result == Filtered(products[..], f)
  {
    var filtered := products[..];
    Seqs.FilterAll(filtered, Kept(f, 0));
    filtered := FilterStep(f, 0, products[..], filtered);
    filtered := FilterStep(f, 1, products[..], filtered);
    filtered := FilterStep(f, 2, products[..], filtered);
    filtered := FilterStep(f, 3, products[..], filtered);
    filtered := FilterStep(f, 4, products[..], filtered);
    filtered := FilterStep(f, 5, products[..], filtered);
    filtered := FilterStep(f, 6, products[..], filtered);
    result := SortBy(filtered, f.sortBy);
  }

  /** `if (filters.sortBy) { … filtered.sort(…) … }`. */
  method SortBy(filtered: seq<CatalogProduct>, sortBy: Option<string>) returns (result: seq<CatalogProduct>)
    ensures SortKey(sortBy).Some? ==> result == Seqs.Sort(filtered, Comparator(SortKey(sortBy).value))
    ensures SortKey(sortBy).None? ==> result == filtered
  {
    match SortKey(sortBy)
    case Some(order) =>
      var a := new CatalogProduct[|filtered|](i requires 0 <= i < |filtered| => filtered[i]);
      assert a[..] == filtered;
      Seqs.SortInPlace(a, Comparator(order));
      result := a[..];
    case None =>
      result := filtered;
  }

  // ---------------------------------------------------------------------
  // paginateProducts
  // ---------------------------------------------------------------------

  datatype FixturePagination = FixturePagination(currentPage: nat, totalPages: nat, totalProducts: nat, limit: nat)

  datatype FixturePage = FixturePage(products: seq<CatalogProduct>, pagination: FixturePagination)

  /** `paginateProducts(products, page = 1, limit = 6)`: the defaults apply
      only to a missing argument. */
  function PaginateProducts(products: seq<CatalogProduct>, page: Option<nat>, limit: Option<nat>): FixturePage
    requires page.Some? ==> page.value >= 1
    requires limit.Some? ==> limit.value >= 1
  {
    var l := limit.GetOr(6);
    var startIndex := StartIndex(page, limit);
    FixturePage(Seqs.Slice(products, startIndex, startIndex + l),
      FixturePagination(page.GetOr(1), Seqs.CeilDiv(|products|, l), |products|, l))
  }

  /** `(page - 1) * limit`. */
  function StartIndex(page: Option<nat>, limit: Option<nat>): nat
    requires page.Some? ==> page.value >= 1
  {
    var previous: nat := page.GetOr(1) - 1;
    previous * limit.GetOr(6)
  }

  /** The page is the `limit` products from `(page - 1) * limit` on, at
      most `limit` of them; the metadata counts the whole list; a page past
      `totalPages` is empty while `totalProducts` stays the length. */
  lemma PaginateMeaning(products: seq<CatalogProduct>, page: Option<nat>, limit: Option<nat>)
    requires page.Some? ==> page.value >= 1
    requires limit.Some? ==> limit.value >= 1
    ensures var r := PaginateProducts(products, page, limit);
      var p := if page.Some? then page.value else 1;
      var l := if limit.Some? then limit.value else 6;
      && r.pagination.currentPage == p && r.pagination.limit == l
      && r.pagination.totalProducts == |products|
      && r.pagination.totalPages == Seqs.CeilDiv(|products|, l)
      && |r.products| <= l
      && (forall k :: 0 <= k < |r.products| ==> r.products[k] == products[StartIndex(page, limit) + k])
      && (p > r.pagination.totalPages ==> r.products == [])
      && (p <= r.pagination.totalPages ==> |r.products| > 0)
  {
    var previous: nat := page.GetOr(1) - 1;
    Seqs.CeilDivAbove(|products|, limit.GetOr(6), previous);
  }
}

/** `publicController`: each handler maps what a service returned, or the
    error it threw, to a JSON reply. */
module PublicController {
  import opened Wrappers
  import opened Catalog
  import opened Http
  import ProductFilters
  import ProductResults
  import Store

  /** `res.json({ success: true, data })`, or `next(error)`. */
  function Read<T>(r: Result<T>): Reply<Envelope<T>> {
    match r
    case Ok(v) => Success(OkStatus, None, Some(v))
    case Err(m) => Next(m)
  }

  /** A read by id: `null` becomes 404 with `missing` as the message. */
  function Lookup<T>(r: Result<Option<T>>, missing: string): Reply<Envelope<T>> {
    match r
    case Ok(None) => Failure(NotFoundStatus, missing)
    case Ok(Some(v)) => Success(OkStatus, None, Some(v))
    case Err(m) => Next(m)
  }

  /** Lists are wrapped as `{ success: true, data }`; a thrown error goes to
      `next` as it is. */
  lemma ReadMeaning<T>(r: Result<T>)
    ensures r.Ok? ==> Read(r) == Json(200, Envelope(true, None, Some(r.value)))
    ensures r.Err? ==> Read(r) == Next(r.message)
  {
  }

  /** A missing record is a 404 carrying the entity's message, and nothing
      else is; a found one is wrapped as `{ success: true, data }`. */
  lemma LookupMeaning<T>(r: Result<Option<T>>, missing: string)
    ensures (Lookup(r, missing).Json? && Lookup(r, missing).status == 404) <==> r == Ok(None)
    ensures r == Ok(None) ==> Lookup(r, missing).body == Envelope(false, Some(missing), None)
    ensures r.Ok? && r.value.Some? ==> Lookup(r, missing) == Json(200, Envelope(true, None, r.value))
    ensures r.Err? ==> Lookup(r, missing) == Next(r.message)
  {
  }

  function GetCategories<T>(r: Result<seq<T>>): Reply<Envelope<seq<T>>> {
    Read(r)
  }

  function GetCategoryById<T>(r: Result<Option<T>>): Reply<Envelope<T>> {
    Lookup(r, "Category not found")
  }

  function GetSubcategories<T>(r: Result<seq<T>>): Reply<Envelope<seq<T>>> {
    Read(r)
  }

  function GetSubcategoryById<T>(r: Result<Option<T>>): Reply<Envelope<T>> {
    Lookup(r, "Subcategory not found")
  }

  function GetProductById(r: Result<Option<CatalogProduct>>): Reply<Envelope<CatalogProduct>> {
    Lookup(r, "Product not found")
  }

  function GetProductTypes(r: Result<seq<string>>): Reply<Envelope<seq<string>>> {
    Read(r)
  }

  function GetProductUsages(r: Result<seq<string>>): Reply<Envelope<seq<string>>> {
    Read(r)
  }

  /** `req.query` of `GET /products`; `page` and `limit` already parsed. */
  datatype ListingQuery = ListingQuery(
    category: Option<string>,
    subCategory: Option<string>,
    productType: Option<string>,
    usage: Option<string>,
    search: Option<string>,
    page: Option<nat>,
    limit: Option<nat>,
    sortBy: Option<string>,
    minPrice: Option<int>,
    maxPrice: Option<int>,
    inStock: Option<string>)

  /** The `filters` object `getProducts` hands to the service. */
  function FiltersOf(q: ListingQuery): (f: ProductFilters.Filters)
    ensures f.category == q.category && f.subCategory == q.subCategory && f.productType == q.productType
    ensures f.usage == q.usage && f.search == q.search && f.page == q.page && f.limit == q.limit
    ensures f.sortBy.None? && f.minPrice.None? && f.maxPrice.None?
  {
    ProductFilters.Filters(q.category, q.subCategory, q.productType, q.usage, q.search,
      None, None, q.page, q.limit, None)
  }

  /** Only seven query parameters reach the service: two queries that agree
      on them list the same products, whatever their `sortBy`, price bounds
      or `inStock`. */
  lemma ForwardsSevenParameters(q: ListingQuery, q': ListingQuery)
    requires q.category == q'.category && q.subCategory == q'.subCategory
    requires q.productType == q'.productType && q.usage == q'.usage && q.search == q'.search
    requires q.page == q'.page && q.limit == q'.limit
    ensures FiltersOf(q) == FiltersOf(q')
  {
  }

  /** Over HTTP the listing always takes the default name order, and no
      price bound applies: a product's price never decides whether it is
      listed. */
  lemma HttpListingByNameWithoutPriceBounds(rows: seq<Store.ProductRow>, statics: seq<CatalogProduct>,
                                            q: ListingQuery, p: CatalogProduct, price: int)
    ensures InOrder(ByName, ProductFilters.Combined(rows, statics, FiltersOf(q)))
    ensures ProductFilters.MeetsEachFilter(FiltersOf(q), p) == ProductFilters.MeetsEachFilter(FiltersOf(q), p.(price := price))
  {
    ProductResults.CombinedInOrder(rows, statics, FiltersOf(q));
  }

  /** `{ success: true, ...result }`. */
  datatype ProductsBody = ProductsBody(success: bool, products: seq<CatalogProduct>, pagination: Pagination)

  function GetProducts(r: Result<ProductPage>): (reply: Reply<ProductsBody>)
    ensures r.Ok? ==> (reply.Json? && reply.status == 200 && reply.body.success
      && reply.body.products == r.value.products && reply.body.pagination == r.value.pagination)
    ensures r.Err? ==> reply == Next(r.message)
  {
    match r
    case Ok(page) => Json(OkStatus, ProductsBody(true, page.products, page.pagination))
    case Err(m) => Next(m)
  }
}

/** What `ProductService.getAll` computes: the criteria its filters stand
    for, the WHERE clause and placeholder parameters built from them, what
    the database makes of that clause, and the sorted, combined list of
    database and static products a page is cut from. */
module ProductFilters {
  import opened Wrappers
  import Text
  import Seqs
  import opened Catalog
  import opened Store

  /** The `filters` object. Text filters apply when truthy; a price bound
      applies when it is neither `undefined`, `null` nor `''`, so a bound
      of 0 applies. `page` and `limit` are the results of `parseInt`. */
  datatype Filters = Filters(
    category: Option<string>,
    subCategory: Option<string>,
    productType: Option<string>,
    usage: Option<string>,
    search: Option<string>,
    minPrice: Option<int>,
    maxPrice: Option<int>,
    page: Option<nat>,
    limit: Option<nat>,
    sortBy: Option<string>)

  /** One supplied filter. */
  datatype Criterion =
    | CategoryIs(category: string)
    | SubCategoryIs(subCategory: string)
    | TypeIs(productType: string)
    | UsageIs(usage: string)
    | Mentions(term: string)
    | PriceAtLeast(min: int)
    | PriceAtMost(max: int)

  /** What the k-th filter, in the order both the WHERE builder and the
      static filter chain test them, contributes: its criterion when it is
      supplied, nothing otherwise. */
  function Stage(f: Filters, k: nat): (st: seq<Criterion>)
    ensures |st| <= 1
  {
    if k == 0 then (if Text.Truthy(f.category) then [CategoryIs(f.category.value)] else [])
    else if k == 1 then (if Text.Truthy(f.subCategory) then [SubCategoryIs(f.subCategory.value)] else [])
    else if k == 2 then (if Text.Truthy(f.productType) then [TypeIs(f.productType.value)] else [])
    else if k == 3 then (if Text.Truthy(f.usage) then [UsageIs(f.usage.value)] else [])
    else if k == 4 then (if Text.Truthy(f.search) then [Mentions(f.search.value)] else [])
    else if k == 5 then (if f.minPrice.Some? then [PriceAtLeast(f.minPrice.value)] else [])
    else if k == 6 then (if f.maxPrice.Some? then [PriceAtMost(f.maxPrice.value)] else [])
    else []
  }

  /** The criteria of the first `n` filters. */
  function CriteriaUpTo(f: Filters, n: nat): seq<Criterion> {
    if n == 0 then [] else CriteriaUpTo(f, n - 1) + Stage(f, n - 1)
  }

  /** The number of filters that yield criteria. */
  const StageCount: nat := 7

  /** The supplied filters, in order. */
  function Criteria(f: Filters): seq<Criterion> {
    CriteriaUpTo(f, StageCount)
  }

  /** What each filter demands of a product: exact category, subcategory,
      `attributes.type` and `attributes.usage`; the lower-cased term inside
      the lower-cased name or description; inclusive price bounds. */
  predicate Meets(p: CatalogProduct, c: Criterion) {
    match c
    case CategoryIs(v) => p.category == v
    case SubCategoryIs(v) => p.subCategory == v
    case TypeIs(v) => TextAttr(p.attributes, "type") == Some(v)
    case UsageIs(v) => TextAttr(p.attributes, "usage") == Some(v)
    case Mentions(t) => MentionsTerm(p, t)
    case PriceAtLeast(m) => p.price >= m
    case PriceAtMost(m) => p.price <= m
  }

  /** The lower-cased term occurs in the lower-cased name or description. */
  predicate MentionsTerm(p: CatalogProduct, term: string) {
    Text.Contains(Text.ToLower(p.name), Text.ToLower(term))
    || Text.Contains(Text.ToLower(p.description), Text.ToLower(term))
  }

  predicate MeetsAll(p: CatalogProduct, cs: seq<Criterion>) {
    forall i :: 0 <= i < |cs| ==> Meets(p, cs[i])
  }

  function MeetingAll(cs: seq<Criterion>): CatalogProduct -> bool {
    (p: CatalogProduct) => MeetsAll(p, cs)
  }

  /** A product matches the filters when it meets every supplied one. */
  predicate Matches(f: Filters, p: CatalogProduct) {
    MeetsAll(p, Criteria(f))
  }

  lemma MeetsAllConcat(p: CatalogProduct, a: seq<Criterion>, b: seq<Criterion>)
    ensures MeetsAll(p, a + b) <==> MeetsAll(p, a) && MeetsAll(p, b)
  {
    if MeetsAll(p, a + b) {
      forall i | 0 <= i < |a| ensures Meets(p, a[i]) {
        assert (a + b)[i] == a[i];
      }
      forall i | 0 <= i < |b| ensures Meets(p, b[i]) {
        assert (a + b)[|a| + i] == b[i];
      }
    }
    if MeetsAll(p, a) && MeetsAll(p, b) {
      forall i | 0 <= i < |a + b| ensures Meets(p, (a + b)[i]) {
        if i < |a| {
          assert (a + b)[i] == a[i];
        } else {
          assert (a + b)[i] == b[i - |a|];
        }
      }
    }
  }

  lemma MeetsAllSingleton(p: CatalogProduct, c: Criterion)
    ensures MeetsAll(p, [c]) <==> Meets(p, c)
  {
    assert [c][0] == c;
  }

  lemma MeetsAllSnoc(p: CatalogProduct, cs: seq<Criterion>, c: Criterion)
    ensures MeetsAll(p, cs + [c]) <==> MeetsAll(p, cs) && Meets(p, c)
  {
    MeetsAllConcat(p, cs, [c]);
    MeetsAllSingleton(p, c);
  }

  /** Meeting the criteria of the first `n` filters is meeting each stage. */
  lemma {:induction false} MeetsAllUpTo(p: CatalogProduct, f: Filters, n: nat)
    ensures MeetsAll(p, CriteriaUpTo(f, n)) <==> forall k :: 0 <= k < n ==> MeetsAll(p, Stage(f, k))
  {
    if n > 0 {
      MeetsAllUpTo(p, f, n - 1);
      MeetsAllConcat(p, CriteriaUpTo(f, n - 1), Stage(f, n - 1));
    }
  }

  /** Matching, filter by filter: the reference reading of the filter
      chain, one conjunct per filter. */
  predicate MeetsEachFilter(f: Filters, p: CatalogProduct) {
    && (Text.Truthy(f.category) ==> p.category == f.category.value)
    && (Text.Truthy(f.subCategory) ==> p.subCategory == f.subCategory.value)
    && (Text.Truthy(f.productType) ==> TextAttr(p.attributes, "type") == f.productType)
    && (Text.Truthy(f.usage) ==> TextAttr(p.attributes, "usage") == f.usage)
    && (Text.Truthy(f.search) ==> MentionsTerm(p, f.search.value))
    && (f.minPrice.Some? ==> p.price >= f.minPrice.value)
    && (f.maxPrice.Some? ==> p.price <= f.maxPrice.value)
  }

  lemma MatchesMeaning(f: Filters, p: CatalogProduct)
    ensures Matches(f, p) <==> MeetsEachFilter(f, p)
  {
    MeetsAllUpTo(p, f, StageCount);
    assert Matches(f, p) <==>
      && MeetsAll(p, Stage(f, 0)) && MeetsAll(p, Stage(f, 1)) && MeetsAll(p, Stage(f, 2))
      && MeetsAll(p, Stage(f, 3)) && MeetsAll(p, Stage(f, 4)) && MeetsAll(p, Stage(f, 5))
      && MeetsAll(p, Stage(f, 6));
    CategoryStage(p, f);
    SubCategoryStage(p, f);
    TypeStage(p, f);
    UsageStage(p, f);
    SearchStage(p, f);
    MinPriceStage(p, f);
    MaxPriceStage(p, f);
  }

  lemma CategoryStage(p: CatalogProduct, f: Filters)
    ensures MeetsAll(p, Stage(f, 0)) <==> (Text.Truthy(f.category) ==> p.category == f.category.value)
  {
    MeetsStage(p, f, 0);
  }

  lemma SubCategoryStage(p: CatalogProduct, f: Filters)
    ensures MeetsAll(p, Stage(f, 1)) <==> (Text.Truthy(f.subCategory) ==> p.subCategory == f.subCategory.value)
  {
    MeetsStage(p, f, 1);
  }

  lemma TypeStage(p: CatalogProduct, f: Filters)
    ensures MeetsAll(p, Stage(f, 2)) <==> (Text.Truthy(f.productType) ==> TextAttr(p.attributes, "type") == f.productType)
  {
    MeetsStage(p, f, 2);
  }

  lemma UsageStage(p: CatalogProduct, f: Filters)
    ensures MeetsAll(p, Stage(f, 3)) <==> (Text.Truthy(f.usage) ==> TextAttr(p.attributes, "usage") == f.usage)
  {
    MeetsStage(p, f, 3);
  }

  lemma SearchStage(p: CatalogProduct, f: Filters)
    ensures MeetsAll(p, Stage(f, 4)) <==> (Text.Truthy(f.search) ==> MentionsTerm(p, f.search.value))
  {
    MeetsStage(p, f, 4);
  }

  lemma MinPriceStage(p: CatalogProduct, f: Filters)
    ensures MeetsAll(p, Stage(f, 5)) <==> (f.minPrice.Some? ==> p.price >= f.minPrice.value)
  {
    MeetsStage(p, f, 5);
  }

  lemma MaxPriceStage(p: CatalogProduct, f: Filters)
    ensures MeetsAll(p, Stage(f, 6)) <==> (f.maxPrice.Some? ==> p.price <= f.maxPrice.value)
  {
    MeetsStage(p, f, 6);
  }

  /** A stage is met when it is empty or its one criterion is met. */
  lemma MeetsStage(p: CatalogProduct, f: Filters, k: nat)
    ensures MeetsAll(p, Stage(f, k)) <==> Stage(f, k) == [] || Meets(p, Stage(f, k)[0])
  {
    if Stage(f, k) != [] {
      assert Stage(f, k) == [Stage(f, k)[0]];
      MeetsAllSingleton(p, Stage(f, k)[0]);
    }
  }

  /** The criteria of the first `n` filters are empty exactly when no stage
      contributes one. */
  lemma {:induction false} CriteriaUpToEmpty(f: Filters, n: nat)
    ensures CriteriaUpTo(f, n) == [] <==> forall k :: 0 <= k < n ==> Stage(f, k) == []
  {
    if n > 0 {
      CriteriaUpToEmpty(f, n - 1);
      assert |CriteriaUpTo(f, n)| == |CriteriaUpTo(f, n - 1)| + |Stage(f, n - 1)|;
    }
  }

  /** With no filter supplied there is no criterion, and so every product matches. */
  lemma NoFiltersNoCriteria(f: Filters)
    ensures Criteria(f) == [] <==>
      !Text.Truthy(f.category) && !Text.Truthy(f.subCategory) && !Text.Truthy(f.productType)
      && !Text.Truthy(f.usage) && !Text.Truthy(f.search) && f.minPrice.None? && f.maxPrice.None?
  {
    CriteriaUpToEmpty(f, StageCount);
    assert Stage(f, 0) == [] <==> !Text.Truthy(f.category);
    assert Stage(f, 1) == [] <==> !Text.Truthy(f.subCategory);
    assert Stage(f, 2) == [] <==> !Text.Truthy(f.productType);
    assert Stage(f, 3) == [] <==> !Text.Truthy(f.usage);
    assert Stage(f, 4) == [] <==> !Text.Truthy(f.search);
    assert Stage(f, 5) == [] <==> f.minPrice.None?;
    assert Stage(f, 6) == [] <==> f.maxPrice.None?;
  }

  // ---------------------------------------------------------------------
  // The WHERE clause and its parameters

  datatype Column = CategoryColumn | SubCategoryColumn | TypeAttribute | UsageAttribute

  /** One element of `whereConditions`; the numbers are placeholder slots
      (`$1` is slot 1). */
  datatype Condition =
    | ColumnEquals(column: Column, slot: nat)
    | NameOrDescriptionLike(nameSlot: nat, descriptionSlot: nat)
    | PriceFrom(slot: nat)
    | PriceUpTo(slot: nat)

  /** One element of `queryParams`. */
  datatype Param = TextParam(text: string) | NumberParam(number: int)

  function ColumnSql(col: Column): string {
    match col
    case CategoryColumn => "category"
    case SubCategoryColumn => "sub_category"
    case TypeAttribute => "attributes->>'type'"
    case UsageAttribute => "attributes->>'usage'"
  }

  function Placeholder(k: nat): string {
    "$" + Text.NatToString(k)
  }

  /** The SQL text pushed onto `whereConditions`. */
  function Sql(c: Condition): string {
    match c
    case ColumnEquals(col, k) => ColumnSql(col) + " = " + Placeholder(k)
    case NameOrDescriptionLike(k1, k2) =>
      "(LOWER(name) LIKE " + Placeholder(k1) + " OR LOWER(description) LIKE " + Placeholder(k2) + ")"
    case PriceFrom(k) => "price >= " + Placeholder(k)
    case PriceUpTo(k) => "price <= " + Placeholder(k)
  }

  /** The `whereClause` string. */
  function WhereClause(conditions: seq<Condition>): string {
    if |conditions| > 0
    then "WHERE " + Text.Join(seq(|conditions|, i requires 0 <= i < |conditions| => Sql(conditions[i])), " AND ")
    else ""
  }

  /** Placeholders a criterion takes: two for the search, one otherwise. */
  function Arity(c: Criterion): nat {
    if c.Mentions? then 2 else 1
  }

  function ConditionFor(c: Criterion, slot: nat): Condition {
    match c
    case CategoryIs(_) => ColumnEquals(CategoryColumn, slot)
    case SubCategoryIs(_) => ColumnEquals(SubCategoryColumn, slot)
    case TypeIs(_) => ColumnEquals(TypeAttribute, slot)
    case UsageIs(_) => ColumnEquals(UsageAttribute, slot)
    case Mentions(_) => NameOrDescriptionLike(slot, slot + 1)
    case PriceAtLeast(_) => PriceFrom(slot)
    case PriceAtMost(_) => PriceUpTo(slot)
  }

  /** The `%term%` pattern of a search, lower-cased once. */
  function SearchPattern(term: string): string {
    "%" + Text.ToLower(term) + "%"
  }

  function ParamsFor(c: Criterion): (ps: seq<Param>)
    ensures |ps| == Arity(c)
  {
    match c
    case CategoryIs(v) => [TextParam(v)]
    case SubCategoryIs(v) => [TextParam(v)]
    case TypeIs(v) => [TextParam(v)]
    case UsageIs(v) => [TextParam(v)]
    case Mentions(t) => [TextParam(SearchPattern(t)), TextParam(SearchPattern(t))]
    case PriceAtLeast(m) => [NumberParam(m)]
    case PriceAtMost(m) => [NumberParam(m)]
  }

  datatype Where = Where(conditions: seq<Condition>, params: seq<Param>)

  /** Appending one criterion: its condition takes the slots just after
      the parameters already pushed. */
  function Extend(w: Where, c: Criterion): Where {
    Where(w.conditions + [ConditionFor(c, |w.params| + 1)], w.params + ParamsFor(c))
  }

  /** The conditions and parameters for a list of criteria, appended in order. */
  function Layout(cs: seq<Criterion>): (w: Where)
    ensures |w.conditions| == |cs|
  {
    if cs == [] then Where([], []) else Extend(Layout(cs[..|cs| - 1]), cs[|cs| - 1])
  }

  lemma LayoutSnoc(cs: seq<Criterion>, c: Criterion)
    ensures Layout(cs + [c]) == Extend(Layout(cs), c)
  {
    assert (cs + [c])[..|cs|] == cs;
  }

  /** A supplied filter appends its condition to the layout of the filters before it. */
  lemma LayoutAdd(f: Filters, k: nat, c: Criterion)
    requires Stage(f, k) == [c]
    ensures Layout(CriteriaUpTo(f, k + 1)) == Extend(Layout(CriteriaUpTo(f, k)), c)
  {
    assert CriteriaUpTo(f, k + 1) == CriteriaUpTo(f, k) + [c];
    LayoutSnoc(CriteriaUpTo(f, k), c);
  }

  /** A filter that is not supplied leaves the layout as it was. */
  lemma LayoutSkip(f: Filters, k: nat)
    requires Stage(f, k) == []
    ensures Layout(CriteriaUpTo(f, k + 1)) == Layout(CriteriaUpTo(f, k))
  {
    assert CriteriaUpTo(f, k + 1) == CriteriaUpTo(f, k);
  }

  /** A filter that is not supplied adds no criterion. */
  lemma SkipStage(f: Filters, k: nat)
    requires Stage(f, k) == []
    ensures CriteriaUpTo(f, k + 1) == CriteriaUpTo(f, k)
  {
  }

  /** The clause is empty exactly when no filter was supplied, and starts
      with `WHERE ` otherwise. */
  lemma WhereClauseEmptyIffNoFilter(f: Filters)
    ensures WhereClause(Layout(Criteria(f)).conditions) == "" <==> Criteria(f) == []
    ensures Criteria(f) != [] ==> Text.StartsWith(WhereClause(Layout(Criteria(f)).conditions), "WHERE ")
  {
  }

  // ---------------------------------------------------------------------
  // What the database does with the clause

  function TextAt(params: seq<Param>, k: nat): Option<string> {
    if 1 <= k <= |params| && params[k - 1].TextParam? then Some(params[k - 1].text) else None
  }

  function NumberAt(params: seq<Param>, k: nat): Option<int> {
    if 1 <= k <= |params| && params[k - 1].NumberParam? then Some(params[k - 1].number) else None
  }

  /** `value LIKE pattern` for the `%term%` patterns the builder produces:
      the term occurs in the value. Other patterns compare whole values. */
  predicate Like(value: string, pattern: string) {
    if |pattern| >= 2 && pattern[0] == '%' && pattern[|pattern| - 1] == '%'
    then Text.Contains(value, pattern[1..|pattern| - 1])
    else value == pattern
  }

  /** The column a condition compares; `->>` yields NULL for a missing key. */
  function ColumnValue(row: ProductRow, col: Column): Option<string> {
    match col
    case CategoryColumn => Some(row.category)
    case SubCategoryColumn => Some(row.subCategory)
    case TypeAttribute => TextAttr(row.attributes, "type")
    case UsageAttribute => TextAttr(row.attributes, "usage")
  }

  /** A row satisfies a condition under a parameter binding. */
  predicate Holds(row: ProductRow, c: Condition, params: seq<Param>) {
    match c
    case ColumnEquals(col, k) => ColumnValue(row, col).Some? && ColumnValue(row, col) == TextAt(params, k)
    case NameOrDescriptionLike(k1, k2) =>
      (TextAt(params, k1).Some? && Like(Text.ToLower(row.name), TextAt(params, k1).value))
      || (TextAt(params, k2).Some? && Like(Text.ToLower(row.description), TextAt(params, k2).value))
    case PriceFrom(k) => NumberAt(params, k).Some? && row.price >= NumberAt(params, k).value
    case PriceUpTo(k) => NumberAt(params, k).Some? && row.price <= NumberAt(params, k).value
  }

  predicate AllHold(row: ProductRow, conditions: seq<Condition>, params: seq<Param>) {
    forall i :: 0 <= i < |conditions| ==> Holds(row, conditions[i], params)
  }

  function MaxSlot(c: Condition): nat {
    match c
    case ColumnEquals(_, k) => k
    case NameOrDescriptionLike(k1, k2) => if k1 <= k2 then k2 else k1
    case PriceFrom(k) => k
    case PriceUpTo(k) => k
  }

  /** Every placeholder of every condition names a pushed parameter. */
  predicate SlotsBound(w: Where) {
    forall i :: 0 <= i < |w.conditions| ==> MaxSlot(w.conditions[i]) <= |w.params|
  }

  /** Pushing more parameters does not change what a bound condition says. */
  lemma HoldsExtend(row: ProductRow, c: Condition, params: seq<Param>, more: seq<Param>)
    requires MaxSlot(c) <= |params|
    ensures Holds(row, c, params + more) == Holds(row, c, params)
  {
    assert forall k :: 1 <= k <= |params| ==> TextAt(params + more, k) == TextAt(params, k);
    assert forall k :: 1 <= k <= |params| ==> NumberAt(params + more, k) == NumberAt(params, k);
  }

  /** The condition built for a criterion, with its parameters just after
      the ones before it, holds of a row exactly when the product the row
      lists meets the criterion. */
  lemma ConditionMeaning(row: ProductRow, c: Criterion, before: seq<Param>)
    ensures Holds(row, ConditionFor(c, |before| + 1), before + ParamsFor(c)) <==> Meets(RowView(row), c)
  {
    var params := before + ParamsFor(c);
    assert params[|before|] == ParamsFor(c)[0];
    if c.Mentions? {
      SearchMeaning(row, c.term, before);
    }
  }

  /** The search condition: both of its slots hold the `%term%` pattern,
      and `LIKE` with it finds the lower-cased term. */
  lemma SearchMeaning(row: ProductRow, term: string, before: seq<Param>)
    ensures Holds(row, ConditionFor(Mentions(term), |before| + 1), before + ParamsFor(Mentions(term)))
        <==> MentionsTerm(RowView(row), term)
  {
    var params := before + ParamsFor(Mentions(term));
    var pattern := SearchPattern(term);
    assert params[|before|] == TextParam(pattern);
    assert params[|before| + 1] == TextParam(pattern);
    assert pattern[1..|pattern| - 1] == Text.ToLower(term);
    assert Like(Text.ToLower(row.name), pattern) == Text.Contains(Text.ToLower(row.name), Text.ToLower(term));
    assert Like(Text.ToLower(row.description), pattern) == Text.Contains(Text.ToLower(row.description), Text.ToLower(term));
  }

  /** Appending a criterion keeps every slot bound, and the extended clause
      holds of a row exactly when the old one does and the row's product
      meets the new criterion. */
  lemma AllHoldExtend(row: ProductRow, w: Where, c: Criterion)
    requires SlotsBound(w)
    ensures SlotsBound(Extend(w, c))
    ensures AllHold(row, Extend(w, c).conditions, Extend(w, c).params)
        <==> AllHold(row, w.conditions, w.params) && Meets(RowView(row), c)
  {
    var w' := Extend(w, c);
    forall i | 0 <= i < |w.conditions|
      ensures Holds(row, w'.conditions[i], w'.params) == Holds(row, w.conditions[i], w.params)
    {
      assert w'.conditions[i] == w.conditions[i];
      HoldsExtend(row, w.conditions[i], w.params, ParamsFor(c));
    }
    ConditionMeaning(row, c, w.params);
    assert w'.conditions[|w.conditions|] == ConditionFor(c, |w.params| + 1);
    if AllHold(row, w'.conditions, w'.params) {
      assert Holds(row, w'.conditions[|w.conditions|], w'.params);
    }
  }

  /** The placeholder discipline: every condition's slots are bound, and
      each `$k` denotes the k-th parameter in such a way that the clause
      selects exactly the rows whose product meets every criterion. */
  lemma {:induction false} LayoutSound(cs: seq<Criterion>, row: ProductRow)
    ensures SlotsBound(Layout(cs))
    ensures AllHold(row, Layout(cs).conditions, Layout(cs).params) <==> MeetsAll(RowView(row), cs)
  {
    if cs != [] {
      var init := cs[..|cs| - 1];
      var c := cs[|cs| - 1];
      assert cs == init + [c];
      LayoutSound(init, row);
      AllHoldExtend(row, Layout(init), c);
      assert Layout(cs) == Extend(Layout(init), c);
      MeetsAllSnoc(RowView(row), init, c);
    }
  }

  // ---------------------------------------------------------------------
  // Rows, static products and the combined page

  /** `attributes.images || (row.image ? [row.image] : [])`. */
  function ImagesOf(attributes: Attributes, image: string): seq<string> {
    if "images" in attributes && attributes["images"].AttrList? then attributes["images"].items
    else if image != [] then [image]
    else []
  }

  /** The object `getAll` and `getById` build from a database row. */
  function RowView(row: ProductRow): CatalogProduct {
    CatalogProduct(row.id, row.name, row.category, row.subCategory, row.description, row.image,
      Some(ImagesOf(row.attributes, row.image)), row.price, row.inStock, row.attributes,
      row.createdAt, row.updatedAt, Some(false))
  }

  function RowMatching(f: Filters): ProductRow -> bool {
    (row: ProductRow) => Matches(f, RowView(row))
  }

  function RowByName(): (ProductRow, ProductRow) -> bool {
    (a: ProductRow, b: ProductRow) => Text.NameLe(a.name, b.name)
  }

  /** `result.rows.map(row => ({ ... }))`. */
  function Views(rows: seq<ProductRow>): (ps: seq<CatalogProduct>)
    ensures |ps| == |rows|
    ensures forall k :: 0 <= k < |rows| ==> ps[k] == RowView(rows[k])
  {
    seq(|rows|, i requires 0 <= i < |rows| => RowView(rows[i]))
  }

  /** `SELECT * FROM products WHERE … ORDER BY name`, mapped to products. */
  function DbProducts(rows: seq<ProductRow>, f: Filters): seq<CatalogProduct> {
    Views(Seqs.Sort(Seqs.Filter(rows, RowMatching(f)), RowByName()))
  }

  /** The static products that survive the filter chain. */
  function StaticMatches(statics: seq<CatalogProduct>, f: Filters): seq<CatalogProduct> {
    Seqs.Filter(statics, MeetingAll(Criteria(f)))
  }

  /** `'price-asc'` and `'price-desc'` pick the price orders; any other
      value, or none, sorts by name. */
  function OrderFor(sortBy: Option<string>): SortOrder {
    if sortBy == Some("price-asc") then PriceAscending
    else if sortBy == Some("price-desc") then PriceDescending
    else ByName
  }

  /** `allProducts` after the sort. */
  function Combined(rows: seq<ProductRow>, statics: seq<CatalogProduct>, f: Filters): seq<CatalogProduct> {
    Seqs.Sort(DbProducts(rows, f) + StaticMatches(statics, f), Comparator(OrderFor(f.sortBy)))
  }

  /** `parseInt(filters.page) || 1` and `parseInt(filters.limit) || 10`. */
  function PageOf(f: Filters): (page: nat)
    ensures page >= 1
  {
    if f.page.None? || f.page.value == 0 then 1 else f.page.value
  }

  function LimitOf(f: Filters): (limit: nat)
    ensures limit >= 1
  {
    if f.limit.None? || f.limit.value == 0 then 10 else f.limit.value
  }

  /** `(page - 1) * limit`. */
  function Offset(f: Filters): nat {
    var previous: nat := PageOf(f) - 1;
    previous * LimitOf(f)
  }

  /** The rows a WHERE clause and its parameters select. */
  function Satisfying(conditions: seq<Condition>, params: seq<Param>): ProductRow -> bool {
    (row: ProductRow) => AllHold(row, conditions, params)
  }

  /** The test one `filter` call of the static chain applies. */
  function Keeping(c: Criterion): CatalogProduct -> bool {
    (p: CatalogProduct) => Meets(p, c)
  }

  /** One step of the chain: filtering the survivors of the first `k`
      filters by the k-th criterion keeps what the first `k + 1` keep. */
  lemma Refine(s: seq<CatalogProduct>, f: Filters, k: nat, c: Criterion)
    requires Stage(f, k) == [c]
    ensures Seqs.Filter(Seqs.Filter(s, MeetingAll(CriteriaUpTo(f, k))), Keeping(c))
         == Seqs.Filter(s, MeetingAll(CriteriaUpTo(f, k + 1)))
  {
    var applied := CriteriaUpTo(f, k);
    assert CriteriaUpTo(f, k + 1) == applied + [c];
    forall p ensures MeetingAll(applied + [c])(p) == (MeetingAll(applied)(p) && Keeping(c)(p)) {
      MeetsAllConcat(p, applied, [c]);
      MeetsAllSingleton(p, c);
    }
    Seqs.FilterFusion(s, MeetingAll(applied), Keeping(c), MeetingAll(applied + [c]));
  }
}

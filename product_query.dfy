/** `ProductService.getAll`, the relational variant of the product query:
    a WHERE clause with numbered placeholders selects database rows, the
    built-in static products are filtered in process by the same criteria,
    and the union is sorted and cut into one page. */
module ProductQuery {
  import opened Wrappers
  import Text
  import Seqs
  import opened Catalog
  import opened Store
  import opened ProductFilters

  /** The builder: one `if` block per filter, in the order of `Stage`;
      `paramIndex` stays one past the last parameter pushed. */
  method BuildWhere(filters: Filters) returns (whereConditions: seq<Condition>, queryParams: seq<Param>, whereClause: string)
    ensures Where(whereConditions, queryParams) == Layout(Criteria(filters))
    ensures whereClause == WhereClause(whereConditions)
  {
    whereConditions, queryParams := [], [];
    var paramIndex: nat := 1;
    whereConditions, queryParams, paramIndex := ConditionBlock(filters, 0, whereConditions, queryParams, paramIndex);
    whereConditions, queryParams, paramIndex := ConditionBlock(filters, 1, whereConditions, queryParams, paramIndex);
    whereConditions, queryParams, paramIndex := ConditionBlock(filters, 2, whereConditions, queryParams, paramIndex);
    whereConditions, queryParams, paramIndex := ConditionBlock(filters, 3, whereConditions, queryParams, paramIndex);
    whereConditions, queryParams, paramIndex := ConditionBlock(filters, 4, whereConditions, queryParams, paramIndex);
    whereConditions, queryParams, paramIndex := ConditionBlock(filters, 5, whereConditions, queryParams, paramIndex);
    whereConditions, queryParams, paramIndex := ConditionBlock(filters, 6, whereConditions, queryParams, paramIndex);
    whereClause := WhereClause(whereConditions);
  }

  /** The k-th `if (filters.…) { … }` block: `Stage(filters, k)` is its test,
      and the criterion it yields is what the block pushes. */
  method ConditionBlock(filters: Filters, k: nat, whereConditions: seq<Condition>, queryParams: seq<Param>, paramIndex: nat)
    returns (whereConditions': seq<Condition>, queryParams': seq<Param>, paramIndex': nat)
    requires Where(whereConditions, queryParams) == Layout(CriteriaUpTo(filters, k))
    requires paramIndex == |queryParams| + 1
    ensures Where(whereConditions', queryParams') == Layout(CriteriaUpTo(filters, k + 1))
    ensures paramIndex' == |queryParams'| + 1
  {
    var supplied := Stage(filters, k);
    if supplied != [] {
      var c := supplied[0];
      assert supplied == [c];
      LayoutAdd(filters, k, c);
      whereConditions', queryParams', paramIndex' := Push(whereConditions, queryParams, paramIndex, c);
    } else {
      LayoutSkip(filters, k);
      whereConditions', queryParams', paramIndex' := whereConditions, queryParams, paramIndex;
    }
  }

  /** One `if` body of the builder: push the condition text with the next
      placeholder number, push its parameters (the search pattern twice),
      and advance `paramIndex` past them. */
  method Push(whereConditions: seq<Condition>, queryParams: seq<Param>, paramIndex: nat, c: Criterion)
    returns (conditions': seq<Condition>, params': seq<Param>, paramIndex': nat)
    requires paramIndex == |queryParams| + 1
    ensures Where(conditions', params') == Extend(Where(whereConditions, queryParams), c)
    ensures paramIndex' == |params'| + 1
  {
    conditions' := whereConditions + [ConditionFor(c, paramIndex)];
    match c {
      case Mentions(term) =>
        var searchTerm := SearchPattern(term);
        params' := queryParams + [TextParam(searchTerm), TextParam(searchTerm)];
        paramIndex' := paramIndex + 2;
      case _ =>
        params' := queryParams + ParamsFor(c);
        paramIndex' := paramIndex + 1;
    }
  }

  /** `getAll(filters)`, with `statics` the fixture list. */
  method GetAll(db: Database, filters: Filters, statics: seq<CatalogProduct>) returns (result: ProductPage)
    ensures var all := Combined(db.products, statics, filters);
      result.products == Seqs.Slice(all, Offset(filters), Offset(filters) + LimitOf(filters))
    ensures var total := |Combined(db.products, statics, filters)|;
      result.pagination == Pagination(PageOf(filters), Seqs.CeilDiv(total, LimitOf(filters)), total,
        LimitOf(filters), Offset(filters) + LimitOf(filters) < total, PageOf(filters) > 1)
  {
    var whereConditions, queryParams, whereClause := BuildWhere(filters);

    var page := PageOf(filters);
    var limit := LimitOf(filters);
    var offset := Offset(filters);

    var dbProducts := Query(db.products, filters, whereConditions, queryParams);
    var filteredStaticProducts := StaticFilterChain(filters, statics);

    var sorted := SortProducts(dbProducts + filteredStaticProducts, OrderFor(filters.sortBy));
    assert sorted == Combined(db.products, statics, filters);

    var totalProductsWithStatic := |sorted|;
    var paginatedProducts := Seqs.Slice(sorted, offset, offset + limit);
    result := ProductPage(paginatedProducts,
      Pagination(page, Seqs.CeilDiv(totalProductsWithStatic, limit), totalProductsWithStatic, limit,
                 offset + limit < totalProductsWithStatic, page > 1));
  }

  /** `allProducts.sort(…)` with the comparator the sort option picks. */
  method SortProducts(allProducts: seq<CatalogProduct>, order: SortOrder) returns (sorted: seq<CatalogProduct>)
    ensures sorted == Seqs.Sort(allProducts, Comparator(order))
  {
    var a := new CatalogProduct[|allProducts|](i requires 0 <= i < |allProducts| => allProducts[i]);
    assert a[..] == allProducts;
    Seqs.SortInPlace(a, Comparator(order));
    sorted := a[..];
  }

  /** `query(sql, queryParams)` followed by the mapping of its rows: the rows
      the built clause selects, ordered by name. */
  method Query(rows: seq<ProductRow>, filters: Filters, whereConditions: seq<Condition>, queryParams: seq<Param>)
    returns (products: seq<CatalogProduct>)
    requires Where(whereConditions, queryParams) == Layout(Criteria(filters))
    ensures products == DbProducts(rows, filters)
  {
    forall k | 0 <= k < |rows|
      ensures Satisfying(whereConditions, queryParams)(rows[k]) == RowMatching(filters)(rows[k])
    {
      LayoutSound(Criteria(filters), rows[k]);
    }
    Seqs.FilterCongruent(rows, Satisfying(whereConditions, queryParams), RowMatching(filters));
    var selected := Seqs.Sort(Seqs.Filter(rows, Satisfying(whereConditions, queryParams)), RowByName());
    products := Views(selected);
  }

  /** `filteredStaticProducts`: a copy of the fixtures, narrowed by one
      `filter` per supplied filter, in the order of `Stage`. */
  method StaticFilterChain(filters: Filters, statics: seq<CatalogProduct>) returns (filtered: seq<CatalogProduct>)
    ensures filtered == StaticMatches(statics, filters)
  {
    filtered := statics;
    Seqs.FilterAll(statics, MeetingAll([]));
    filtered := FilterBlock(filters, 0, statics, filtered);
    filtered := FilterBlock(filters, 1, statics, filtered);
    filtered := FilterBlock(filters, 2, statics, filtered);
    filtered := FilterBlock(filters, 3, statics, filtered);
    filtered := FilterBlock(filters, 4, statics, filtered);
    filtered := FilterBlock(filters, 5, statics, filtered);
    filtered := FilterBlock(filters, 6, statics, filtered);
  }

  /** The k-th `if (filters.…) { filtered = filtered.filter(…) }` block. */
  method FilterBlock(filters: Filters, k: nat, ghost statics: seq<CatalogProduct>, filtered: seq<CatalogProduct>)
    returns (filtered': seq<CatalogProduct>)
    requires filtered == Seqs.Filter(statics, MeetingAll(CriteriaUpTo(filters, k)))
    ensures filtered' == Seqs.Filter(statics, MeetingAll(CriteriaUpTo(filters, k + 1)))
  {
    var supplied := Stage(filters, k);
    if supplied != [] {
      var c := supplied[0];
      assert supplied == [c];
      Refine(statics, filters, k, c);
      filtered' := Seqs.Filter(filtered, Keeping(c));
    } else {
      SkipStage(filters, k);
      filtered' := filtered;
    }
  }
}

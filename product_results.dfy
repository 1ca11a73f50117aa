/** What the page `ProductService.getAll` returns satisfies: which products
    are selected, how many there are, the order they come in, and the
    window a page cuts from them. */
module ProductResults {
  import opened Wrappers
  import Text
  import Seqs
  import opened Catalog
  import opened Store
  import opened ProductFilters

  /** A static product is kept exactly when it is a fixture that meets every
      supplied filter. */
  lemma StaticSelectionExact(statics: seq<CatalogProduct>, f: Filters, p: CatalogProduct)
    ensures p in StaticMatches(statics, f) <==> p in statics && MeetsEachFilter(f, p)
  {
    Seqs.FilterMembership(statics, MeetingAll(Criteria(f)), p);
    MatchesMeaning(f, p);
  }

  /** The rows the clause selects, before the mapping. */
  function SelectedRows(rows: seq<ProductRow>, f: Filters): seq<ProductRow> {
    Seqs.Sort(Seqs.Filter(rows, RowMatching(f)), RowByName())
  }

  lemma SelectedRowsMembers(rows: seq<ProductRow>, f: Filters, row: ProductRow)
    ensures row in SelectedRows(rows, f) <==> row in rows && MeetsEachFilter(f, RowView(row))
  {
    var kept := Seqs.Filter(rows, RowMatching(f));
    Seqs.SortPermutation(kept, RowByName());
    assert row in SelectedRows(rows, f) <==> row in multiset(kept);
    Seqs.FilterMembership(rows, RowMatching(f), row);
    MatchesMeaning(f, RowView(row));
  }

  /** Every row meeting every supplied filter is listed. */
  lemma DbListsEveryMatch(rows: seq<ProductRow>, f: Filters, row: ProductRow)
    requires row in rows && MeetsEachFilter(f, RowView(row))
    ensures RowView(row) in DbProducts(rows, f)
  {
    SelectedRowsMembers(rows, f, row);
    var sel := SelectedRows(rows, f);
    var i :| 0 <= i < |sel| && sel[i] == row;
    assert DbProducts(rows, f)[i] == RowView(row);
  }

  /** Every product listed from the database is the view of a row that
      meets every supplied filter. */
  lemma DbListsOnlyMatches(rows: seq<ProductRow>, f: Filters, i: nat)
    requires i < |DbProducts(rows, f)|
    ensures exists row :: row in rows && DbProducts(rows, f)[i] == RowView(row) && MeetsEachFilter(f, RowView(row))
  {
    var sel := SelectedRows(rows, f);
    SelectedRowsMembers(rows, f, sel[i]);
    assert DbProducts(rows, f)[i] == RowView(sel[i]);
  }

  /** `ORDER BY name`: the database products come in name order. */
  lemma DbProductsByName(rows: seq<ProductRow>, f: Filters)
    ensures InOrder(ByName, DbProducts(rows, f))
  {
    var kept := Seqs.Filter(rows, RowMatching(f));
    var sel := SelectedRows(rows, f);
    forall a: ProductRow, b: ProductRow ensures RowByName()(a, b) || RowByName()(b, a) {
      Text.NameLeTotal(a.name, b.name);
    }
    forall a: ProductRow, b: ProductRow, c: ProductRow | RowByName()(a, b) && RowByName()(b, c)
      ensures RowByName()(a, c)
    {
      Text.NameLeTransitive(a.name, b.name, c.name);
    }
    assert Seqs.TotalPreorder(RowByName());
    Seqs.SortSorted(kept, RowByName());
    var ps := DbProducts(rows, f);
    forall i, j | 0 <= i < j < |ps| ensures Text.NameLe(ps[i].name, ps[j].name) {
      assert RowByName()(sel[i], sel[j]);
    }
  }

  /** `totalProducts` counts the selected rows and the kept static products,
      after the merge and before the slice; the merge loses and adds nothing. */
  lemma CombinedCount(rows: seq<ProductRow>, statics: seq<CatalogProduct>, f: Filters)
    ensures multiset(Combined(rows, statics, f)) == multiset(DbProducts(rows, f) + StaticMatches(statics, f))
    ensures |Combined(rows, statics, f)| == |Seqs.Filter(rows, RowMatching(f))| + |StaticMatches(statics, f)|
  {
    var merged := DbProducts(rows, f) + StaticMatches(statics, f);
    SortByOrder(OrderFor(f.sortBy), merged);
    Seqs.SortPermutation(merged, Comparator(OrderFor(f.sortBy)));
    Seqs.SortPermutation(Seqs.Filter(rows, RowMatching(f)), RowByName());
  }

  /** A product is on the merged list exactly when it is a listed database
      product or a kept static product. */
  lemma CombinedMembers(rows: seq<ProductRow>, statics: seq<CatalogProduct>, f: Filters, p: CatalogProduct)
    ensures p in Combined(rows, statics, f) <==> p in DbProducts(rows, f) || p in StaticMatches(statics, f)
  {
    CombinedCount(rows, statics, f);
    assert p in Combined(rows, statics, f) <==> p in multiset(DbProducts(rows, f) + StaticMatches(statics, f));
  }

  /** The merged list is in the order `sortBy` picks: non-decreasing price for
      `'price-asc'`, non-increasing for `'price-desc'`, by name otherwise. */
  lemma CombinedInOrder(rows: seq<ProductRow>, statics: seq<CatalogProduct>, f: Filters)
    ensures InOrder(OrderFor(f.sortBy), Combined(rows, statics, f))
    ensures f.sortBy == Some("price-asc") ==> InOrder(PriceAscending, Combined(rows, statics, f))
    ensures f.sortBy == Some("price-desc") ==> InOrder(PriceDescending, Combined(rows, statics, f))
    ensures f.sortBy != Some("price-asc") && f.sortBy != Some("price-desc") ==>
      InOrder(ByName, Combined(rows, statics, f))
  {
    SortByOrder(OrderFor(f.sortBy), DbProducts(rows, f) + StaticMatches(statics, f));
  }

  /** The frontend's sort keys are not the backend's: `'price_asc'` and
      `'price_desc'` sort by name here. */
  lemma UnderscoreKeysSortByName()
    ensures OrderFor(Some("price_asc")) == ByName && OrderFor(Some("price_desc")) == ByName
  {
    assert "price_asc" != "price-asc" by { assert "price_asc"[5] != "price-asc"[5]; }
    assert "price_desc" != "price-desc" by { assert "price_desc"[5] != "price-desc"[5]; }
  }

  /** The products of page `page` with `limit` per page: the ones at
      positions `(page - 1) * limit ..` of the list. */
  function PageWindow(all: seq<CatalogProduct>, page: nat, limit: nat): seq<CatalogProduct>
    requires page >= 1
  {
    var previous: nat := page - 1;
    Seqs.Slice(all, previous * limit, previous * limit + limit)
  }

  /** `hasNextPage` is set exactly when the following page is not empty. */
  lemma HasNextPageIffMore(all: seq<CatalogProduct>, page: nat, limit: nat)
    requires page >= 1 && limit >= 1
    ensures (page - 1) * limit + limit < |all| <==> PageWindow(all, page + 1, limit) != []
  {
    var previous: nat := page - 1;
    assert page * limit == previous * limit + limit;
  }
}

/** The logic of the catalog page, `frontend/src/pages/Catalog.js`: the
    filters it sends, the URL parameters it keeps in step with its state,
    the pagination it falls back to for a bare array, the row of page
    buttons, and the handlers that reset or move its state. */
module CatalogPage {
  import opened Wrappers
  import Text
  import Seqs
  import opened Catalog

  /** The page size the catalog asks for and, for a bare array, cuts. */
  const PageSize: nat := 6

  // ---------------------------------------------------------------------
  // Filters, request and URL
  // ---------------------------------------------------------------------

  /** The six filter state variables. */
  datatype UiFilters = UiFilters(
    searchQuery: string,
    selectedCategory: string,
    selectedSubCategory: string,
    selectedType: string,
    selectedUsage: string,
    sortBy: string)

  /** `filters` as `fetchProducts` builds it: `page` and `limit` always, the
      others only when set. */
  datatype ProductRequest = ProductRequest(
    page: nat,
    limit: nat,
    search: Option<string>,
    category: Option<string>,
    subCategory: Option<string>,
    productType: Option<string>,
    usage: Option<string>,
    sortBy: Option<string>)

  /** `if (value) filters.key = value`. */
  function IfSet(value: string): Option<string> {
    if value != "" then Some(value) else None
  }

  function BuildFilters(ui: UiFilters, currentPage: nat): ProductRequest {
    ProductRequest(currentPage, PageSize,
      IfSet(ui.searchQuery), IfSet(ui.selectedCategory), IfSet(ui.selectedSubCategory),
      IfSet(ui.selectedType), IfSet(ui.selectedUsage), IfSet(ui.sortBy))
  }

  /** The request always asks for page `currentPage` of six products, and
      carries a filter exactly when its state variable is not empty, with
      that value. */
  lemma BuildFiltersMeaning(ui: UiFilters, currentPage: nat)
    ensures var r := BuildFilters(ui, currentPage);
      && r.page == currentPage && r.limit == 6
      && (r.search.Some? <==> ui.searchQuery != "") && (r.search.Some? ==> r.search.value == ui.searchQuery)
      && (r.category.Some? <==> ui.selectedCategory != "") && (r.category.Some? ==> r.category.value == ui.selectedCategory)
      && (r.subCategory.Some? <==> ui.selectedSubCategory != "")
      && (r.subCategory.Some? ==> r.subCategory.value == ui.selectedSubCategory)
      && (r.productType.Some? <==> ui.selectedType != "") && (r.productType.Some? ==> r.productType.value == ui.selectedType)
      && (r.usage.Some? <==> ui.selectedUsage != "") && (r.usage.Some? ==> r.usage.value == ui.selectedUsage)
      && (r.sortBy.Some? <==> ui.sortBy != "") && (r.sortBy.Some? ==> r.sortBy.value == ui.sortBy)
  {
  }

  /** The query string the page keeps; every value is a string. */
  datatype UrlParams = UrlParams(
    search: Option<string>,
    category: Option<string>,
    subCategory: Option<string>,
    productType: Option<string>,
    usage: Option<string>,
    sortBy: Option<string>,
    page: Option<string>)

  /** The effect that calls `setSearchParams`: `sortBy` is left out when it
      is `'name'`, `page` when it is 1. */
  function UrlParamsOf(ui: UiFilters, currentPage: nat): UrlParams {
    UrlParams(IfSet(ui.searchQuery), IfSet(ui.selectedCategory), IfSet(ui.selectedSubCategory),
      IfSet(ui.selectedType), IfSet(ui.selectedUsage),
      if ui.sortBy != "" && ui.sortBy != "name" then Some(ui.sortBy) else None,
      if currentPage > 1 then Some(Text.NatToString(currentPage)) else None)
  }

  /** The `useState` initialisers: `searchParams.get(key) || ''`, and
      `|| 'name'` for the sort. */
  function FiltersFromUrl(params: UrlParams): UiFilters {
    UiFilters(Text.OrElse(params.search, ""), Text.OrElse(params.category, ""),
      Text.OrElse(params.subCategory, ""), Text.OrElse(params.productType, ""),
      Text.OrElse(params.usage, ""), Text.OrElse(params.sortBy, "name"))
  }

  /** `parseInt(searchParams.get('page')) || 1`: a missing parameter,
      `NaN` and 0 give 1; any other reading, a negative one too, is kept. */
  function PageFromUrl(params: UrlParams): (page: int)
    ensures page != 0
    ensures params.page.None? ==> page == 1
  {
    if params.page.None? then 1
    else
      var n := Text.ParseInt(params.page.value);
      if n.Some? && n.value != 0 then n.value else 1
  }

  /** A page parameter that starts with digits reads as those digits, up to
      the first character that is not one, and one without a digit as 1. */
  lemma {:induction false} PageFromUrlDigits(params: UrlParams, digits: string, rest: string)
    requires digits != [] && forall k :: 0 <= k < |digits| ==> Text.IsDigit(digits[k])
    requires rest == [] || !Text.IsDigit(rest[0])
    ensures params.page == Some(digits + rest) && Text.DigitsValue(digits) != 0 ==>
      PageFromUrl(params) == Text.DigitsValue(digits)
    ensures params.page == Some(['-'] + (digits + rest)) && Text.DigitsValue(digits) != 0 ==>
      PageFromUrl(params) == -(Text.DigitsValue(digits) as int)
    ensures params.page == Some(rest) && (rest == [] || (!Text.IsSpace(rest[0]) && rest[0] != '-' && rest[0] != '+')) ==>
      PageFromUrl(params) == 1
  {
    if Text.DigitsValue(digits) != 0 {
      assert Text.DigitsValue("0") == 0 by {
        assert "0"[..0] == [];
      }
      Text.ParseIntLeadingDigits(digits, rest);
      Text.ParseIntNegative(digits, rest);
    }
    if rest == [] || (!Text.IsSpace(rest[0]) && rest[0] != '-' && rest[0] != '+') {
      Text.ParseIntNoDigit(rest);
    }
  }

  /** A page parameter written in hexadecimal, as `0x10`, reads in base 16,
      since `parseInt` is called without a radix. */
  lemma {:induction false} PageFromUrlHex(params: UrlParams, x: char, h: string, rest: string)
    requires x == 'x' || x == 'X'
    requires h != [] && forall k :: 0 <= k < |h| ==> Text.IsHexDigit(h[k])
    requires rest == [] || !Text.IsHexDigit(rest[0])
    ensures params.page == Some(['0', x] + (h + rest)) && Text.HexValue(h) != 0 ==>
      PageFromUrl(params) == Text.HexValue(h)
    ensures params.page == Some(['-'] + (['0', x] + (h + rest))) && Text.HexValue(h) != 0 ==>
      PageFromUrl(params) == -(Text.HexValue(h) as int)
  {
    Text.ParseIntHex(x, h, rest);
  }

  /** The initialisers read back the filters, the sort and the page that
      the URL effect wrote. A sort of `''` does not come back: it is read
      as `'name'`. */
  lemma UrlRoundTrip(ui: UiFilters, currentPage: nat)
    requires currentPage >= 1 && ui.sortBy != ""
    ensures FiltersFromUrl(UrlParamsOf(ui, currentPage)) == ui
    ensures PageFromUrl(UrlParamsOf(ui, currentPage)) == currentPage
  {
    if currentPage > 1 {
      Text.ParseIntToString(currentPage);
    }
  }

  /** The filters once the mount run of the subcategory effect is over:
      with no category selected it clears the subcategory. */
  function MountedFilters(params: UrlParams): (ui: UiFilters)
    ensures ui.selectedCategory == "" ==> ui.selectedSubCategory == ""
    ensures ui.selectedCategory != "" ==> ui == FiltersFromUrl(params)
    ensures ui.(selectedSubCategory := "") == FiltersFromUrl(params).(selectedSubCategory := "")
  {
    var initial := FiltersFromUrl(params);
    if initial.selectedCategory == "" then initial.(selectedSubCategory := "") else initial
  }

  /** Reopening the URL the catalog wrote gives back the filters and the
      sort, less a subcategory chosen without a category, and the page in
      the URL makes no difference to them. */
  lemma MountedRoundTrip(ui: UiFilters, currentPage: nat)
    requires currentPage >= 1 && ui.sortBy != ""
    ensures ui.selectedCategory != "" || ui.selectedSubCategory == "" ==>
      MountedFilters(UrlParamsOf(ui, currentPage)) == ui
    ensures ui.selectedCategory == "" ==>
      MountedFilters(UrlParamsOf(ui, currentPage)) == ui.(selectedSubCategory := "")
    ensures MountedFilters(UrlParamsOf(ui, currentPage)) == MountedFilters(UrlParamsOf(ui, 1))
  {
    UrlRoundTrip(ui, currentPage);
    UrlRoundTrip(ui, 1);
  }

  /** The default state leaves the URL without parameters. */
  lemma DefaultsLeaveUrlEmpty(ui: UiFilters)
    requires ui == UiFilters("", "", "", "", "", "name")
    ensures UrlParamsOf(ui, 1) == UrlParams(None, None, None, None, None, None, None)
  {
  }

  /** `hasActiveFilters`: a filter is set, or the sort is not `'name'`. */
  predicate HasActiveFilters(ui: UiFilters) {
    ui.searchQuery != "" || ui.selectedCategory != "" || ui.selectedSubCategory != ""
    || ui.selectedType != "" || ui.selectedUsage != "" || (ui.sortBy != "" && ui.sortBy != "name")
  }

  /** Active filters are exactly what shows in the URL besides the page. */
  lemma ActiveFiltersShowInUrl(ui: UiFilters, currentPage: nat)
    ensures var u := UrlParamsOf(ui, currentPage);
      HasActiveFilters(ui) <==>
        u.search.Some? || u.category.Some? || u.subCategory.Some? || u.productType.Some?
        || u.usage.Some? || u.sortBy.Some?
  {
  }

  // ---------------------------------------------------------------------
  // The fallback for a bare array
  // ---------------------------------------------------------------------

  /** The `pagination` state variable. */
  datatype PageState = PageState(
    currentPage: nat, totalPages: nat, totalProducts: nat, hasNextPage: bool, hasPrevPage: bool)

  datatype Shown = Shown(products: seq<CatalogProduct>, pagination: PageState)

  /** `if (Array.isArray(data))`: the page cuts six products itself. */
  function LegacyPage(data: seq<CatalogProduct>, currentPage: nat): Shown
    requires currentPage >= 1
  {
    var startIndex := LegacyStart(currentPage);
    var endIndex := startIndex + PageSize;
    Shown(Seqs.Slice(data, startIndex, endIndex),
      PageState(currentPage, Seqs.CeilDiv(|data|, PageSize), |data|, endIndex < |data|, currentPage > 1))
  }

  /** `(currentPage - 1) * limit`. */
  function LegacyStart(currentPage: nat): nat
    requires currentPage >= 1
  {
    var previous: nat := currentPage - 1;
    previous * PageSize
  }

  /** The page shows at most six products, those from position
      `(currentPage - 1) * 6` on; there is a next page exactly when this one
      is before the last, and a previous one exactly after the first. */
  lemma LegacyPageMeaning(data: seq<CatalogProduct>, currentPage: nat)
    requires currentPage >= 1
    ensures var s := LegacyPage(data, currentPage);
      && |s.products| <= 6
      && (forall k :: 0 <= k < |s.products| ==> s.products[k] == data[LegacyStart(currentPage) + k])
      && s.pagination.totalProducts == |data|
      && s.pagination.totalPages * 6 >= |data|
      && (s.pagination.hasNextPage <==> currentPage < s.pagination.totalPages)
      && (s.pagination.hasPrevPage <==> currentPage > 1)
      && (currentPage <= s.pagination.totalPages ==> s.products != [])
  {
    assert LegacyStart(currentPage) + PageSize == currentPage * PageSize;
    Seqs.CeilDivAbove(|data|, PageSize, currentPage);
    var previous: nat := currentPage - 1;
    Seqs.CeilDivAbove(|data|, PageSize, previous);
  }

  // ---------------------------------------------------------------------
  // The row of page buttons
  // ---------------------------------------------------------------------

  /** What one page number renders as. */
  datatype PageItem = Button(page: nat, active: bool) | Ellipsis | Nothing

  /** The body of the `map` over the page numbers: page 1, the last page
      and the pages next to the current one get a button; the pages two
      away get an ellipsis unless they already have a button. */
  function ItemFor(page: nat, currentPage: nat, totalPages: nat): PageItem {
    if page == 1 || page == totalPages || (page >= currentPage - 1 && page <= currentPage + 1) then
      Button(page, page == currentPage)
    else if page == currentPage - 2 || page == currentPage + 2 then Ellipsis
    else Nothing
  }

  /** The row for `totalPages > 1`, one item per page `1 .. totalPages`;
      there is no row otherwise. */
  function PageItems(currentPage: nat, totalPages: nat): (items: seq<PageItem>)
    ensures |items| == if totalPages > 1 then totalPages else 0
  {
    if totalPages > 1 then seq(totalPages, i requires 0 <= i < totalPages => ItemFor(i + 1, currentPage, totalPages))
    else []
  }

  /** Item `i` is page `i + 1`: a button exactly for page 1, the last page
      and the pages within one of the current page; an ellipsis exactly two
      away from the current page where there is no button; nothing
      otherwise. */
  lemma PageItemsMeaning(currentPage: nat, totalPages: nat, i: nat)
    requires totalPages > 1 && i < totalPages
    ensures var page := i + 1;
      var item := PageItems(currentPage, totalPages)[i];
      && (item.Button? <==> page == 1 || page == totalPages || currentPage - 1 <= page <= currentPage + 1)
      && (item.Button? ==> item.page == page && (item.active <==> page == currentPage))
      && (item == Ellipsis <==> !item.Button? && (page == currentPage - 2 || page == currentPage + 2))
  {
  }

  /** The current page, when it is one of the pages, is the one active
      button; with no current page in range no button is active. */
  lemma OneActiveButton(currentPage: nat, totalPages: nat, i: nat)
    requires totalPages > 1 && i < totalPages
    ensures var item := PageItems(currentPage, totalPages)[i];
      (item.Button? && item.active) <==> i + 1 == currentPage
  {
  }

  /** At most seven items show: the first and last pages and the five
      around the current one. */
  lemma ShownPagesFew(currentPage: nat, totalPages: nat, i: nat)
    requires totalPages > 1 && i < totalPages
    requires PageItems(currentPage, totalPages)[i] != Nothing
    ensures i + 1 == 1 || i + 1 == totalPages || currentPage - 2 <= i + 1 <= currentPage + 2
  {
  }

  // ---------------------------------------------------------------------
  // The state and its handlers
  // ---------------------------------------------------------------------

  /** The filter and page state variables of the component. */
  class CatalogState {
    var searchQuery: string
    var selectedCategory: string
    var selectedSubCategory: string
    var selectedType: string
    var selectedUsage: string
    var sortBy: string
    var currentPage: nat

    function Filters(): UiFilters
      reads this
    {
      UiFilters(searchQuery, selectedCategory, selectedSubCategory, selectedType, selectedUsage, sortBy)
    }

    /** The page the `useState` initialiser read from the URL; the first
        render's fetch and URL write use it before the reset lands. */
    const firstPage: int

    /** Mounting: the `useState` initialisers read the URL, then the mount
        runs of the effects clear the subcategory when no category is
        selected and reset the page to 1. */
    constructor (params: UrlParams)
      ensures firstPage == PageFromUrl(params)
      ensures Filters() == MountedFilters(params) && currentPage == 1
    {
      var category := Text.OrElse(params.category, "");
      firstPage := PageFromUrl(params);
      searchQuery := Text.OrElse(params.search, "");
      selectedCategory := category;
      selectedSubCategory := if category == "" then "" else Text.OrElse(params.subCategory, "");
      selectedType := Text.OrElse(params.productType, "");
      selectedUsage := Text.OrElse(params.usage, "");
      sortBy := Text.OrElse(params.sortBy, "name");
      currentPage := 1;
    }

    /** `clearFilters()`: no filter, sort by name, page 1. */
    method ClearFilters()
      modifies this
      ensures Filters() == UiFilters("", "", "", "", "", "name") && currentPage == 1
      ensures !HasActiveFilters(Filters())
      ensures UrlParamsOf(Filters(), currentPage) == UrlParams(None, None, None, None, None, None, None)
    {
      searchQuery := "";
      selectedCategory := "";
      selectedSubCategory := "";
      selectedType := "";
      selectedUsage := "";
      sortBy := "name";
      currentPage := 1;
    }

    /** `handlePageChange(newPage)`; the scroll to the top is left out. */
    method HandlePageChange(newPage: nat)
      modifies this
      ensures currentPage == newPage && Filters() == old(Filters())
    {
      currentPage := newPage;
    }

    /** `handleCategoryChange`: the category is set and the subcategory
        dropped. The effect on the filters goes back to page 1, but it runs
        only when one of them took a new value. */
    method HandleCategoryChange(value: string)
      modifies this
      ensures selectedCategory == value && selectedSubCategory == ""
      ensures value != old(selectedCategory) || old(selectedSubCategory) != "" ==> currentPage == 1
      ensures value == old(selectedCategory) && old(selectedSubCategory) == "" ==> currentPage == old(currentPage)
      ensures searchQuery == old(searchQuery) && selectedType == old(selectedType)
      ensures selectedUsage == old(selectedUsage) && sortBy == old(sortBy)
    {
      var changed := value != selectedCategory || selectedSubCategory != "";
      selectedCategory := value;
      selectedSubCategory := "";
      if changed {
        currentPage := 1;
      }
    }

    /** `handleSearchChange`, followed by the same effect when the term is
        a new one. */
    method HandleSearchChange(value: string)
      modifies this
      ensures searchQuery == value
      ensures value != old(searchQuery) ==> currentPage == 1
      ensures value == old(searchQuery) ==> currentPage == old(currentPage)
      ensures selectedCategory == old(selectedCategory) && selectedSubCategory == old(selectedSubCategory)
      ensures selectedType == old(selectedType) && selectedUsage == old(selectedUsage) && sortBy == old(sortBy)
    {
      var changed := value != searchQuery;
      searchQuery := value;
      if changed {
        currentPage := 1;
      }
    }
  }

  /** A catalog opened from the URL its state wrote: the initialiser reads
      the page back, but the catalog settles on page 1, with the same
      filters and sort, less a subcategory chosen without a category. */
  method Reload(state: CatalogState) returns (reloaded: CatalogState)
    requires state.currentPage >= 1 && state.sortBy != ""
    ensures fresh(reloaded)
    ensures reloaded.firstPage == state.currentPage && reloaded.currentPage == 1
    ensures state.selectedCategory != "" || state.selectedSubCategory == "" ==>
      reloaded.Filters() == state.Filters()
    ensures state.selectedCategory == "" ==>
      reloaded.Filters() == state.Filters().(selectedSubCategory := "")
  {
    UrlRoundTrip(state.Filters(), state.currentPage);
    MountedRoundTrip(state.Filters(), state.currentPage);
    reloaded := new CatalogState(UrlParamsOf(state.Filters(), state.currentPage));
  }
}

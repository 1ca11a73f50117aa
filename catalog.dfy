/** The product record that every query variant lists, and the three orders
    the variants sort it by. */
module Catalog {
  import opened Wrappers
  import Text
  import Seqs

  /** A value of the free-form `attributes` object: a string, or (for the
      `images` key) a list of URLs. */
  datatype AttrValue = AttrText(text: string) | AttrList(items: seq<string>)

  type Attributes = map<string, AttrValue>

  /** `attributes?.[key]` when that property holds a string. */
  function TextAttr(attrs: Attributes, key: string): Option<string> {
    if key in attrs && attrs[key].AttrText? then Some(attrs[key].text) else None
  }

  /** A product as the catalog lists it (database view, static fixture, or
      record of the JSON data file). `images` and `isStatic` are absent on
      records that do not carry them. */
  datatype CatalogProduct = CatalogProduct(
    id: string,
    name: string,
    category: string,
    subCategory: string,
    description: string,
    image: string,
    images: Option<seq<string>>,
    price: int,
    inStock: bool,
    attributes: Attributes,
    createdAt: string,
    updatedAt: string,
    isStatic: Option<bool>)

  /** Page metadata of the backend query variants. */
  datatype Pagination = Pagination(
    currentPage: int,
    totalPages: nat,
    totalProducts: nat,
    limit: int,
    hasNextPage: bool,
    hasPrevPage: bool)

  datatype ProductPage = ProductPage(products: seq<CatalogProduct>, pagination: Pagination)

  /** The comparators passed to `sort`: `a.price - b.price`,
      `b.price - a.price` and `a.name.localeCompare(b.name)`. */
  datatype SortOrder = PriceAscending | PriceDescending | ByName

  function Comparator(order: SortOrder): (CatalogProduct, CatalogProduct) -> bool {
    match order
    case PriceAscending => (x: CatalogProduct, y: CatalogProduct) => x.price <= y.price
    case PriceDescending => (x: CatalogProduct, y: CatalogProduct) => y.price <= x.price
    case ByName => (x: CatalogProduct, y: CatalogProduct) => Text.NameLe(x.name, y.name)
  }

  /** What it means for a list to be in each order. */
  predicate InOrder(order: SortOrder, s: seq<CatalogProduct>) {
    match order
    case PriceAscending => forall i, j :: 0 <= i < j < |s| ==> s[i].price <= s[j].price
    case PriceDescending => forall i, j :: 0 <= i < j < |s| ==> s[i].price >= s[j].price
    case ByName => forall i, j :: 0 <= i < j < |s| ==> Text.NameLe(s[i].name, s[j].name)
  }

  lemma ComparatorIsTotalPreorder(order: SortOrder)
    ensures Seqs.TotalPreorder(Comparator(order))
  {
    var le := Comparator(order);
    if order == ByName {
      forall x, y ensures le(x, y) || le(y, x) {
        Text.NameLeTotal(x.name, y.name);
      }
      forall x, y, z | le(x, y) && le(y, z) ensures le(x, z) {
        Text.NameLeTransitive(x.name, y.name, z.name);
      }
    }
  }

  /** Sorting with a variant's comparator yields a permutation of the input
      that is in that order. */
  lemma SortByOrder(order: SortOrder, s: seq<CatalogProduct>)
    ensures multiset(Seqs.Sort(s, Comparator(order))) == multiset(s)
    ensures InOrder(order, Seqs.Sort(s, Comparator(order)))
  {
    ComparatorIsTotalPreorder(order);
    Seqs.SortPermutation(s, Comparator(order));
    Seqs.SortSorted(s, Comparator(order));
    var r := Seqs.Sort(s, Comparator(order));
    assert forall i, j :: 0 <= i < j < |r| ==> Comparator(order)(r[i], r[j]);
  }
}

/** The relational store: one sequence of rows per table. Column names follow
    the schema (`sub_category`, `in_stock`, `category_id`, `is_admin`). */
module Store {
  import opened Wrappers
  import Catalog

  datatype CategoryRow = CategoryRow(
    id: string, name: string, description: Option<string>, image: Option<string>,
    createdAt: string, updatedAt: string)

  datatype SubCategoryRow = SubCategoryRow(
    id: string, name: string, categoryId: string, description: Option<string>,
    createdAt: string, updatedAt: string)

  datatype ProductRow = ProductRow(
    id: string, name: string, category: string, subCategory: string,
    description: string, image: string, price: int, inStock: bool,
    attributes: Catalog.Attributes, createdAt: string, updatedAt: string)

  /** `password` holds the hash, never the clear text. */
  datatype AdminRow = AdminRow(
    id: string, username: string, password: string, isAdmin: bool,
    createdAt: string, updatedAt: Option<string>)

  /** The error the store raises when an INSERT reuses a primary key. */
  const DuplicateKey := "duplicate key value violates unique constraint"

  predicate HasCategory(rows: seq<CategoryRow>, id: string) {
    exists k :: 0 <= k < |rows| && rows[k].id == id
  }

  predicate HasSubCategory(rows: seq<SubCategoryRow>, id: string) {
    exists k :: 0 <= k < |rows| && rows[k].id == id
  }

  predicate HasProduct(rows: seq<ProductRow>, id: string) {
    exists k :: 0 <= k < |rows| && rows[k].id == id
  }

  /** What a write returns together with the new contents of its table. */
  datatype Change<T, R> = Change(result: Result<T>, rows: seq<R>)

  /** The primary-key constraint of each table. */
  predicate CategoryIdsDistinct(rows: seq<CategoryRow>) {
    forall i, j :: 0 <= i < j < |rows| ==> rows[i].id != rows[j].id
  }

  predicate SubCategoryIdsDistinct(rows: seq<SubCategoryRow>) {
    forall i, j :: 0 <= i < j < |rows| ==> rows[i].id != rows[j].id
  }

  predicate ProductIdsDistinct(rows: seq<ProductRow>) {
    forall i, j :: 0 <= i < j < |rows| ==> rows[i].id != rows[j].id
  }

  class Database {
    var categories: seq<CategoryRow>
    var subcategories: seq<SubCategoryRow>
    var products: seq<ProductRow>
    var admins: seq<AdminRow>

    constructor ()
      ensures categories == [] && subcategories == [] && products == [] && admins == []
    {
      categories, subcategories, products, admins := [], [], [], [];
    }
  }
}

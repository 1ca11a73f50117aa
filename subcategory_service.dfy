/** `SubCategoryService`: the subcategories table read by `getAll` and
    `getById`, and changed by `create`, `update` and `delete`, which consult
    the categories and products tables first. */
module SubCategoryService {
  import opened Wrappers
  import Text
  import Seqs
  import opened Store
  import opened SubCategoryModel

  const NotFound := "Subcategory not found"
  const CategoryNotFound := "Category not found"

  /** The object both readers build from a row. */
  function View(row: SubCategoryRow): SubCategory {
    SubCategory(Some(row.id), Some(row.name), Some(row.categoryId),
      Text.OrElse(row.description, ""), row.createdAt, row.updatedAt)
  }

  /** `ORDER BY name`. */
  function ByName(): (SubCategoryRow, SubCategoryRow) -> bool {
    (a: SubCategoryRow, b: SubCategoryRow) => Text.NameLe(a.name, b.name)
  }

  lemma ByNameIsTotalPreorder()
    ensures Seqs.TotalPreorder(ByName())
  {
    forall a: SubCategoryRow, b: SubCategoryRow ensures ByName()(a, b) || ByName()(b, a) {
      Text.NameLeTotal(a.name, b.name);
    }
    forall a: SubCategoryRow, b: SubCategoryRow, c: SubCategoryRow | ByName()(a, b) && ByName()(b, c)
      ensures ByName()(a, c)
    {
      Text.NameLeTransitive(a.name, b.name, c.name);
    }
  }

  /** `WHERE category_id = $1`. */
  function OfCategory(categoryId: string): SubCategoryRow -> bool {
    (row: SubCategoryRow) => row.categoryId == categoryId
  }

  /** The rows `getAll(categoryId)` selects: those of that category when the
      argument is truthy, all of them otherwise. */
  function Selected(rows: seq<SubCategoryRow>, categoryId: Option<string>): seq<SubCategoryRow> {
    if Text.Truthy(categoryId)
    then Seqs.Filter(rows, OfCategory(categoryId.value))
    else rows
  }

  /** `getAll(categoryId)`: the selected rows, ordered by name. */
  function GetAll(rows: seq<SubCategoryRow>, categoryId: Option<string>): (r: seq<SubCategory>)
    ensures |r| <= |rows|
    ensures !Text.Truthy(categoryId) ==> |r| == |rows|
  {
    var sorted := Seqs.Sort(Selected(rows, categoryId), ByName());
    Seqs.SortPermutation(Selected(rows, categoryId), ByName());
    seq(|sorted|, i requires 0 <= i < |sorted| => View(sorted[i]))
  }

  /** With a category id, `getAll` lists every row of that category;
      without one, every row. */
  lemma GetAllListsSelected(rows: seq<SubCategoryRow>, categoryId: Option<string>)
    ensures forall row :: row in rows ==>
      (View(row) in GetAll(rows, categoryId) <== !Text.Truthy(categoryId) || row.categoryId == categoryId.value)
  {
    var sel := Selected(rows, categoryId);
    var sorted := Seqs.Sort(sel, ByName());
    var r := GetAll(rows, categoryId);
    var f := OfCategory(categoryId.GetOr(""));
    Seqs.SortPermutation(sel, ByName());
    forall row | row in rows && (!Text.Truthy(categoryId) || f(row)) ensures View(row) in r {
      if Text.Truthy(categoryId) {
        Seqs.FilterMembership(rows, f, row);
      }
      assert row in multiset(sorted);
      var i :| 0 <= i < |sorted| && sorted[i] == row;
      assert r[i] == View(row);
    }
  }

  /** A selected row is a row of the table, of the given category when
      there is one. */
  lemma SelectedFromRows(rows: seq<SubCategoryRow>, categoryId: Option<string>, row: SubCategoryRow)
    requires row in Selected(rows, categoryId)
    ensures row in rows && (Text.Truthy(categoryId) ==> row.categoryId == categoryId.value)
  {
    if Text.Truthy(categoryId) {
      Seqs.FilterMembership(rows, OfCategory(categoryId.value), row);
    }
  }

  /** Everything `getAll` lists comes from a row, of the given category
      when there is one. */
  lemma GetAllOnlySelected(rows: seq<SubCategoryRow>, categoryId: Option<string>)
    ensures forall i :: 0 <= i < |GetAll(rows, categoryId)| ==>
      exists row :: row in rows && GetAll(rows, categoryId)[i] == View(row)
        && (Text.Truthy(categoryId) ==> row.categoryId == categoryId.value)
  {
    var sel := Selected(rows, categoryId);
    var sorted := Seqs.Sort(sel, ByName());
    var r := GetAll(rows, categoryId);
    Seqs.SortPermutation(sel, ByName());
    forall i | 0 <= i < |r|
      ensures exists row :: (row in rows && r[i] == View(row)
        && (Text.Truthy(categoryId) ==> row.categoryId == categoryId.value))
    {
      var row := sorted[i];
      assert row in multiset(sel);
      SelectedFromRows(rows, categoryId, row);
      assert r[i] == View(row);
    }
  }

  /** `getAll` lists the subcategories in name order. */
  lemma GetAllByName(rows: seq<SubCategoryRow>, categoryId: Option<string>)
    ensures forall i, j :: 0 <= i < j < |GetAll(rows, categoryId)| ==>
      Text.NameLe(GetAll(rows, categoryId)[i].name.value, GetAll(rows, categoryId)[j].name.value)
  {
    var sel := Selected(rows, categoryId);
    var sorted := Seqs.Sort(sel, ByName());
    var r := GetAll(rows, categoryId);
    ByNameIsTotalPreorder();
    Seqs.SortSorted(sel, ByName());
    forall i, j | 0 <= i < j < |r| ensures Text.NameLe(r[i].name.value, r[j].name.value) {
      assert ByName()(sorted[i], sorted[j]);
    }
  }

  /** `getById(id)`: the row with that id, or `null`. */
  function GetById(rows: seq<SubCategoryRow>, id: string): (r: Option<SubCategory>)
    ensures r.None? <==> !HasSubCategory(rows, id)
    ensures r.Some? ==> exists k :: 0 <= k < |rows| && rows[k].id == id && r.value == View(rows[k])
  {
    match Seqs.FindIndex(rows, (row: SubCategoryRow) => row.id == id)
    case None => None
    case Some(k) => Some(View(rows[k]))
  }

  /** `SELECT id FROM categories WHERE id = $1` finds a row; an absent
      argument binds NULL, which matches nothing. */
  predicate CategoryExists(categories: seq<CategoryRow>, categoryId: Option<string>) {
    categoryId.Some? && HasCategory(categories, categoryId.value)
  }

  function RowOf(s: SubCategory): SubCategoryRow
    requires s.id.Some? && s.name.Some? && s.categoryId.Some?
  {
    SubCategoryRow(s.id.value, s.name.value, s.categoryId.value, Some(s.description), s.createdAt, s.updatedAt)
  }

  function IdFor(data: SubCategoryData, freshId: string): string {
    Text.OrElse(data.id, freshId)
  }

  /** `create(data)`: the category check comes before construction and
      validation. */
  function CreateOutcome(categories: seq<CategoryRow>, rows: seq<SubCategoryRow>,
                         data: SubCategoryData, freshId: string, now: string)
    : Change<SubCategoryData, SubCategoryRow>
  {
    if !CategoryExists(categories, data.categoryId) then Change(Err(CategoryNotFound), rows)
    else
      var sub := NewSubCategory(data.(id := Some(IdFor(data, freshId))), now);
      match Validate(sub)
      case Err(m) => Change(Err(m), rows)
      case Ok(_) =>
        if HasSubCategory(rows, IdFor(data, freshId)) then Change(Err(DuplicateKey), rows)
        else Change(Ok(ToJSON(sub)), rows + [RowOf(sub)])
  }

  method Create(db: Database, data: SubCategoryData, freshId: string, now: string)
    returns (r: Result<SubCategoryData>)
    modifies db
    ensures Change(r, db.subcategories) ==
      CreateOutcome(old(db.categories), old(db.subcategories), data, freshId, now)
    ensures db.categories == old(db.categories) && db.products == old(db.products)
    ensures db.admins == old(db.admins)
  {
    if !CategoryExists(db.categories, data.categoryId) {
      return Err(CategoryNotFound);
    }
    var sub := NewSubCategory(data.(id := Some(IdFor(data, freshId))), now);
    var valid := Validate(sub);
    if valid.Err? {
      return Err(valid.message);
    }
    if HasSubCategory(db.subcategories, sub.id.value) {
      return Err(DuplicateKey);
    }
    db.subcategories := db.subcategories + [RowOf(sub)];
    r := Ok(ToJSON(sub));
  }

  /** A missing category is reported before validation runs, even for data
      that would fail it; any failure leaves the table unchanged, and a
      success appends one row with the supplied or fresh id. */
  lemma CreateChecksCategoryFirst(categories: seq<CategoryRow>, rows: seq<SubCategoryRow>,
                                  data: SubCategoryData, freshId: string, now: string)
    ensures var o := CreateOutcome(categories, rows, data, freshId, now);
      && (!CategoryExists(categories, data.categoryId) ==> o.result == Err(CategoryNotFound))
      && (o.result.Err? ==> o.rows == rows)
      && (o.result.Ok? ==> o.rows == rows + [o.rows[|rows|]] && o.rows[|rows|].id == IdFor(data, freshId))
      && (o.result.Ok? ==> HasCategory(categories, o.rows[|rows|].categoryId))
      && (o.result.Ok? ==> o.result.value.id == Some(IdFor(data, freshId)))
  {
  }

  lemma CreateKeepsIdsDistinct(categories: seq<CategoryRow>, rows: seq<SubCategoryRow>,
                               data: SubCategoryData, freshId: string, now: string)
    requires SubCategoryIdsDistinct(rows)
    ensures SubCategoryIdsDistinct(CreateOutcome(categories, rows, data, freshId, now).rows)
  {
    var o := CreateOutcome(categories, rows, data, freshId, now);
    if o.result.Ok? {
      forall i, j | 0 <= i < j < |o.rows| ensures o.rows[i].id != o.rows[j].id {
        if j == |rows| {
          assert o.rows[i] == rows[i];
        } else {
          assert o.rows[i] == rows[i] && o.rows[j] == rows[j];
        }
      }
    }
  }

  /** `{ ...existing, ...patch, id: existing.id, updatedAt: now }`. */
  function Merge(existing: SubCategory, patch: SubCategoryData, now: string): SubCategoryData {
    SubCategoryData(
      existing.id,
      Spread(existing.name, patch.name),
      Spread(existing.categoryId, patch.categoryId),
      Spread(Some(existing.description), patch.description),
      Spread(Some(existing.createdAt), patch.createdAt),
      Some(now))
  }

  /** The UPDATE statement: name, `category_id`, description and
      `updated_at` of every row with the id. */
  function Rewrite(rows: seq<SubCategoryRow>, id: string, s: SubCategory): (r: seq<SubCategoryRow>)
    requires s.name.Some? && s.categoryId.Some?
    ensures |r| == |rows|
  {
    seq(|rows|, k requires 0 <= k < |rows| =>
      if rows[k].id == id
      then rows[k].(name := s.name.value, categoryId := s.categoryId.value,
                    description := Some(s.description), updatedAt := s.updatedAt)
      else rows[k])
  }

  /** `update(id, patch)` at time `now`. */
  function UpdateOutcome(categories: seq<CategoryRow>, rows: seq<SubCategoryRow>,
                         id: string, patch: SubCategoryData, now: string)
    : Change<SubCategoryData, SubCategoryRow>
  {
    match GetById(rows, id)
    case None => Change(Err(NotFound), rows)
    case Some(existing) =>
      if Text.Truthy(patch.categoryId) && !CategoryExists(categories, patch.categoryId)
      then Change(Err(CategoryNotFound), rows)
      else
        var sub := NewSubCategory(Merge(existing, patch, now), now);
        match Validate(sub)
        case Err(m) => Change(Err(m), rows)
        case Ok(_) => Change(Ok(ToJSON(sub)), Rewrite(rows, id, sub))
  }

  method Update(db: Database, id: string, patch: SubCategoryData, now: string)
    returns (r: Result<SubCategoryData>)
    modifies db
    ensures Change(r, db.subcategories) ==
      UpdateOutcome(old(db.categories), old(db.subcategories), id, patch, now)
    ensures db.categories == old(db.categories) && db.products == old(db.products)
    ensures db.admins == old(db.admins)
  {
    var existing := GetById(db.subcategories, id);
    if existing.None? {
      return Err(NotFound);
    }
    if Text.Truthy(patch.categoryId) && !CategoryExists(db.categories, patch.categoryId) {
      return Err(CategoryNotFound);
    }
    var sub := NewSubCategory(Merge(existing.value, patch, now), now);
    var valid := Validate(sub);
    if valid.Err? {
      return Err(valid.message);
    }
    db.subcategories := Rewrite(db.subcategories, id, sub);
    r := Ok(ToJSON(sub));
  }

  /** The category is looked up only when the patch supplies a truthy
      category id; an unknown subcategory is reported first. */
  lemma UpdateChecksCategoryOnlyWhenGiven(categories: seq<CategoryRow>, rows: seq<SubCategoryRow>,
                                          id: string, patch: SubCategoryData, now: string)
    ensures !HasSubCategory(rows, id) ==>
      UpdateOutcome(categories, rows, id, patch, now) == Change(Err(NotFound), rows)
    ensures HasSubCategory(rows, id) && Text.Truthy(patch.categoryId) && !CategoryExists(categories, patch.categoryId) ==>
      UpdateOutcome(categories, rows, id, patch, now) == Change(Err(CategoryNotFound), rows)
    ensures !Text.Truthy(patch.categoryId) ==>
      UpdateOutcome(categories, rows, id, patch, now) == UpdateOutcome([], rows, id, patch, now)
  {
  }

  /** A successful update keeps the id, takes the patch's properties over
      the existing ones and stamps `updatedAt`; in the table only the rows
      with that id change, keeping their id and `created_at`. */
  lemma UpdateMergesPatch(categories: seq<CategoryRow>, rows: seq<SubCategoryRow>,
                          id: string, patch: SubCategoryData, now: string)
    requires UpdateOutcome(categories, rows, id, patch, now).result.Ok?
    requires now != []
    ensures HasSubCategory(rows, id)
    ensures var o := UpdateOutcome(categories, rows, id, patch, now);
      var existing := GetById(rows, id).value;
      && o.result.value.id == Some(id)
      && o.result.value.name == Spread(existing.name, patch.name)
      && o.result.value.categoryId == Spread(existing.categoryId, patch.categoryId)
      && o.result.value.description == Spread(Some(existing.description), patch.description)
      && (Text.Truthy(patch.createdAt) ==> o.result.value.createdAt == patch.createdAt)
      && (patch.createdAt.None? && existing.createdAt != [] ==> o.result.value.createdAt == Some(existing.createdAt))
      && (!Text.Truthy(Spread(Some(existing.createdAt), patch.createdAt)) ==> o.result.value.createdAt == Some(now))
      && o.result.value.updatedAt == Some(now)
      && |o.rows| == |rows|
      && (forall k :: 0 <= k < |rows| && rows[k].id != id ==> o.rows[k] == rows[k])
      && (forall k :: 0 <= k < |rows| ==> o.rows[k].id == rows[k].id && o.rows[k].createdAt == rows[k].createdAt)
      && (forall k :: 0 <= k < |rows| && rows[k].id == id ==>
            Some(o.rows[k].categoryId) == o.result.value.categoryId && o.rows[k].updatedAt == now)
  {
  }

  /** A failed update writes nothing. */
  lemma UpdateFailureWritesNothing(categories: seq<CategoryRow>, rows: seq<SubCategoryRow>,
                                   id: string, patch: SubCategoryData, now: string)
    requires UpdateOutcome(categories, rows, id, patch, now).result.Err?
    ensures UpdateOutcome(categories, rows, id, patch, now).rows == rows
  {
  }

  lemma UpdateKeepsIdsDistinct(categories: seq<CategoryRow>, rows: seq<SubCategoryRow>,
                               id: string, patch: SubCategoryData, now: string)
    requires SubCategoryIdsDistinct(rows)
    ensures SubCategoryIdsDistinct(UpdateOutcome(categories, rows, id, patch, now).rows)
  {
    var o := UpdateOutcome(categories, rows, id, patch, now);
    assert forall k :: 0 <= k < |rows| ==> o.rows[k].id == rows[k].id;
  }

  /** `SELECT COUNT(*) FROM products WHERE sub_category = $1`. */
  function DependentProducts(products: seq<ProductRow>, id: string): nat {
    |Seqs.Filter(products, (p: ProductRow) => p.subCategory == id)|
  }

  function InUse(n: nat): string {
    "Cannot delete subcategory: " + Text.NatToString(n) + " product(s) are using it"
  }

  /** `delete(id)`. */
  function DeleteOutcome(rows: seq<SubCategoryRow>, products: seq<ProductRow>, id: string)
    : Change<bool, SubCategoryRow>
  {
    var n := DependentProducts(products, id);
    if n > 0 then Change(Err(InUse(n)), rows)
    else
      var remaining := Seqs.Filter(rows, (row: SubCategoryRow) => row.id != id);
      if |remaining| == |rows| then Change(Err(NotFound), rows)
      else Change(Ok(true), remaining)
  }

  method Delete(db: Database, id: string) returns (r: Result<bool>)
    modifies db
    ensures Change(r, db.subcategories) == DeleteOutcome(old(db.subcategories), old(db.products), id)
    ensures db.categories == old(db.categories) && db.products == old(db.products)
    ensures db.admins == old(db.admins)
  {
    var n := DependentProducts(db.products, id);
    if n > 0 {
      return Err(InUse(n));
    }
    var remaining := Seqs.Filter(db.subcategories, (row: SubCategoryRow) => row.id != id);
    var removed := |db.subcategories| - |remaining|;
    if removed == 0 {
      return Err(NotFound);
    }
    db.subcategories := remaining;
    r := Ok(true);
  }

  /** A subcategory some product refers to cannot be deleted. */
  lemma DeleteBlockedByProducts(rows: seq<SubCategoryRow>, products: seq<ProductRow>, id: string, k: nat)
    requires k < |products| && products[k].subCategory == id
    ensures DependentProducts(products, id) > 0
    ensures DeleteOutcome(rows, products, id) == Change(Err(InUse(DependentProducts(products, id))), rows)
  {
    Seqs.FilterMembership(products, (p: ProductRow) => p.subCategory == id, products[k]);
  }

  /** With no dependent products, deleting fails with `'Subcategory not
      found'` when no row has the id, and otherwise removes exactly the rows
      with that id. */
  lemma DeleteRemovesExactlyThatRow(rows: seq<SubCategoryRow>, products: seq<ProductRow>, id: string)
    requires DependentProducts(products, id) == 0
    ensures var o := DeleteOutcome(rows, products, id);
      && (!HasSubCategory(rows, id) ==> o == Change(Err(NotFound), rows))
      && (HasSubCategory(rows, id) ==> o.result == Ok(true))
      && (forall row :: row in o.rows <==> row in rows && (o.result.Ok? ==> row.id != id))
      && (o.result.Ok? && SubCategoryIdsDistinct(rows) ==> |o.rows| == |rows| - 1)
  {
    var f := (row: SubCategoryRow) => row.id != id;
    var remaining := Seqs.Filter(rows, f);
    Seqs.FilterShrinks(rows, f);
    forall row ensures row in remaining <==> row in rows && f(row) {
      Seqs.FilterMembership(rows, f, row);
    }
    if HasSubCategory(rows, id) {
      var k :| 0 <= k < |rows| && rows[k].id == id;
      if SubCategoryIdsDistinct(rows) {
        OneRowWithId(rows, id, k);
      }
    }
  }

  lemma OneRowWithId(rows: seq<SubCategoryRow>, id: string, k: nat)
    requires SubCategoryIdsDistinct(rows) && k < |rows| && rows[k].id == id
    ensures |Seqs.Filter(rows, (row: SubCategoryRow) => row.id != id)| == |rows| - 1
  {
    var f := (row: SubCategoryRow) => row.id != id;
    assert rows == rows[..k] + [rows[k]] + rows[k + 1..];
    Seqs.FilterConcat(rows[..k] + [rows[k]], rows[k + 1..], f);
    Seqs.FilterConcat(rows[..k], [rows[k]], f);
    Seqs.FilterAll(rows[..k], f);
    Seqs.FilterAll(rows[k + 1..], f);
    assert Seqs.Filter([rows[k]], f) == [];
  }

  lemma InUseSaysCannotDelete(n: nat)
    ensures Text.Contains(InUse(n), "Cannot delete")
    ensures InUse(n) != NotFound
  {
    assert "Cannot delete" <= InUse(n)[0..];
  }
}

/** `CategoryService`: the categories table seen through `getAll` and
    `getById`, and changed by `create`, `update` and `delete`. */
module CategoryService {
  import opened Wrappers
  import Text
  import Seqs
  import opened Store
  import opened CategoryModel

  const NotFound := "Category not found"

  /** The object both readers build from a row: a missing description or
      image reads as `''`. */
  function View(row: CategoryRow): Category {
    Category(Some(row.id), Some(row.name), Text.OrElse(row.description, ""),
      Text.OrElse(row.image, ""), row.createdAt, row.updatedAt)
  }

  /** `ORDER BY name`. */
  function ByName(): (CategoryRow, CategoryRow) -> bool {
    (a: CategoryRow, b: CategoryRow) => Text.NameLe(a.name, b.name)
  }

  lemma ByNameIsTotalPreorder()
    ensures Seqs.TotalPreorder(ByName())
  {
    forall a: CategoryRow, b: CategoryRow ensures ByName()(a, b) || ByName()(b, a) {
      Text.NameLeTotal(a.name, b.name);
    }
    forall a: CategoryRow, b: CategoryRow, c: CategoryRow | ByName()(a, b) && ByName()(b, c)
      ensures ByName()(a, c)
    {
      Text.NameLeTransitive(a.name, b.name, c.name);
    }
  }

  /** `getAll()`: every row, ordered by name. */
  function GetAll(rows: seq<CategoryRow>): (r: seq<Category>)
    ensures |r| == |rows|
  {
    var sorted := Seqs.Sort(rows, ByName());
    Seqs.SortPermutation(rows, ByName());
    seq(|sorted|, i requires 0 <= i < |sorted| => View(sorted[i]))
  }

  /** Everything `getAll` lists comes from a row of the table. */
  lemma GetAllFromRows(rows: seq<CategoryRow>)
    ensures forall i :: 0 <= i < |GetAll(rows)| ==>
      exists k :: 0 <= k < |rows| && GetAll(rows)[i] == View(rows[k])
  {
    var sorted := Seqs.Sort(rows, ByName());
    var r := GetAll(rows);
    Seqs.SortPermutation(rows, ByName());
    forall i | 0 <= i < |r| ensures exists k :: 0 <= k < |rows| && r[i] == View(rows[k]) {
      assert sorted[i] in multiset(rows);
      var k :| 0 <= k < |rows| && rows[k] == sorted[i];
    }
  }

  /** `getAll` lists every row of the table. */
  lemma GetAllListsEveryRow(rows: seq<CategoryRow>)
    ensures forall k :: 0 <= k < |rows| ==> View(rows[k]) in GetAll(rows)
  {
    var sorted := Seqs.Sort(rows, ByName());
    var r := GetAll(rows);
    Seqs.SortPermutation(rows, ByName());
    forall k | 0 <= k < |rows| ensures View(rows[k]) in r {
      assert rows[k] in multiset(sorted);
      var i :| 0 <= i < |sorted| && sorted[i] == rows[k];
      assert r[i] == View(rows[k]);
    }
  }

  /** `getAll` lists the categories in name order. */
  lemma GetAllByName(rows: seq<CategoryRow>)
    ensures forall i, j :: 0 <= i < j < |GetAll(rows)| ==>
      GetAll(rows)[i].name.Some? && Text.NameLe(GetAll(rows)[i].name.value, GetAll(rows)[j].name.value)
  {
    var sorted := Seqs.Sort(rows, ByName());
    var r := GetAll(rows);
    ByNameIsTotalPreorder();
    Seqs.SortSorted(rows, ByName());
    forall i, j | 0 <= i < j < |r| ensures Text.NameLe(r[i].name.value, r[j].name.value) {
      assert ByName()(sorted[i], sorted[j]);
    }
  }

  /** `getById(id)`: the row with that id, or `null`. */
  function GetById(rows: seq<CategoryRow>, id: string): (r: Option<Category>)
    ensures r.None? <==> !HasCategory(rows, id)
    ensures r.Some? ==> exists k :: 0 <= k < |rows| && rows[k].id == id && r.value == View(rows[k])
  {
    match Seqs.FindIndex(rows, (row: CategoryRow) => row.id == id)
    case None => None
    case Some(k) => Some(View(rows[k]))
  }

  /** The row `create` inserts for a validated category. */
  function RowOf(c: Category): CategoryRow
    requires c.id.Some? && c.name.Some?
  {
    CategoryRow(c.id.value, c.name.value, Some(c.description), Some(c.image), c.createdAt, c.updatedAt)
  }

  /** The id `create` uses: the supplied one when truthy, else a fresh one. */
  function IdFor(data: CategoryData, freshId: string): string {
    Text.OrElse(data.id, freshId)
  }

  /** `create(data)`, with `freshId` the value `uuidv4()` would return. */
  function CreateOutcome(rows: seq<CategoryRow>, data: CategoryData, freshId: string, now: string)
    : Change<CategoryData, CategoryRow>
  {
    var category := NewCategory(data.(id := Some(IdFor(data, freshId))), now);
    match Validate(category)
    case Err(m) => Change(Err(m), rows)
    case Ok(_) =>
      if HasCategory(rows, IdFor(data, freshId)) then Change(Err(DuplicateKey), rows)
      else Change(Ok(ToJSON(category)), rows + [RowOf(category)])
  }

  method Create(db: Database, data: CategoryData, freshId: string, now: string)
    returns (r: Result<CategoryData>)
    modifies db
    ensures Change(r, db.categories) == CreateOutcome(old(db.categories), data, freshId, now)
    ensures db.subcategories == old(db.subcategories) && db.products == old(db.products)
    ensures db.admins == old(db.admins)
  {
    var category := NewCategory(data.(id := Some(IdFor(data, freshId))), now);
    var valid := Validate(category);
    if valid.Err? {
      return Err(valid.message);
    }
    if HasCategory(db.categories, category.id.value) {
      return Err(DuplicateKey);
    }
    db.categories := db.categories + [RowOf(category)];
    r := Ok(ToJSON(category));
  }

  /** `create` either fails and leaves the table as it was, or appends one
      row carrying the supplied id (or the fresh one) and the validated
      fields; a failed validation reports the validation message. */
  lemma CreateAppendsOneRow(rows: seq<CategoryRow>, data: CategoryData, freshId: string, now: string)
    ensures var o := CreateOutcome(rows, data, freshId, now);
      && (o.result.Err? ==> o.rows == rows)
      && (o.result.Ok? ==> |o.rows| == |rows| + 1 && o.rows[..|rows|] == rows)
      && (o.result.Ok? ==> o.result.value.id == Some(IdFor(data, freshId)))
      && (o.result.Ok? ==> o.rows[|rows|].id == IdFor(data, freshId) && Some(o.rows[|rows|].name) == data.name)
      && (o.result.Ok? ==> data.name.Some? && !Text.AllSpace(data.name.value))
      && (Validate(NewCategory(data, now)).Err? ==> o.result == Err(NameRequired))
  {
    var category := NewCategory(data.(id := Some(IdFor(data, freshId))), now);
    assert category.name == NewCategory(data, now).name;
  }

  /** The id chosen by `create` is the one supplied when it is truthy. */
  lemma CreateKeepsSuppliedId(data: CategoryData, freshId: string)
    ensures Text.Truthy(data.id) ==> IdFor(data, freshId) == data.id.value
    ensures !Text.Truthy(data.id) ==> IdFor(data, freshId) == freshId
  {
  }

  /** After a successful `create`, `getById` of the new id reads back the
      record `create` returned. */
  lemma CreateThenGetById(rows: seq<CategoryRow>, data: CategoryData, freshId: string, now: string)
    requires CreateOutcome(rows, data, freshId, now).result.Ok?
    ensures var o := CreateOutcome(rows, data, freshId, now);
      GetById(o.rows, IdFor(data, freshId)).Some?
      && ToJSON(GetById(o.rows, IdFor(data, freshId)).value) == o.result.value
  {
    var o := CreateOutcome(rows, data, freshId, now);
    var id := IdFor(data, freshId);
    var category := NewCategory(data.(id := Some(id)), now);
    assert !HasCategory(rows, id);
    var k :| 0 <= k < |o.rows| && o.rows[k].id == id && GetById(o.rows, id).value == View(o.rows[k]);
    assert k == |rows|;
  }

  lemma CreateKeepsIdsDistinct(rows: seq<CategoryRow>, data: CategoryData, freshId: string, now: string)
    requires CategoryIdsDistinct(rows)
    ensures CategoryIdsDistinct(CreateOutcome(rows, data, freshId, now).rows)
  {
    var o := CreateOutcome(rows, data, freshId, now);
    if o.result.Ok? {
      forall i, j | 0 <= i < j < |o.rows| ensures o.rows[i].id != o.rows[j].id {
        if j == |rows| {
          assert o.rows[i] == rows[i];
        } else {
          assert o.rows[i] == rows[i] && o.rows[j] == rows[j];
        }
      }
    }
  }

  /** `{ ...existing, ...patch, id: existing.id, updatedAt: now }`. */
  function Merge(existing: Category, patch: CategoryData, now: string): CategoryData {
    CategoryData(
      existing.id,
      Spread(existing.name, patch.name),
      Spread(Some(existing.description), patch.description),
      Spread(Some(existing.image), patch.image),
      Spread(Some(existing.createdAt), patch.createdAt),
      Some(now))
  }

  /** The UPDATE statement: every row with the id gets the new name,
      description, image and `updated_at`; `created_at` is not written. */
  function Rewrite(rows: seq<CategoryRow>, id: string, c: Category): (r: seq<CategoryRow>)
    requires c.name.Some?
    ensures |r| == |rows|
  {
    seq(|rows|, k requires 0 <= k < |rows| =>
      if rows[k].id == id
      then rows[k].(name := c.name.value, description := Some(c.description),
                    image := Some(c.image), updatedAt := c.updatedAt)
      else rows[k])
  }

  /** `update(id, patch)` at time `now`. */
  function UpdateOutcome(rows: seq<CategoryRow>, id: string, patch: CategoryData, now: string)
    : Change<CategoryData, CategoryRow>
  {
    match GetById(rows, id)
    case None => Change(Err(NotFound), rows)
    case Some(existing) =>
      var category := NewCategory(Merge(existing, patch, now), now);
      match Validate(category)
      case Err(m) => Change(Err(m), rows)
      case Ok(_) => Change(Ok(ToJSON(category)), Rewrite(rows, id, category))
  }

  method Update(db: Database, id: string, patch: CategoryData, now: string)
    returns (r: Result<CategoryData>)
    modifies db
    ensures Change(r, db.categories) == UpdateOutcome(old(db.categories), id, patch, now)
    ensures db.subcategories == old(db.subcategories) && db.products == old(db.products)
    ensures db.admins == old(db.admins)
  {
    var existing := GetById(db.categories, id);
    if existing.None? {
      return Err(NotFound);
    }
    var category := NewCategory(Merge(existing.value, patch, now), now);
    var valid := Validate(category);
    if valid.Err? {
      return Err(valid.message);
    }
    db.categories := Rewrite(db.categories, id, category);
    r := Ok(ToJSON(category));
  }

  /** An unknown id fails with `'Category not found'` and writes nothing. */
  lemma UpdateUnknownId(rows: seq<CategoryRow>, id: string, patch: CategoryData, now: string)
    requires !HasCategory(rows, id)
    ensures UpdateOutcome(rows, id, patch, now) == Change(Err(NotFound), rows)
  {
  }

  /** A successful update keeps the existing id, takes every property the
      patch supplies and the existing value of every other, and stamps
      `updatedAt` with `now`; the constructor's `||` turns an empty
      `createdAt` into `now`. */
  lemma UpdateMergesPatch(rows: seq<CategoryRow>, id: string, patch: CategoryData, now: string)
    requires UpdateOutcome(rows, id, patch, now).result.Ok?
    requires now != []
    ensures HasCategory(rows, id)
    ensures var r := UpdateOutcome(rows, id, patch, now).result.value;
      var existing := GetById(rows, id).value;
      && r.id == Some(id)
      && r.name == Spread(existing.name, patch.name)
      && r.description == Spread(Some(existing.description), patch.description)
      && r.image == Spread(Some(existing.image), patch.image)
      && (Text.Truthy(patch.createdAt) ==> r.createdAt == patch.createdAt)
      && (patch.createdAt.None? && existing.createdAt != [] ==> r.createdAt == Some(existing.createdAt))
      && (!Text.Truthy(Spread(Some(existing.createdAt), patch.createdAt)) ==> r.createdAt == Some(now))
      && r.updatedAt == Some(now)
  {
  }

  /** In the table, a successful update rewrites the rows with that id and
      no other, keeping their id and `created_at`; a failed one writes nothing. */
  lemma UpdateRewritesOnlyThatRow(rows: seq<CategoryRow>, id: string, patch: CategoryData, now: string)
    ensures var o := UpdateOutcome(rows, id, patch, now);
      && (o.result.Err? ==> o.rows == rows)
      && |o.rows| == |rows|
      && (forall k :: 0 <= k < |rows| && rows[k].id != id ==> o.rows[k] == rows[k])
      && (forall k :: 0 <= k < |rows| ==> o.rows[k].id == rows[k].id && o.rows[k].createdAt == rows[k].createdAt)
      && (o.result.Ok? ==> forall k :: 0 <= k < |rows| && rows[k].id == id ==>
            Some(o.rows[k].name) == o.result.value.name && o.rows[k].updatedAt == now)
  {
  }

  lemma UpdateKeepsIdsDistinct(rows: seq<CategoryRow>, id: string, patch: CategoryData, now: string)
    requires CategoryIdsDistinct(rows)
    ensures CategoryIdsDistinct(UpdateOutcome(rows, id, patch, now).rows)
  {
    UpdateRewritesOnlyThatRow(rows, id, patch, now);
  }

  /** `SELECT COUNT(*) FROM products WHERE category = $1`. */
  function DependentProducts(products: seq<ProductRow>, id: string): nat {
    |Seqs.Filter(products, (p: ProductRow) => p.category == id)|
  }

  function InUse(n: nat): string {
    "Cannot delete category: " + Text.NatToString(n) + " product(s) are using it"
  }

  /** `delete(id)`. */
  function DeleteOutcome(rows: seq<CategoryRow>, products: seq<ProductRow>, id: string)
    : Change<bool, CategoryRow>
  {
    var n := DependentProducts(products, id);
    if n > 0 then Change(Err(InUse(n)), rows)
    else
      var remaining := Seqs.Filter(rows, (row: CategoryRow) => row.id != id);
      if |remaining| == |rows| then Change(Err(NotFound), rows)
      else Change(Ok(true), remaining)
  }

  method Delete(db: Database, id: string) returns (r: Result<bool>)
    modifies db
    ensures Change(r, db.categories) == DeleteOutcome(old(db.categories), old(db.products), id)
    ensures db.subcategories == old(db.subcategories) && db.products == old(db.products)
    ensures db.admins == old(db.admins)
  {
    var n := DependentProducts(db.products, id);
    if n > 0 {
      return Err(InUse(n));
    }
    var remaining := Seqs.Filter(db.categories, (row: CategoryRow) => row.id != id);
    var removed := |db.categories| - |remaining|;
    if removed == 0 {
      return Err(NotFound);
    }
    db.categories := remaining;
    r := Ok(true);
  }

  /** A category some product refers to cannot be deleted: the message
      carries the number of such products and the table is unchanged. */
  lemma DeleteBlockedByProducts(rows: seq<CategoryRow>, products: seq<ProductRow>, id: string, k: nat)
    requires k < |products| && products[k].category == id
    ensures DependentProducts(products, id) > 0
    ensures DeleteOutcome(rows, products, id) == Change(Err(InUse(DependentProducts(products, id))), rows)
  {
    Seqs.FilterMembership(products, (p: ProductRow) => p.category == id, products[k]);
  }

  /** With no dependent products, deleting fails with `'Category not found'`
      when no row has the id, and otherwise removes exactly the rows with
      that id. */
  lemma DeleteRemovesExactlyThatRow(rows: seq<CategoryRow>, products: seq<ProductRow>, id: string)
    requires DependentProducts(products, id) == 0
    ensures var o := DeleteOutcome(rows, products, id);
      && (!HasCategory(rows, id) ==> o == Change(Err(NotFound), rows))
      && (HasCategory(rows, id) ==> o.result == Ok(true))
      && (forall row :: row in o.rows <==> row in rows && (o.result.Ok? ==> row.id != id))
      && (o.result.Ok? && CategoryIdsDistinct(rows) ==> |o.rows| == |rows| - 1)
  {
    var f := (row: CategoryRow) => row.id != id;
    var remaining := Seqs.Filter(rows, f);
    Seqs.FilterShrinks(rows, f);
    forall row ensures row in remaining <==> row in rows && f(row) {
      Seqs.FilterMembership(rows, f, row);
    }
    if HasCategory(rows, id) {
      var k :| 0 <= k < |rows| && rows[k].id == id;
      if CategoryIdsDistinct(rows) {
        OneRowWithId(rows, id, k);
      }
    }
  }

  /** With distinct ids, removing the rows with one present id removes one row. */
  lemma OneRowWithId(rows: seq<CategoryRow>, id: string, k: nat)
    requires CategoryIdsDistinct(rows) && k < |rows| && rows[k].id == id
    ensures |Seqs.Filter(rows, (row: CategoryRow) => row.id != id)| == |rows| - 1
  {
    var f := (row: CategoryRow) => row.id != id;
    assert rows == rows[..k] + [rows[k]] + rows[k + 1..];
    Seqs.FilterConcat(rows[..k] + [rows[k]], rows[k + 1..], f);
    Seqs.FilterConcat(rows[..k], [rows[k]], f);
    Seqs.FilterAll(rows[..k], f);
    Seqs.FilterAll(rows[k + 1..], f);
    assert Seqs.Filter([rows[k]], f) == [];
  }

  /** The message of a blocked delete is one the admin controller reports
      as 400: it contains `'Cannot delete'`. */
  lemma InUseSaysCannotDelete(n: nat)
    ensures Text.Contains(InUse(n), "Cannot delete")
    ensures InUse(n) != NotFound
  {
    assert "Cannot delete" <= InUse(n)[0..];
  }
}

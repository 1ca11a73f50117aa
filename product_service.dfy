/** The rest of `ProductService`: `getById`, `create`, `update`, `delete`
    over the products table, and the distinct `getTypes` / `getUsages`. */
module ProductService {
  import opened Wrappers
  import Text
  import Seqs
  import opened Catalog
  import opened Store
  import ProductModel
  import ProductFilters

  const NotFound := "Product not found"

  /** The static fixture as `getById` returns it: `images` falls back to
      `[image]` and then `[]`, and `isStatic` is `true`. */
  function StaticView(p: CatalogProduct): CatalogProduct {
    p.(images := Some(if p.images.Some? then p.images.value else if p.image != [] then [p.image] else []),
       isStatic := Some(true))
  }

  function HasId(id: string): CatalogProduct -> bool {
    (p: CatalogProduct) => p.id == id
  }

  function RowHasId(id: string): ProductRow -> bool {
    (row: ProductRow) => row.id == id
  }

  /** `getById(id)`: the static fixture with that id when there is one, without
      consulting the table; else the first row with that id; else `null`. */
  function GetById(rows: seq<ProductRow>, statics: seq<CatalogProduct>, id: string): Option<CatalogProduct> {
    match Seqs.Find(statics, HasId(id))
    case Some(p) => Some(StaticView(p))
    case None =>
      match Seqs.Find(rows, RowHasId(id))
      case Some(row) => Some(ProductFilters.RowView(row))
      case None => None
  }

  /** A static id is answered from the fixtures, whatever the table holds. */
  lemma GetByIdStaticFirst(rows: seq<ProductRow>, statics: seq<CatalogProduct>, id: string, k: nat)
    requires k < |statics| && statics[k].id == id
    ensures GetById(rows, statics, id).Some?
    ensures GetById(rows, statics, id).value.isStatic == Some(true)
    ensures GetById(rows, statics, id).value.id == id
    ensures forall other :: GetById(other, statics, id) == GetById(rows, statics, id)
  {
    Seqs.FindFirst(statics, HasId(id));
    assert statics[k] in statics;
  }

  /** `null` exactly when neither the fixtures nor the table hold the id;
      otherwise the record carries that id. */
  lemma GetByIdNone(rows: seq<ProductRow>, statics: seq<CatalogProduct>, id: string)
    ensures GetById(rows, statics, id).None? <==>
      (forall p :: p in statics ==> p.id != id) && !HasProduct(rows, id)
    ensures GetById(rows, statics, id).Some? ==> GetById(rows, statics, id).value.id == id
  {
    Seqs.FindFirst(statics, HasId(id));
    Seqs.FindFirst(rows, RowHasId(id));
    if HasProduct(rows, id) {
      var k :| 0 <= k < |rows| && rows[k].id == id;
      assert rows[k] in rows;
    }
    if Seqs.Find(rows, RowHasId(id)).None? {
      forall k | 0 <= k < |rows| ensures rows[k].id != id {
        assert rows[k] in rows;
      }
    }
  }

  /** A product read from the table is marked non-static, and its `images`
      are `attributes.images`, else `[image]`, else `[]`. */
  lemma GetByIdFromTable(rows: seq<ProductRow>, statics: seq<CatalogProduct>, id: string)
    requires forall p :: p in statics ==> p.id != id
    requires GetById(rows, statics, id).Some?
    ensures var p := GetById(rows, statics, id).value;
      && p.isStatic == Some(false)
      && exists row :: row in rows && row.id == id && p.images == Some(ProductFilters.ImagesOf(row.attributes, row.image))
  {
    Seqs.FindFirst(statics, HasId(id));
    Seqs.FindFirst(rows, RowHasId(id));
  }

  /** The columns written for a constructed product. */
  function RowOf(p: ProductModel.Product): ProductRow {
    ProductRow(p.id.GetOr(""), p.name.GetOr(""), p.category.GetOr(""), p.subCategory.GetOr(""),
      p.description.GetOr(""), p.image.GetOr(""),
      (match p.price case Number(n) => n case PriceText(_) => 0),
      p.inStock, p.attributes, p.createdAt, p.updatedAt)
  }

  /** The id `create` uses: the supplied one when truthy, else a fresh one. */
  function IdFor(data: ProductModel.ProductData, freshId: string): string {
    Text.OrElse(data.id, freshId)
  }

  /** `create(data)`, with `freshId` the value `uuidv4()` would return. */
  function CreateOutcome(rows: seq<ProductRow>, data: ProductModel.ProductData, freshId: string, now: string)
    : Change<ProductModel.ProductData, ProductRow>
  {
    var product := ProductModel.NewProduct(data.(id := Some(IdFor(data, freshId))), now);
    match ProductModel.Validate(product)
    case Err(m) => Change(Err(m), rows)
    case Ok(_) =>
      if HasProduct(rows, IdFor(data, freshId)) then Change(Err(DuplicateKey), rows)
      else Change(Ok(ProductModel.ToJSON(product)), rows + [RowOf(product)])
  }

  method Create(db: Database, data: ProductModel.ProductData, freshId: string, now: string)
    returns (r: Result<ProductModel.ProductData>)
    modifies db
    ensures Change(r, db.products) == CreateOutcome(old(db.products), data, freshId, now)
    ensures db.categories == old(db.categories) && db.subcategories == old(db.subcategories)
    ensures db.admins == old(db.admins)
  {
    var product := ProductModel.NewProduct(data.(id := Some(IdFor(data, freshId))), now);
    var valid := ProductModel.Validate(product);
    if valid.Err? {
      return Err(valid.message);
    }
    if HasProduct(db.products, product.id.value) {
      return Err(DuplicateKey);
    }
    db.products := db.products + [RowOf(product)];
    r := Ok(ProductModel.ToJSON(product));
  }

  /** `create` either fails and leaves the table as it was, or appends one
      valid row carrying the supplied id (or the fresh one). */
  lemma CreateAppendsOneRow(rows: seq<ProductRow>, data: ProductModel.ProductData, freshId: string, now: string)
    ensures var o := CreateOutcome(rows, data, freshId, now);
      && (o.result.Err? ==> o.rows == rows)
      && (o.result.Ok? ==> o.rows == rows + [o.rows[|rows|]] && o.rows[|rows|].id == IdFor(data, freshId))
      && (o.result.Ok? ==> o.result.value.id == Some(IdFor(data, freshId)))
      && (o.result.Ok? ==> ProductModel.IsValid(ProductModel.NewProduct(data, now)))
      && (o.result.Ok? ==> o.rows[|rows|].price >= 0)
  {
    var product := ProductModel.NewProduct(data.(id := Some(IdFor(data, freshId))), now);
    var plain := ProductModel.NewProduct(data, now);
    forall r: ProductModel.Rule ensures ProductModel.Violates(product, r) == ProductModel.Violates(plain, r) {
    }
  }

  /** `{ ...existing, ...patch, id: existing.id, updatedAt: now }`, seen by
      the eleven properties the constructor reads. */
  function Merge(existing: CatalogProduct, patch: ProductModel.ProductData, now: string): ProductModel.ProductData {
    ProductModel.ProductData(
      Some(existing.id),
      Spread(Some(existing.name), patch.name),
      Spread(Some(existing.category), patch.category),
      Spread(Some(existing.subCategory), patch.subCategory),
      Spread(Some(existing.description), patch.description),
      Spread(Some(existing.image), patch.image),
      Spread(Some(ProductModel.Number(existing.price)), patch.price),
      Spread(Some(existing.inStock), patch.inStock),
      Spread(Some(existing.attributes), patch.attributes),
      Spread(Some(existing.createdAt), patch.createdAt),
      Some(now))
  }

  /** The UPDATE statement: every row with the id gets the new columns and
      `updated_at`; `created_at` is not written. */
  function Rewrite(rows: seq<ProductRow>, id: string, p: ProductModel.Product): (r: seq<ProductRow>)
    ensures |r| == |rows|
  {
    var written := RowOf(p);
    seq(|rows|, k requires 0 <= k < |rows| =>
      if rows[k].id == id
      then rows[k].(name := written.name, category := written.category, subCategory := written.subCategory,
                    description := written.description, image := written.image, price := written.price,
                    inStock := written.inStock, attributes := written.attributes, updatedAt := written.updatedAt)
      else rows[k])
  }

  /** `update(id, patch)` at time `now`. */
  function UpdateOutcome(rows: seq<ProductRow>, statics: seq<CatalogProduct>, id: string,
                         patch: ProductModel.ProductData, now: string)
    : Change<ProductModel.ProductData, ProductRow>
  {
    match GetById(rows, statics, id)
    case None => Change(Err(NotFound), rows)
    case Some(existing) =>
      var product := ProductModel.NewProduct(Merge(existing, patch, now), now);
      match ProductModel.Validate(product)
      case Err(m) => Change(Err(m), rows)
      case Ok(_) => Change(Ok(ProductModel.ToJSON(product)), Rewrite(rows, existing.id, product))
  }

  method Update(db: Database, statics: seq<CatalogProduct>, id: string, patch: ProductModel.ProductData, now: string)
    returns (r: Result<ProductModel.ProductData>)
    modifies db
    ensures Change(r, db.products) == UpdateOutcome(old(db.products), statics, id, patch, now)
    ensures db.categories == old(db.categories) && db.subcategories == old(db.subcategories)
    ensures db.admins == old(db.admins)
  {
    var existing := GetById(db.products, statics, id);
    if existing.None? {
      return Err(NotFound);
    }
    var product := ProductModel.NewProduct(Merge(existing.value, patch, now), now);
    var valid := ProductModel.Validate(product);
    if valid.Err? {
      return Err(valid.message);
    }
    db.products := Rewrite(db.products, product.id.value, product);
    r := Ok(ProductModel.ToJSON(product));
  }

  /** An id neither the fixtures nor the table hold fails with
      `'Product not found'` and writes nothing. */
  lemma UpdateUnknownId(rows: seq<ProductRow>, statics: seq<CatalogProduct>, id: string,
                        patch: ProductModel.ProductData, now: string)
    requires forall p :: p in statics ==> p.id != id
    requires !HasProduct(rows, id)
    ensures UpdateOutcome(rows, statics, id, patch, now) == Change(Err(NotFound), rows)
  {
    GetByIdNone(rows, statics, id);
  }

  /** A successful update keeps the id, takes every property the patch
      supplies and the existing value of every other, and stamps `updatedAt`;
      the constructor's `||` then turns a falsy price into 0 and an empty
      `createdAt` into the clock reading. */
  lemma UpdateMergesPatch(rows: seq<ProductRow>, statics: seq<CatalogProduct>, id: string,
                          patch: ProductModel.ProductData, now: string)
    requires UpdateOutcome(rows, statics, id, patch, now).result.Ok?
    ensures GetById(rows, statics, id).Some?
    ensures var r := UpdateOutcome(rows, statics, id, patch, now).result.value;
      var existing := GetById(rows, statics, id).value;
      && r.id == Some(id)
      && r.name == Spread(Some(existing.name), patch.name)
      && r.category == Spread(Some(existing.category), patch.category)
      && r.subCategory == Spread(Some(existing.subCategory), patch.subCategory)
      && r.description == Spread(Some(existing.description), patch.description)
      && r.image == Spread(Some(existing.image), patch.image)
      && (ProductModel.PriceTruthy(patch.price) ==> r.price == patch.price)
      && (patch.price.Some? && !ProductModel.PriceTruthy(patch.price) ==> r.price == Some(ProductModel.Number(0)))
      && (patch.price.None? ==> r.price == Some(ProductModel.Number(existing.price)))
      && (patch.inStock.Some? ==> r.inStock == patch.inStock)
      && (patch.inStock.None? ==> r.inStock == Some(existing.inStock))
      && (patch.attributes.Some? ==> r.attributes == patch.attributes)
      && (patch.attributes.None? ==> r.attributes == Some(existing.attributes))
      && (Text.Truthy(patch.createdAt) ==> r.createdAt == patch.createdAt)
      && (patch.createdAt.None? && existing.createdAt != [] ==> r.createdAt == Some(existing.createdAt))
      && (!Text.Truthy(Spread(Some(existing.createdAt), patch.createdAt)) ==> r.createdAt == Some(now))
      && r.updatedAt == Some(now)
  {
    GetByIdNone(rows, statics, id);
  }

  /** Updating a static product that the table does not hold succeeds
      without writing any row. */
  lemma UpdateStaticWritesNothing(statics: seq<CatalogProduct>, table: seq<ProductRow>,
                                  id: string, patch: ProductModel.ProductData, now: string)
    requires exists p :: p in statics && p.id == id
    requires !HasProduct(table, id)
    ensures UpdateOutcome(table, statics, id, patch, now).rows == table
  {
    var r := Rewrite(table, id, ProductModel.NewProduct(Merge(GetById(table, statics, id).value, patch, now), now));
    GetByIdNone(table, statics, id);
    assert forall k :: 0 <= k < |table| ==> r[k] == table[k];
  }

  /** The UPDATE statement writes the rows with the id and no other, and
      keeps every id and `created_at`. */
  lemma RewriteOnlyThatRow(rows: seq<ProductRow>, id: string, p: ProductModel.Product)
    ensures var r := Rewrite(rows, id, p);
      && (forall k :: 0 <= k < |rows| && rows[k].id != id ==> r[k] == rows[k])
      && (forall k :: 0 <= k < |rows| ==> r[k].id == rows[k].id && r[k].createdAt == rows[k].createdAt)
      && (forall k :: 0 <= k < |rows| && rows[k].id == id ==> r[k].updatedAt == p.updatedAt)
  {
  }

  /** A failed update writes nothing; a successful one is that UPDATE with
      the id and the merged product, whose `updatedAt` is `now`. */
  lemma UpdateWritesOnlyThatRow(rows: seq<ProductRow>, statics: seq<CatalogProduct>, id: string,
                                patch: ProductModel.ProductData, now: string)
    ensures var o := UpdateOutcome(rows, statics, id, patch, now);
      && (o.result.Err? ==> o.rows == rows)
      && (o.result.Ok? ==> exists p: ProductModel.Product :: p.updatedAt == now && o.rows == Rewrite(rows, id, p))
  {
    GetByIdNone(rows, statics, id);
    var o := UpdateOutcome(rows, statics, id, patch, now);
    if o.result.Ok? {
      var product := ProductModel.NewProduct(Merge(GetById(rows, statics, id).value, patch, now), now);
      assert product.updatedAt == now;
      assert o.rows == Rewrite(rows, id, product);
    }
  }

  /** `delete(id)`: removes the rows with that id; none removed is an error. */
  function DeleteOutcome(rows: seq<ProductRow>, id: string): Change<bool, ProductRow> {
    var remaining := Seqs.Filter(rows, (row: ProductRow) => row.id != id);
    if |remaining| == |rows| then Change(Err(NotFound), rows)
    else Change(Ok(true), remaining)
  }

  method Delete(db: Database, id: string) returns (r: Result<bool>)
    modifies db
    ensures Change(r, db.products) == DeleteOutcome(old(db.products), id)
    ensures db.categories == old(db.categories) && db.subcategories == old(db.subcategories)
    ensures db.admins == old(db.admins)
  {
    var remaining := Seqs.Filter(db.products, (row: ProductRow) => row.id != id);
    var rowCount := |db.products| - |remaining|;
    if rowCount == 0 {
      return Err(NotFound);
    }
    db.products := remaining;
    r := Ok(true);
  }

  /** Deleting fails with `'Product not found'` exactly when no row has the
      id, and otherwise keeps every other row and no row with the id. */
  lemma DeleteRemovesExactlyThatRow(rows: seq<ProductRow>, id: string)
    ensures var o := DeleteOutcome(rows, id);
      && (!HasProduct(rows, id) <==> o == Change(Err(NotFound), rows))
      && (HasProduct(rows, id) ==> o.result == Ok(true))
      && (forall row :: row in o.rows <==> row in rows && (o.result.Ok? ==> row.id != id))
  {
    var f := (row: ProductRow) => row.id != id;
    var remaining := Seqs.Filter(rows, f);
    Seqs.FilterShrinks(rows, f);
    forall row ensures row in remaining <==> row in rows && f(row) {
      Seqs.FilterMembership(rows, f, row);
    }
  }

  /** The non-empty values of one text attribute, row by row. */
  function AttrValues(rows: seq<ProductRow>, key: string): (vs: seq<string>)
    ensures forall v :: v in vs <==> v != [] && exists row :: row in rows && TextAttr(row.attributes, key) == Some(v)
  {
    if rows == [] then []
    else
      var rest := AttrValues(rows[1..], key);
      assert forall row :: row in rows <==> row == rows[0] || row in rows[1..];
      match TextAttr(rows[0].attributes, key)
      case Some(v) => if v != [] then [v] + rest else rest
      case None => rest
  }

  /** `SELECT DISTINCT attributes->>key … WHERE … != '' ORDER BY key`,
      then `filter(Boolean)`. */
  function DistinctAttr(rows: seq<ProductRow>, key: string): seq<string> {
    Seqs.Sort(Seqs.Dedup(AttrValues(rows, key)), (a: string, b: string) => Text.NameLe(a, b))
  }

  function GetTypes(rows: seq<ProductRow>): seq<string> {
    DistinctAttr(rows, "type")
  }

  function GetUsages(rows: seq<ProductRow>): seq<string> {
    DistinctAttr(rows, "usage")
  }

  lemma NameLeIsTotalPreorder()
    ensures Seqs.TotalPreorder((a: string, b: string) => Text.NameLe(a, b))
  {
    var le := (a: string, b: string) => Text.NameLe(a, b);
    forall a: string, b: string ensures le(a, b) || le(b, a) {
      Text.NameLeTotal(a, b);
    }
    forall a: string, b: string, c: string | le(a, b) && le(b, c) ensures le(a, c) {
      Text.NameLeTransitive(a, b, c);
    }
  }

  /** The distinct values list each non-empty value some row carries, once,
      and in name order; the static products contribute nothing. */
  lemma DistinctAttrExact(rows: seq<ProductRow>, key: string)
    ensures forall v :: v in DistinctAttr(rows, key) <==>
      v != [] && exists row :: row in rows && TextAttr(row.attributes, key) == Some(v)
    ensures Seqs.NoDuplicates(DistinctAttr(rows, key))
    ensures forall i, j :: 0 <= i < j < |DistinctAttr(rows, key)| ==>
      Text.NameLe(DistinctAttr(rows, key)[i], DistinctAttr(rows, key)[j])
  {
    var le := (a: string, b: string) => Text.NameLe(a, b);
    var d := Seqs.Dedup(AttrValues(rows, key));
    var r := DistinctAttr(rows, key);
    Seqs.SortPermutation(d, le);
    forall v ensures v in r <==> v in d {
      assert v in r <==> v in multiset(d);
    }
    Seqs.PermutationKeepsNoDuplicates(d, r);
    NameLeIsTotalPreorder();
    Seqs.SortSorted(d, le);
    forall i, j | 0 <= i < j < |r| ensures Text.NameLe(r[i], r[j]) {
      assert le(r[i], r[j]);
    }
  }
}

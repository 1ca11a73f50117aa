/** `adminController`: every write handler answers with its success message,
    or turns some error messages into a status and passes every other
    error to `next`. */
module AdminController {
  import opened Wrappers
  import Text
  import opened Http
  import opened Catalog
  import Store
  import ProductModel
  import ProductService
  import CategoryModel
  import CategoryService
  import SubCategoryModel
  import SubCategoryService

  /** A create handler: 201 with the record, or the status `statusFor`
      gives the message, or `next`. */
  function CreatedReply<T>(r: Result<T>, message: string, statusFor: string -> Option<nat>): Reply<Envelope<T>> {
    match r
    case Ok(v) => Success(CreatedStatus, Some(message), Some(v))
    case Err(m) => if statusFor(m).Some? then Failure(statusFor(m).value, m) else Next(m)
  }

  /** An update handler. */
  function UpdatedReply<T>(r: Result<T>, message: string, statusFor: string -> Option<nat>): Reply<Envelope<T>> {
    match r
    case Ok(v) => Success(OkStatus, Some(message), Some(v))
    case Err(m) => if statusFor(m).Some? then Failure(statusFor(m).value, m) else Next(m)
  }

  /** A delete handler: the body carries no data. */
  function DeletedReply(r: Result<bool>, message: string, statusFor: string -> Option<nat>): Reply<Envelope<bool>> {
    match r
    case Ok(_) => Success(OkStatus, Some(message), None)
    case Err(m) => if statusFor(m).Some? then Failure(statusFor(m).value, m) else Next(m)
  }

  /** No message is mapped: everything goes to `next`. */
  function NoStatus(m: string): Option<nat> {
    None
  }

  function ProductNotFound404(m: string): Option<nat> {
    if m == ProductService.NotFound then Some(NotFoundStatus) else None
  }

  function CategoryNotFound404(m: string): Option<nat> {
    if m == CategoryService.NotFound then Some(NotFoundStatus) else None
  }

  /** `'Category not found'` or any message containing `'Cannot delete'`. */
  function CategoryDelete400(m: string): Option<nat> {
    if m == CategoryService.NotFound || Text.Contains(m, "Cannot delete") then Some(BadRequestStatus) else None
  }

  function EitherNotFound404(m: string): Option<nat> {
    if m == SubCategoryService.NotFound || m == SubCategoryService.CategoryNotFound then Some(NotFoundStatus) else None
  }

  function SubCategoryDelete400(m: string): Option<nat> {
    if m == SubCategoryService.NotFound || Text.Contains(m, "Cannot delete") then Some(BadRequestStatus) else None
  }

  function CreateProduct(r: Result<ProductModel.ProductData>): Reply<Envelope<ProductModel.ProductData>> {
    CreatedReply(r, "Product created successfully", NoStatus)
  }

  function UpdateProduct(r: Result<ProductModel.ProductData>): Reply<Envelope<ProductModel.ProductData>> {
    UpdatedReply(r, "Product updated successfully", ProductNotFound404)
  }

  function DeleteProduct(r: Result<bool>): Reply<Envelope<bool>> {
    DeletedReply(r, "Product deleted successfully", ProductNotFound404)
  }

  function CreateCategory(r: Result<CategoryModel.CategoryData>): Reply<Envelope<CategoryModel.CategoryData>> {
    CreatedReply(r, "Category created successfully", NoStatus)
  }

  function UpdateCategory(r: Result<CategoryModel.CategoryData>): Reply<Envelope<CategoryModel.CategoryData>> {
    UpdatedReply(r, "Category updated successfully", CategoryNotFound404)
  }

  function DeleteCategory(r: Result<bool>): Reply<Envelope<bool>> {
    DeletedReply(r, "Category deleted successfully", CategoryDelete400)
  }

  function CreateSubcategory(r: Result<SubCategoryModel.SubCategoryData>): Reply<Envelope<SubCategoryModel.SubCategoryData>> {
    CreatedReply(r, "Subcategory created successfully", CategoryNotFound404)
  }

  function UpdateSubcategory(r: Result<SubCategoryModel.SubCategoryData>): Reply<Envelope<SubCategoryModel.SubCategoryData>> {
    UpdatedReply(r, "Subcategory updated successfully", EitherNotFound404)
  }

  function DeleteSubcategory(r: Result<bool>): Reply<Envelope<bool>> {
    DeletedReply(r, "Subcategory deleted successfully", SubCategoryDelete400)
  }

  /** Every successful create answers 201 with `success` and the record. */
  lemma CreatesAnswer201<T>(r: Result<T>, message: string, statusFor: string -> Option<nat>)
    requires r.Ok?
    ensures CreatedReply(r, message, statusFor) == Json(201, Envelope(true, Some(message), Some(r.value)))
  {
  }

  /** Product and category creation map no error: every validation error,
      the duplicate key among them, reaches `next` unchanged. */
  lemma CreateErrorsGoToNext(p: Result<ProductModel.ProductData>, c: Result<CategoryModel.CategoryData>)
    ensures p.Err? ==> CreateProduct(p) == Next(p.message)
    ensures c.Err? ==> CreateCategory(c) == Next(c.message)
  {
  }

  /** `'Product not found'` is a 404 for both update and delete, and it is
      the only product message that is. */
  lemma ProductNotFoundIs404(u: Result<ProductModel.ProductData>, d: Result<bool>)
    ensures u.Err? ==> (UpdateProduct(u).Json? <==> u.message == "Product not found")
    ensures u.Err? && u.message == "Product not found" ==> UpdateProduct(u) == Json(404, Envelope(false, Some(u.message), None))
    ensures d.Err? ==> (DeleteProduct(d).Json? <==> d.message == "Product not found")
    ensures d.Err? && d.message == "Product not found" ==> DeleteProduct(d) == Json(404, Envelope(false, Some(d.message), None))
  {
  }

  /** A validation failure of an update is never mistaken for the missing
      product: no joined list of validation messages reads `'Product not found'`. */
  lemma UpdateValidationGoesToNext(p: ProductModel.Product)
    requires ProductModel.Validate(p).Err?
    ensures UpdateProduct(Err(ProductModel.Validate(p).message)) == Next(ProductModel.Validate(p).message)
  {
    var errors := ProductModel.ValidationErrors(p);
    JoinStartsWithFirst(errors, ", ");
    StartsWithRuleMessage(ProductModel.ViolatedRules(p)[0], ProductModel.Validate(p).message);
  }

  /** A message that starts with a rule's message is not `'Product not found'`. */
  lemma StartsWithRuleMessage(r: ProductModel.Rule, m: string)
    requires |ProductModel.Message(r)| <= |m| && m[..|ProductModel.Message(r)|] == ProductModel.Message(r)
    ensures m != ProductService.NotFound
  {
    var prefix := ProductModel.Message(r);
    match r
    case NameRule => assert m[9] == prefix[9] == 'a';
    case PriceRule => assert m[2] == prefix[2] == 'i';
    case _ => assert m[0] == prefix[0] != 'P';
  }

  /** The first part of a join is a prefix of it. */
  lemma {:induction false} JoinStartsWithFirst(parts: seq<string>, sep: string)
    requires parts != []
    ensures |parts[0]| <= |Text.Join(parts, sep)|
    ensures Text.Join(parts, sep)[..|parts[0]|] == parts[0]
  {
    if |parts| > 1 {
      assert Text.Join(parts, sep) == parts[0] + (sep + Text.Join(parts[1..], sep));
    }
  }

  /** Deleting a category answers 400 for both of the service's errors, the
      missing category and the dependent products, and 200 otherwise. */
  lemma DeleteCategoryAnswers(rows: seq<Store.CategoryRow>, products: seq<Store.ProductRow>, id: string)
    ensures var reply := DeleteCategory(CategoryService.DeleteOutcome(rows, products, id).result);
      && reply.Json?
      && (CategoryService.DeleteOutcome(rows, products, id).result.Err? <==> reply.status == 400)
      && (CategoryService.DeleteOutcome(rows, products, id).result.Ok? <==> reply.status == 200)
  {
    CategoryService.InUseSaysCannotDelete(CategoryService.DependentProducts(products, id));
  }

  /** Deleting a subcategory answers 400 for both of the service's errors. */
  lemma DeleteSubcategoryAnswers(rows: seq<Store.SubCategoryRow>, products: seq<Store.ProductRow>, id: string)
    ensures var reply := DeleteSubcategory(SubCategoryService.DeleteOutcome(rows, products, id).result);
      && reply.Json?
      && (SubCategoryService.DeleteOutcome(rows, products, id).result.Err? <==> reply.status == 400)
      && (SubCategoryService.DeleteOutcome(rows, products, id).result.Ok? <==> reply.status == 200)
  {
    SubCategoryService.InUseSaysCannotDelete(SubCategoryService.DependentProducts(products, id));
  }

  /** Creating a subcategory under a missing category is a 404; updating
      one is a 404 for either missing record. */
  lemma SubcategoryNotFoundIs404(c: Result<SubCategoryModel.SubCategoryData>, u: Result<SubCategoryModel.SubCategoryData>)
    ensures c.Err? ==> (CreateSubcategory(c).Json? <==> c.message == "Category not found")
    ensures c.Err? && CreateSubcategory(c).Json? ==> CreateSubcategory(c).status == 404
    ensures u.Err? ==> (UpdateSubcategory(u).Json? <==> u.message in {"Subcategory not found", "Category not found"})
    ensures u.Err? && UpdateSubcategory(u).Json? ==> UpdateSubcategory(u).status == 404
  {
  }

  /** Updating a missing category is a 404; its validation error is not. */
  lemma UpdateCategoryAnswers(u: Result<CategoryModel.CategoryData>)
    ensures u.Err? ==> (UpdateCategory(u).Json? <==> u.message == "Category not found")
    ensures u == Err(CategoryModel.NameRequired) ==> UpdateCategory(u) == Next(CategoryModel.NameRequired)
  {
    assert CategoryModel.NameRequired[10] != CategoryService.NotFound[10];
  }
}

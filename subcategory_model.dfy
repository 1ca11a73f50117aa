/** The `SubCategory` record: constructor defaults, `validate` and `toJSON`. */
module SubCategoryModel {
  import opened Wrappers
  import Text

  datatype SubCategoryData = SubCategoryData(
    id: Option<string>,
    name: Option<string>,
    categoryId: Option<string>,
    description: Option<string>,
    createdAt: Option<string>,
    updatedAt: Option<string>)

  datatype SubCategory = SubCategory(
    id: Option<string>,
    name: Option<string>,
    categoryId: Option<string>,
    description: string,
    createdAt: string,
    updatedAt: string)

  /** `new SubCategory(data)`, with `now` the clock reading. */
  function NewSubCategory(data: SubCategoryData, now: string): SubCategory {
    SubCategory(
      data.id, data.name, data.categoryId,
      Text.OrElse(data.description, ""),
      Text.OrElse(data.createdAt, now),
      Text.OrElse(data.updatedAt, now))
  }

  lemma ConstructorDefaults(data: SubCategoryData, now: string)
    ensures data.description == None ==> NewSubCategory(data, now).description == ""
    ensures NewSubCategory(data, now).categoryId == data.categoryId
    ensures !Text.Truthy(data.updatedAt) ==> NewSubCategory(data, now).updatedAt == now
  {
  }

  const NameRequired := "Subcategory name is required"
  const CategoryIdRequired := "Category ID is required"

  function ValidationErrors(s: SubCategory): (errors: seq<string>)
    ensures (NameRequired in errors) <==> Text.IsBlank(s.name)
    ensures (CategoryIdRequired in errors) <==> !Text.Truthy(s.categoryId)
    ensures forall m :: m in errors ==> m == NameRequired || m == CategoryIdRequired
  {
    (if Text.IsBlank(s.name) then [NameRequired] else [])
    + (if !Text.Truthy(s.categoryId) then [CategoryIdRequired] else [])
  }

  /** `validate()`: both violations are reported, joined by `', '`; the
      category id is only checked for truthiness. */
  function Validate(s: SubCategory): (r: Result<bool>)
    ensures r.Ok? <==> !Text.IsBlank(s.name) && Text.Truthy(s.categoryId)
    ensures r.Ok? ==> r.value
    ensures r.Err? ==> r.message == Text.Join(ValidationErrors(s), ", ")
    ensures Text.IsBlank(s.name) && !Text.Truthy(s.categoryId) ==>
      r == Err(NameRequired + ", " + CategoryIdRequired)
    ensures Text.IsBlank(s.name) && Text.Truthy(s.categoryId) ==> r == Err(NameRequired)
    ensures !Text.IsBlank(s.name) && !Text.Truthy(s.categoryId) ==> r == Err(CategoryIdRequired)
  {
    var errors := ValidationErrors(s);
    assert errors == [NameRequired, CategoryIdRequired] ==>
      Text.Join(errors, ", ") == NameRequired + ", " + CategoryIdRequired;
    assert |errors| == 1 ==> Text.Join(errors, ", ") == errors[0];
    if |errors| > 0 then Err(Text.Join(errors, ", ")) else Ok(true)
  }

  /** A category id of white space only passes validation. */
  lemma BlankCategoryIdAccepted(s: SubCategory)
    requires !Text.IsBlank(s.name) && s.categoryId == Some(" ")
    ensures Validate(s) == Ok(true)
  {
  }

  function ToJSON(s: SubCategory): (json: SubCategoryData)
    ensures json.description.Some? && json.createdAt.Some? && json.updatedAt.Some?
  {
    SubCategoryData(s.id, s.name, s.categoryId, Some(s.description), Some(s.createdAt), Some(s.updatedAt))
  }

  /** Rebuilding a subcategory from its JSON reproduces every field. */
  lemma RoundTrip(s: SubCategory, now: string)
    requires s.createdAt != [] && s.updatedAt != []
    ensures NewSubCategory(ToJSON(s), now) == s
  {
  }
}

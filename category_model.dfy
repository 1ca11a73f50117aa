/** The `Category` record: constructor defaults, `validate` and `toJSON`. */
module CategoryModel {
  import opened Wrappers
  import Text

  /** The object handed to the constructor; every property may be absent. */
  datatype CategoryData = CategoryData(
    id: Option<string>,
    name: Option<string>,
    description: Option<string>,
    image: Option<string>,
    createdAt: Option<string>,
    updatedAt: Option<string>)

  datatype Category = Category(
    id: Option<string>,
    name: Option<string>,
    description: string,
    image: string,
    createdAt: string,
    updatedAt: string)

  /** `new Category(data)`, with `now` the clock reading. */
  function NewCategory(data: CategoryData, now: string): Category {
    Category(
      data.id, data.name,
      Text.OrElse(data.description, ""),
      Text.OrElse(data.image, ""),
      Text.OrElse(data.createdAt, now),
      Text.OrElse(data.updatedAt, now))
  }

  /** Description and image default to the empty string, timestamps to now. */
  lemma ConstructorDefaults(data: CategoryData, now: string)
    ensures data.description == None ==> NewCategory(data, now).description == ""
    ensures data.image == None ==> NewCategory(data, now).image == ""
    ensures !Text.Truthy(data.createdAt) ==> NewCategory(data, now).createdAt == now
    ensures Text.Truthy(data.createdAt) ==> NewCategory(data, now).createdAt == data.createdAt.value
  {
  }

  const NameRequired := "Category name is required"

  /** `validate()`: fails exactly when the name is missing or blank. */
  function Validate(c: Category): (r: Result<bool>)
    ensures r.Ok? <==> c.name.Some? && !Text.AllSpace(c.name.value)
    ensures r.Ok? ==> r.value
    ensures r.Err? ==> r.message == NameRequired
  {
    assert c.name.Some? ==> (Text.IsBlank(c.name) <==> Text.AllSpace(c.name.value)) by {
      if c.name.Some? { Text.TrimEmptyIff(c.name.value); }
    }
    var errors := if Text.IsBlank(c.name) then [NameRequired] else [];
    if |errors| > 0 then Err(Text.Join(errors, ", ")) else Ok(true)
  }

  /** `toJSON()`: the six fields. */
  function ToJSON(c: Category): (json: CategoryData)
    ensures json.description.Some? && json.image.Some?
    ensures json.createdAt.Some? && json.updatedAt.Some?
  {
    CategoryData(c.id, c.name, Some(c.description), Some(c.image), Some(c.createdAt), Some(c.updatedAt))
  }

  /** Rebuilding a category from its JSON reproduces all six fields when the
      timestamps are non-empty (as they are whenever the clock reading is). */
  lemma RoundTrip(c: Category, now: string)
    requires c.createdAt != [] && c.updatedAt != []
    ensures NewCategory(ToJSON(c), now) == c
  {
  }
}

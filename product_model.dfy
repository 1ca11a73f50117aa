/** The `Product` record: constructor defaults, `validate` and `toJSON`. */
module ProductModel {
  import opened Wrappers
  import Text
  import Catalog

  /** A `price` property as it arrives in a request body: a JSON number, or
      text (as a form field sends it). */
  datatype PriceValue = Number(amount: int) | PriceText(text: string)

  /** The object handed to the constructor; every property may be absent. */
  datatype ProductData = ProductData(
    id: Option<string>,
    name: Option<string>,
    category: Option<string>,
    subCategory: Option<string>,
    description: Option<string>,
    image: Option<string>,
    price: Option<PriceValue>,
    inStock: Option<bool>,
    attributes: Option<Catalog.Attributes>,
    createdAt: Option<string>,
    updatedAt: Option<string>)

  /** A constructed `Product`: the eleven fields it carries. */
  datatype Product = Product(
    id: Option<string>,
    name: Option<string>,
    category: Option<string>,
    subCategory: Option<string>,
    description: Option<string>,
    image: Option<string>,
    price: PriceValue,
    inStock: bool,
    attributes: Catalog.Attributes,
    createdAt: string,
    updatedAt: string)

  /** JavaScript truthiness of a price: `0` and `''` are falsy. */
  predicate PriceTruthy(p: Option<PriceValue>) {
    p.Some? && match p.value
      case Number(n) => n != 0
      case PriceText(t) => t != []
  }

  /** `new Product(data)`, with `now` the value of `new Date().toISOString()`. */
  function NewProduct(data: ProductData, now: string): Product {
    Product(
      data.id, data.name, data.category, data.subCategory, data.description, data.image,
      if PriceTruthy(data.price) then data.price.value else Number(0),
      data.inStock.GetOr(true),
      data.attributes.GetOr(map[]),
      Text.OrElse(data.createdAt, now),
      Text.OrElse(data.updatedAt, now))
  }

  /** The defaults the constructor applies. */
  lemma ConstructorDefaults(data: ProductData, now: string)
    ensures !PriceTruthy(data.price) ==> NewProduct(data, now).price == Number(0)
    ensures data.inStock == Some(false) ==> !NewProduct(data, now).inStock
    ensures data.inStock == None ==> NewProduct(data, now).inStock
    ensures data.attributes == None ==> NewProduct(data, now).attributes == map[]
    ensures !Text.Truthy(data.createdAt) ==> NewProduct(data, now).createdAt == now
    ensures !Text.Truthy(data.updatedAt) ==> NewProduct(data, now).updatedAt == now
    ensures NewProduct(data, now).name == data.name && NewProduct(data, now).image == data.image
  {
  }

  /** The six rules of `validate`, in the order it checks them. */
  datatype Rule = NameRule | CategoryRule | SubCategoryRule | DescriptionRule | ImageRule | PriceRule

  function Message(r: Rule): string {
    match r
    case NameRule => "Product name is required"
    case CategoryRule => "Category is required"
    case SubCategoryRule => "Subcategory is required"
    case DescriptionRule => "Description is required"
    case ImageRule => "Image URL is required"
    case PriceRule => "Price must be a positive number"
  }

  /** Position of a rule in the checking order. */
  function Rank(r: Rule): nat {
    match r
    case NameRule => 0
    case CategoryRule => 1
    case SubCategoryRule => 2
    case DescriptionRule => 3
    case ImageRule => 4
    case PriceRule => 5
  }

  /** When a product breaks a rule. Name, description and image must be
      non-blank; category and subcategory only present and non-empty; the
      price a number that is not negative (0 is allowed). */
  predicate Violates(p: Product, r: Rule) {
    match r
    case NameRule => Text.IsBlank(p.name)
    case CategoryRule => !Text.Truthy(p.category)
    case SubCategoryRule => !Text.Truthy(p.subCategory)
    case DescriptionRule => Text.IsBlank(p.description)
    case ImageRule => Text.IsBlank(p.image)
    case PriceRule => !p.price.Number? || p.price.amount < 0
  }

  predicate IsValid(p: Product) {
    forall r: Rule :: !Violates(p, r)
  }

  /** The rule checked at position `k`. */
  function RuleAt(k: nat): (r: Rule)
    requires k < 6
    ensures Rank(r) == k
  {
    [NameRule, CategoryRule, SubCategoryRule, DescriptionRule, ImageRule, PriceRule][k]
  }

  /** The broken rules among those checked from position `k` on, in
      checking order: one `if (...) errors.push(...)` per rule. */
  function ViolatedFrom(p: Product, k: nat): (rs: seq<Rule>)
    decreases 6 - k
    ensures forall i :: 0 <= i < |rs| ==> Rank(rs[i]) >= k
    ensures forall i, j :: 0 <= i < j < |rs| ==> Rank(rs[i]) < Rank(rs[j])
    ensures k <= 6 ==> |rs| <= 6 - k
  {
    if k >= 6 then []
    else
      var rest := ViolatedFrom(p, k + 1);
      if Violates(p, RuleAt(k)) then [RuleAt(k)] + rest else rest
  }

  /** A rule is listed from position `k` on exactly when it is broken and
      checked there. */
  lemma {:induction false} ViolatedFromMembers(p: Product, k: nat, r: Rule)
    decreases 6 - k
    ensures r in ViolatedFrom(p, k) <==> Violates(p, r) && Rank(r) >= k
  {
    if k < 6 {
      ViolatedFromMembers(p, k + 1, r);
      if Rank(r) == k {
        assert r == RuleAt(k);
      }
    }
  }

  /** The rules `validate` finds broken, each once, in checking order. */
  function ViolatedRules(p: Product): (rs: seq<Rule>)
    ensures forall i, j :: 0 <= i < j < |rs| ==> Rank(rs[i]) < Rank(rs[j])
    ensures |rs| <= 6
  {
    ViolatedFrom(p, 0)
  }

  /** Exactly the broken rules are listed. */
  lemma ViolatedRulesMembers(p: Product, r: Rule)
    ensures r in ViolatedRules(p) <==> Violates(p, r)
  {
    ViolatedFromMembers(p, 0, r);
  }

  /** No rule is listed exactly when the product is valid. */
  lemma ViolatedRulesEmptyIff(p: Product)
    ensures ViolatedRules(p) == [] <==> IsValid(p)
  {
    var rs := ViolatedRules(p);
    if rs != [] {
      ViolatedRulesMembers(p, rs[0]);
    } else {
      forall r: Rule ensures !Violates(p, r) {
        ViolatedRulesMembers(p, r);
      }
    }
  }

  /** The `errors` array `validate` builds: one message per violated rule. */
  function ValidationErrors(p: Product): (errors: seq<string>)
    ensures |errors| == |ViolatedRules(p)| <= 6
    ensures forall i :: 0 <= i < |errors| ==> errors[i] == Message(ViolatedRules(p)[i])
    ensures errors == [] <==> IsValid(p)
  {
    var rs := ViolatedRules(p);
    ViolatedRulesEmptyIff(p);
    seq(|rs|, i requires 0 <= i < |rs| => Message(rs[i]))
  }

  /** `validate()`: `true`, or an error whose message joins every violation
      with `', '`. */
  function Validate(p: Product): (r: Result<bool>)
    ensures r.Ok? <==> IsValid(p)
    ensures r.Ok? ==> r.value
    ensures r.Err? ==> r.message == Text.Join(ValidationErrors(p), ", ")
  {
    var errors := ValidationErrors(p);
    if |errors| > 0 then Err(Text.Join(errors, ", ")) else Ok(true)
  }

  /** No two rules share a message, so the messages identify the rules. */
  lemma MessageInjective(r1: Rule, r2: Rule)
    requires Message(r1) == Message(r2)
    ensures r1 == r2
  {
  }

  /** Every violated rule is reported, not only the first one. */
  lemma ValidationReportsEveryViolation(p: Product, r: Rule)
    ensures Message(r) in ValidationErrors(p) <==> Violates(p, r)
  {
    var errors := ValidationErrors(p);
    var rs := ViolatedRules(p);
    ViolatedRulesMembers(p, r);
    if Message(r) in errors {
      var i :| 0 <= i < |errors| && errors[i] == Message(r);
      MessageInjective(rs[i], r);
    }
    if Violates(p, r) {
      var i :| 0 <= i < |rs| && rs[i] == r;
      assert errors[i] == Message(r);
    }
  }

  /** Names, descriptions and image URLs made only of white space are
      rejected, while category and subcategory are only checked for presence:
      a category of `" "` passes. */
  lemma WhiteSpaceRules(p: Product)
    ensures p.name.Some? && Text.AllSpace(p.name.value) ==> ViolatedRules(p)[0] == NameRule
    ensures p.category == Some(" ") ==> !Violates(p, CategoryRule)
    ensures p.subCategory == Some(" ") ==> !Violates(p, SubCategoryRule)
  {
    if p.name.Some? && Text.AllSpace(p.name.value) {
      Text.TrimEmptyIff(p.name.value);
    }
  }

  /** A price of 0 passes although the message speaks of a positive number;
      only negative or non-numeric prices are rejected. */
  lemma ZeroPriceAccepted(p: Product)
    ensures p.price == Number(0) ==> PriceRule !in ViolatedRules(p)
    ensures p.price.Number? && p.price.amount < 0 ==> PriceRule in ViolatedRules(p)
    ensures p.price.PriceText? ==> PriceRule in ViolatedRules(p)
  {
    ViolatedRulesMembers(p, PriceRule);
  }

  /** `toJSON()`: the eleven fields, each under its own name. */
  function ToJSON(p: Product): (json: ProductData)
    ensures json.price.Some? && json.inStock.Some? && json.attributes.Some?
    ensures json.createdAt.Some? && json.updatedAt.Some?
  {
    ProductData(
      p.id, p.name, p.category, p.subCategory, p.description, p.image,
      Some(p.price), Some(p.inStock), Some(p.attributes), Some(p.createdAt), Some(p.updatedAt))
  }

  /** The shape every constructed product has when the clock reading is
      non-empty: non-empty timestamps, and never the falsy price `''`. */
  predicate Constructed(p: Product) {
    p.createdAt != [] && p.updatedAt != [] && p.price != PriceText([])
  }

  lemma NewProductIsConstructed(data: ProductData, now: string)
    requires now != []
    ensures Constructed(NewProduct(data, now))
  {
  }

  /** Rebuilding a product from its JSON reproduces every field; the clock
      reading of the second construction is not consulted. */
  lemma RoundTrip(p: Product, now: string)
    requires Constructed(p)
    ensures NewProduct(ToJSON(p), now) == p
  {
  }
}

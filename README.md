# Agricultural catalog: a verified model of its query, service and page logic

This project models the core of a product catalog for agricultural
equipment. It has an Express backend over PostgreSQL (or, in a legacy
mode, over a parsed JSON file) and a React frontend. It also has a fixture
mode that filters a hard-coded product list in the browser. The model
covers the following:

- **Record models** (`Product`, `Category`, `SubCategory`). Each has its
  constructor defaults, a `validate` that collects every violation, and a
  `toJSON` projection.
- **Product listing of the services layer** (`productService.getAll`). It
  builds a parameterised `WHERE` clause over the products table, filters
  the static products, concatenates and sorts both, and cuts a page.
- **Services.** Creation, lookup, update and deletion of products,
  categories and subcategories, each over an in-memory table.
  Subcategory creation checks that its category exists. A category or
  subcategory with products cannot be deleted.
- **Authentication service.** Default-admin bootstrap, login, admin
  creation and password change.
- **Controllers.** How each service outcome becomes an HTTP status and
  body.
- **Schema initialisation and data migration** (`initDatabase`,
  `migrateData`). The schema text is split into statements, comments are
  stripped, and the statements run one by one, with some errors ignored.
  Rows from the JSON file are inserted under `ON CONFLICT DO NOTHING`.
- **Legacy JSON-mode handlers** of `backend/server.js`.
- **Frontend fixture helpers** `filterProducts` and `paginateProducts`.
- **Catalog page logic.** The request it sends, its URL parameters, the
  array fallback pagination, the page-button row, and the handlers that
  reset its state.
- **Cyclic indices** of the product image gallery and the home carousel.

The three listing variants are kept separate, because they really behave
differently:

- The services layer matches `type` and `usage` exactly, and also
  accepts price bounds and `price-asc`/`price-desc`.
- The legacy handler does not sort. It matches `type` ignoring case, and
  `usage` as a substring ignoring case.
- The fixture helper matches `type` and `usage` exactly and uses the keys
  `price_asc`/`price_desc`.

How the code is represented:

- Pure code (expressions, recursion, `filter`/`map`/`find`) is written as
  functions with lemmas.
- Code that works step by step is written as methods against
  specification functions:
  - the `for` loops of `initDatabase` and `migrateData`;
  - the chain of `filtered = filtered.filter(…)` reassignments;
  - the `whereConditions.push` / `paramIndex++` builder;
  - the in-place `sort`.
- The database is a class `Store.Database` whose table fields the service
  methods reassign.
- React state (`currentIndex`, the catalog's filter variables) is held in
  classes whose methods play the state setters.

## Model

| member | source | states |
|---|---|---|
| Seqs.CeilDiv | backend/server.js:123 | `Math.ceil(total / limit)` is the least page count whose pages hold every record |
| Seqs.CeilDivAbove | backend/server.js:123-126 | a page start lies below the total exactly when its page number is below the page count |
| Seqs.Slice | backend/server.js:116 | `slice(start, end)` holds the elements from `start` up to `end` or the end of the list, and is empty when `start` is past the end |
| Seqs.Filter | backend/server.js:71 | `filter` keeps only elements that pass, and never more than it was given |
| Seqs.FilterMembership | backend/server.js:71 | an element survives `filter` exactly when it was there and passes |
| Seqs.FilterSubMultiset | frontend/src/data/staticData.js:268-305 | `filter` keeps a sub-multiset of its input |
| Seqs.FilterConcat | backend/server.js:67-108 | `filter` keeps the order: filtering a concatenation concatenates the filtered parts |
| Seqs.FilterFusion | backend/server.js:70-108 | two filters in a row keep what one filter with both tests keeps |
| Seqs.FindIndex | backend/server.js:34 | the index of `find` is the first whose element passes, and none is found exactly when no element passes |
| Seqs.FindFirst | backend/server.js:34 | `find` returns the first element that passes, or nothing exactly when none does (also lines 56, 134) |
| Seqs.Dedup | backend/server.js:144-148 | `[...new Set(xs)]` holds every value of `xs`, only those, each once (also lines 154-158) |
| Seqs.DedupFirstOccurrenceOrder | backend/server.js:144-148 | `[...new Set(xs)]` lists the values in the order of their first occurrence in `xs` (also lines 154-158) |
| Seqs.SortPermutation | frontend/src/data/staticData.js:308-316 | sorting keeps the same elements with the same multiplicities |
| Seqs.SortSorted | frontend/src/data/staticData.js:308-316 | sorting with a total preorder yields a list in that order |
| Seqs.SortStable | frontend/src/data/staticData.js:308-316 | the sort is stable: under a total preorder, the elements that tie with any given element come out in their input order |
| Seqs.SortInPlace | frontend/src/data/staticData.js:310-314 | the in-place `Array.prototype.sort` leaves the array as the stable insertion sort of its old contents |
| Text.Trim | backend/src/config/initDatabase.js:21 | `trim()` removes an all-whitespace prefix and an all-whitespace suffix and leaves a result that neither starts nor ends with whitespace |
| Text.TrimEmptyIff | backend/src/config/initDatabase.js:24-25 | a trimmed text is empty exactly when the text was all whitespace |
| Text.TrimIdempotent | backend/src/config/initDatabase.js:21-24 | trimming twice is trimming once |
| Text.ToLower | backend/server.js:81-84 | `toLowerCase()` keeps the length and lowers each character |
| Text.ParseIntToString | frontend/src/pages/Catalog.js:31 | `parseInt` reads the page number written into the URL back as that number (also line 161) |
| Text.ParseIntLeadingDigits | frontend/src/pages/Catalog.js:31 | `parseInt` of decimal digits followed by a non-digit, other than a lone `0` before an `x`, is the value of the digits: it stops at the first character that is not a digit |
| Text.ParseIntNegative | frontend/src/pages/Catalog.js:31 | a minus sign before such decimal digits gives the negated value |
| Text.ParseIntHex | frontend/src/pages/Catalog.js:31 | without a radix, `0x` or `0X` followed by hexadecimal digits reads them in base 16 up to the first character that is not one, with or without a leading minus |
| Text.ParseIntHexExamples | frontend/src/pages/Catalog.js:31 | `0x10` reads as 16 |
| Text.ParseIntNegativeHexExample | frontend/src/pages/Catalog.js:31 | `-0x10` reads as -16 |
| Text.ParseIntHexNaN | frontend/src/pages/Catalog.js:31 | `0x` with no hexadecimal digit after it, as `0x` or `0xg`, is `NaN` |
| Text.ParseIntNoDigit | frontend/src/pages/Catalog.js:31 | a string that offers no digit where `parseInt` reads one is `NaN` |
| Text.ParseIntCutsOff | frontend/src/pages/Catalog.js:31 | `2a` reads as 2 and `1.5` as 1 |
| Text.ParseIntSignAndNaN | frontend/src/pages/Catalog.js:31 | `-2` reads as -2 and `abc` as `NaN` |
| Text.NatToStringInjective | frontend/src/pages/Catalog.js:161 | distinct page numbers are written as distinct URL values |
| Text.NameLeTotal | frontend/src/data/staticData.js:310 | the name comparison orders any two names |
| Text.NameLeTransitive | frontend/src/data/staticData.js:310 | the name comparison is transitive |
| Text.NameLeAntisymmetric | frontend/src/data/staticData.js:310 | two names each ordered before the other are equal |
| AdminController.CreatesAnswer201 | backend/src/controllers/adminController.js:10-15 | every successful create answers 201 with `success` true, its message and the created record as `data` (the same shape at lines 65-70 and 120-125) |
| AdminController.CreateErrorsGoToNext | backend/src/controllers/adminController.js:16-18 | createProduct and createCategory map no error: every failure, validation errors included, is passed to `next` unchanged (also lines 71-73) |
| AdminController.ProductNotFoundIs404 | backend/src/controllers/adminController.js:31-55 | in updateProduct and deleteProduct an error becomes a 404 reply with its message exactly when it is `'Product not found'`; any other error goes to `next` |
| AdminController.UpdateValidationGoesToNext | backend/src/controllers/adminController.js:31-37 | a validation failure of an updated product never reads `'Product not found'`, so it reaches `next` and not the 404 branch |
| AdminController.UpdateCategoryAnswers | backend/src/controllers/adminController.js:86-92 | updateCategory answers 404 exactly for `'Category not found'`; the name-required validation error goes to `next` |
| AdminController.DeleteCategoryAnswers | backend/src/controllers/adminController.js:97-112 | over the service's delete outcome, deleteCategory always replies: 400 exactly when the service failed (missing category or dependent products, whose message contains `'Cannot delete'`), 200 exactly when it succeeded |
| AdminController.SubcategoryNotFoundIs404 | backend/src/controllers/adminController.js:127-152 | createSubcategory answers 404 exactly for `'Category not found'`; updateSubcategory answers 404 exactly for either not-found message; everything else goes to `next` |
| AdminController.DeleteSubcategoryAnswers | backend/src/controllers/adminController.js:158-173 | over the service's delete outcome, deleteSubcategory replies 400 exactly when the service failed and 200 exactly when it succeeded |
| AuthController.MissingFieldIs400 | backend/src/controllers/authController.js:8-13 | a falsy username or password answers 400 with `'Username and password are required'`, and the reply does not depend on the service, which is not consulted |
| AuthController.LoginReplies | backend/src/controllers/authController.js:15-30 | with both fields present: 200 with `'Login successful'`, the token and the user exactly when the service succeeds; 401 with the message exactly for `'Invalid credentials'`; `next` with the message for every other error |
| AuthController.LoginOverAdmins | backend/src/controllers/authController.js:15-29 | over the admins table, the login reply is 401 `'Invalid credentials'` exactly when the service's login fails (unknown name and wrong password alike), and a 200 reply carries the signed principal of the named admin |
| AuthController.GetMeReturnsSignedPrincipal | backend/src/controllers/authController.js:34-43 | `getMe` answers exactly `{success: true, user: {id, username, isAdmin}}` of the token's principal, whatever its issue and expiry times |
| PublicController.ReadMeaning | backend/src/controllers/publicController.js:6-16 | a list read is wrapped as `{success: true, data}`; a thrown error goes to `next` unchanged (the same shape at lines 40-52, 121-144) |
| PublicController.LookupMeaning | backend/src/controllers/publicController.js:19-37 | a read by id answers 404 with the entity's message exactly when the service returned null, `{success: true, data}` when it found the record, and `next` on an error (the same shape at lines 55-73 and 100-118) |
| PublicController.FiltersOf | backend/src/controllers/publicController.js:78-86 | the filters handed to the service carry category, subCategory, type, usage, search, page and limit from the query, and no sortBy, minPrice or maxPrice |
| PublicController.ForwardsSevenParameters | backend/src/controllers/publicController.js:78-88 | two queries that agree on the seven forwarded parameters make the same service call, whatever their sortBy, price bounds or inStock |
| PublicController.HttpListingByNameWithoutPriceBounds | backend/src/controllers/publicController.js:78-88 | a listing reached over HTTP is always in the service's default name order, and a product's price never decides whether it is listed |
| ProductFilters.Stage | backend/src/services/productService.js:15-57 | each of the seven filters, in the fixed order category, subCategory, type, usage, search, minPrice, maxPrice, contributes at most one criterion: a text filter when truthy, a price bound when supplied |
| ProductFilters.MeetsAllUpTo | backend/src/services/productService.js:100-124 | a product passes the chain of the first n filters exactly when it passes each of those filters |
| ProductFilters.MatchesMeaning | backend/src/services/productService.js:100-124 | meeting all supplied criteria is the same as meeting each filter: exact category, subCategory, `attributes.type` and `attributes.usage`, the lower-cased term in the lower-cased name or description, inclusive min and max price |
| ProductFilters.CategoryStage | backend/src/services/productService.js:100-102 | the category block keeps a product exactly when the filter is absent or the category is equal |
| ProductFilters.SubCategoryStage | backend/src/services/productService.js:103-105 | the subCategory block keeps a product exactly when the filter is absent or the subcategory is equal |
| ProductFilters.TypeStage | backend/src/services/productService.js:106-108 | the type block keeps a product exactly when the filter is absent or `attributes.type` is that string |
| ProductFilters.UsageStage | backend/src/services/productService.js:109-111 | the usage block keeps a product exactly when the filter is absent or `attributes.usage` is that string |
| ProductFilters.SearchStage | backend/src/services/productService.js:112-118 | the search block keeps a product exactly when the term is absent or its lower-cased form occurs in the lower-cased name or description |
| ProductFilters.MinPriceStage | backend/src/services/productService.js:119-121 | a supplied minimum keeps exactly the products priced at or above it, 0 included |
| ProductFilters.MaxPriceStage | backend/src/services/productService.js:122-124 | a supplied maximum keeps exactly the products priced at or below it |
| ProductFilters.CriteriaUpToEmpty | backend/src/services/productService.js:15-57 | no criterion comes from the first n filters exactly when none of them is supplied |
| ProductFilters.NoFiltersNoCriteria | backend/src/services/productService.js:15-57 | there is no criterion exactly when no text filter is truthy and no price bound is supplied |
| ProductFilters.ParamsFor | backend/src/services/productService.js:17-55 | a search criterion pushes two parameters, every other criterion one |
| ProductFilters.Layout | backend/src/services/productService.js:10-57 | the conditions laid out for a list of criteria are one per criterion, in order |
| ProductFilters.LayoutSnoc | backend/src/services/productService.js:16-18 | appending a criterion appends its condition, numbered just past the parameters already pushed, and its parameters |
| ProductFilters.LayoutAdd | backend/src/services/productService.js:15-57 | a supplied filter extends the layout of the filters before it by its own condition and parameters |
| ProductFilters.LayoutSkip | backend/src/services/productService.js:15-57 | a filter that is not supplied leaves the conditions and parameters unchanged |
| ProductFilters.WhereClauseEmptyIffNoFilter | backend/src/services/productService.js:59-61 | the WHERE clause is empty exactly when no filter was supplied, and starts with `WHERE ` otherwise |
| ProductFilters.ConditionMeaning | backend/src/services/productService.js:16-55 | a condition numbered at the next free slot, evaluated against the parameters pushed for it, holds for a row exactly when the row's view meets the criterion |
| ProductFilters.SearchMeaning | backend/src/services/productService.js:39-44 | the LIKE condition over slots k and k+1, both bound to `%term%` lower-cased, holds exactly when the term occurs in the lower-cased name or description |
| ProductFilters.LayoutSound | backend/src/services/productService.js:10-72 | every placeholder of the laid-out conditions names a pushed parameter (`$k` denotes `queryParams[k-1]`), and a row satisfies the whole clause exactly when its view meets every criterion |
| ProductFilters.Views | backend/src/services/productService.js:74-94 | the row mapping keeps length and maps each row to its view, with `isStatic` false |
| ProductFilters.PageOf | backend/src/services/productService.js:64 | the page is the parsed page, or 1 when absent or 0 |
| ProductFilters.LimitOf | backend/src/services/productService.js:65 | the limit is the parsed limit, or 10 when absent or 0 |
| ProductFilters.Refine | backend/src/services/productService.js:100-124 | narrowing the kept static products with one more supplied filter gives the static products meeting the criteria up to and including it |
| ProductQuery.BuildWhere | backend/src/services/productService.js:10-61 | the conditions and parameters built are the layout of the supplied criteria in fixed order, and the clause is their SQL joined by `' AND '` after `WHERE ` |
| ProductQuery.ConditionBlock | backend/src/services/productService.js:15-57 | each `if` block keeps `paramIndex == len(queryParams) + 1` and extends the layout by the block's criterion when its filter is supplied |
| ProductQuery.Push | backend/src/services/productService.js:16-18 | one block body pushes the condition numbered `paramIndex`, its parameters (the search pattern twice, lines 39-44) and advances `paramIndex` past them |
| ProductQuery.Query | backend/src/services/productService.js:69-94 | the rows the built clause selects, ordered by name and mapped, are the database products meeting every supplied filter |
| ProductQuery.StaticFilterChain | backend/src/services/productService.js:97-124 | the filter chain over the copy of the fixtures leaves exactly the static products meeting every supplied criterion, in fixture order |
| ProductQuery.FilterBlock | backend/src/services/productService.js:100-124 | one block narrows the list by its filter when supplied and leaves it as it is otherwise |
| ProductQuery.SortProducts | backend/src/services/productService.js:130-137 | the in-place sort of the merged array yields the stable sort of it by the chosen comparator |
| ProductQuery.GetAll | backend/src/services/productService.js:8-155 | the page holds exactly `all[offset .. offset+limit)` of the sorted merge; `totalProducts` is the merged length, `totalPages = ceil(total/limit)`, `hasNextPage` iff `offset+limit < total`, `hasPrevPage` iff `page > 1` |
| ProductResults.StaticSelectionExact | backend/src/services/productService.js:97-124 | a static product is kept exactly when it is a fixture meeting every supplied filter |
| ProductResults.SelectedRowsMembers | backend/src/services/productService.js:69-72 | a row is selected exactly when it is in the table and its view meets every supplied filter |
| ProductResults.DbListsEveryMatch | backend/src/services/productService.js:69-94 | every table row meeting every supplied filter is listed |
| ProductResults.DbListsOnlyMatches | backend/src/services/productService.js:69-94 | every listed database product is the view of a table row meeting every supplied filter |
| ProductResults.DbProductsByName | backend/src/services/productService.js:70 | `ORDER BY name`: the database products come in name order |
| ProductResults.CombinedCount | backend/src/services/productService.js:127-140 | the merged and sorted list is a permutation of database products plus kept static products, so `totalProducts` is the selected rows plus the kept static products, counted before the slice |
| ProductResults.CombinedMembers | backend/src/services/productService.js:127 | a product is on the merged list exactly when it is a listed database product or a kept static product |
| ProductResults.CombinedInOrder | backend/src/services/productService.js:130-137 | the merged list is in non-decreasing price for `'price-asc'`, non-increasing price for `'price-desc'`, and name order for any other value or none |
| ProductResults.UnderscoreKeysSortByName | backend/src/services/productService.js:130-137 | the frontend's `'price_asc'` and `'price_desc'` keys are not recognised here and sort by name |
| ProductResults.HasNextPageIffMore | backend/src/services/productService.js:152 | `hasNextPage` holds exactly when the following page is not empty |
| Catalog.ComparatorIsTotalPreorder | backend/src/services/productService.js:131-136 | each of the three comparators (price ascending, price descending, name) is total and transitive |
| Catalog.SortByOrder | backend/src/services/productService.js:130-137 | sorting with a variant's comparator yields a permutation of the input in that order |
| ProductService.GetByIdStaticFirst | backend/src/services/productService.js:165-183 | an id held by the fixtures is answered from them, marked `isStatic` true, whatever the table holds |
| ProductService.GetByIdNone | backend/src/services/productService.js:163-189 | `getById` returns null exactly when neither the fixtures nor the table hold the id; a found record carries that id |
| ProductService.GetByIdFromTable | backend/src/services/productService.js:186-208 | a product read from the table is marked non-static and its `images` are `attributes.images`, else `[image]`, else `[]` |
| ProductService.Create | backend/src/services/productService.js:216-248 | the products table and the result become the create outcome over the old table; the other tables are unchanged |
| ProductService.CreateAppendsOneRow | backend/src/services/productService.js:216-243 | create either fails and leaves the table as it was, or appends exactly one row, valid, with non-negative price, carrying the supplied id or the fresh one |
| ProductService.Rewrite | backend/src/services/productService.js:267-284 | the UPDATE statement keeps the number of rows |
| ProductService.Update | backend/src/services/productService.js:251-291 | the products table and the result become the update outcome over the old table; the other tables are unchanged |
| ProductService.UpdateUnknownId | backend/src/services/productService.js:253-256 | an id neither the fixtures nor the table hold fails with `'Product not found'` and writes nothing |
| ProductService.UpdateMergesPatch | backend/src/services/productService.js:258-263 | a successful update keeps the existing id; name, category, subCategory, description and image are the patch's when it supplies them and the existing ones otherwise; price, inStock and attributes likewise, a falsy patch price becoming 0; `createdAt` is a truthy patch value, else the existing one, else now; `updatedAt` is now (also lines 2-13 of backend/src/models/Product.js) |
| ProductService.UpdateStaticWritesNothing | backend/src/services/productService.js:253-284 | updating a static product the table does not hold succeeds and changes no row |
| ProductService.RewriteOnlyThatRow | backend/src/services/productService.js:267-284 | the UPDATE writes only rows with the id, keeps every id and `created_at`, and sets `updated_at` |
| ProductService.UpdateWritesOnlyThatRow | backend/src/services/productService.js:251-286 | a failed update writes nothing; a successful one is the UPDATE of that id with a product stamped now |
| ProductService.Delete | backend/src/services/productService.js:294-307 | the products table and the result become the delete outcome over the old table; the other tables are unchanged |
| ProductService.DeleteRemovesExactlyThatRow | backend/src/services/productService.js:296-302 | delete fails with `'Product not found'` exactly when no row has the id; otherwise it returns true and the remaining rows are every row without the id |
| ProductService.AttrValues | backend/src/services/productService.js:312-318 | the values gathered are exactly the non-empty string values of that attribute over the table's rows |
| ProductService.DistinctAttrExact | backend/src/services/productService.js:310-339 | `getTypes` and `getUsages` list each non-empty value some row carries exactly once, in name order; static products contribute nothing |
| ProductModel.ConstructorDefaults | backend/src/models/Product.js:2-13 | a falsy price becomes 0, an undefined `inStock` becomes true while false is kept, missing attributes become `{}`, falsy timestamps become now, and name and image are copied |
| ProductModel.ViolatedFromMembers | backend/src/models/Product.js:19-41 | the checks from position k on list a rule exactly when the product breaks it and it is checked there |
| ProductModel.ViolatedRules | backend/src/models/Product.js:16-41 | the broken rules come in checking order, each once, at most six |
| ProductModel.ViolatedRulesMembers | backend/src/models/Product.js:17-41 | a rule is listed exactly when the product breaks it |
| ProductModel.ViolatedRulesEmptyIff | backend/src/models/Product.js:43-47 | no rule is listed exactly when the product is valid |
| ProductModel.ValidationErrors | backend/src/models/Product.js:17-41 | the `errors` array holds one message per broken rule, in checking order, and is empty exactly when the product is valid |
| ProductModel.Validate | backend/src/models/Product.js:16-48 | `validate` returns true exactly for a valid product, and otherwise fails with every violation's message joined by `', '` |
| ProductModel.ValidationReportsEveryViolation | backend/src/models/Product.js:17-45 | every broken rule's message is reported, not only the first one's, and no other message is |
| ProductModel.MessageInjective | backend/src/models/Product.js:20-40 | no two rules share a message |
| ProductModel.WhiteSpaceRules | backend/src/models/Product.js:19-29 | a whitespace-only name is the first violation reported, while a category or subcategory of `" "` passes |
| ProductModel.ZeroPriceAccepted | backend/src/models/Product.js:39-41 | a price of 0 passes although the message says positive; a negative price and a non-number price are rejected |
| ProductModel.ToJSON | backend/src/models/Product.js:50-64 | `toJSON` emits every one of the eleven fields, the defaulted ones always present |
| ProductModel.NewProductIsConstructed | backend/src/models/Product.js:9-13 | with a non-empty clock reading a constructed product has non-empty timestamps and a price that is not the falsy `''` |
| ProductModel.RoundTrip | backend/src/models/Product.js:2-13 | constructing a product from its `toJSON()` reproduces every field, whatever the clock reads (also lines 50-64) |
| CategoryModel.ConstructorDefaults | backend/src/models/Category.js:2-9 | a missing description or image becomes `''`, a falsy `createdAt` becomes now and a truthy one is kept |
| CategoryModel.Validate | backend/src/models/Category.js:11-23 | `validate` fails exactly when the name is missing or whitespace-only, always with `'Category name is required'`, and returns true otherwise |
| CategoryModel.ToJSON | backend/src/models/Category.js:25-34 | `toJSON` emits all six fields, the defaulted ones always present |
| CategoryModel.RoundTrip | backend/src/models/Category.js:2-9 | constructing a category from its `toJSON()` reproduces all six fields (also lines 25-34) |
| SubCategoryModel.ConstructorDefaults | backend/src/models/SubCategory.js:2-9 | a missing description becomes `''`, `categoryId` is copied, a falsy `updatedAt` becomes now |
| SubCategoryModel.ValidationErrors | backend/src/models/SubCategory.js:12-20 | the errors hold the name message exactly when the name is missing or blank, the category-id message exactly when `categoryId` is falsy, and nothing else |
| SubCategoryModel.Validate | backend/src/models/SubCategory.js:11-27 | `validate` succeeds exactly when the name is not blank and `categoryId` is truthy; the error message is the failing rules' messages joined by `', '`: the name message alone, the category message alone, or both in that order |
| SubCategoryModel.BlankCategoryIdAccepted | backend/src/models/SubCategory.js:18 | a whitespace-only `categoryId` passes validation |
| SubCategoryModel.ToJSON | backend/src/models/SubCategory.js:29-38 | `toJSON` emits all six fields, the defaulted ones always present |
| SubCategoryModel.RoundTrip | backend/src/models/SubCategory.js:2-9 | constructing a subcategory from its `toJSON()` reproduces every field (also lines 29-38) |
| CategoryService.ByNameIsTotalPreorder | backend/src/services/categoryService.js:9 | `ORDER BY name` compares by a total, transitive name order |
| CategoryService.GetAll | backend/src/services/categoryService.js:7-22 | `getAll` lists as many categories as the table has rows |
| CategoryService.GetAllFromRows | backend/src/services/categoryService.js:9-17 | every listed category is the view of a table row, with a null description or image read as `''` |
| CategoryService.GetAllListsEveryRow | backend/src/services/categoryService.js:9-17 | every row of the table is listed |
| CategoryService.GetAllByName | backend/src/services/categoryService.js:9 | the categories come in name order |
| CategoryService.GetById | backend/src/services/categoryService.js:25-44 | `getById` returns null exactly when no row has the id, and otherwise the view of a row with that id |
| CategoryService.Create | backend/src/services/categoryService.js:47-74 | the categories table and the result become the create outcome over the old table; the other tables are unchanged |
| CategoryService.CreateAppendsOneRow | backend/src/services/categoryService.js:49-69 | create either fails and leaves the table as it was, or appends exactly one row with the chosen id and the supplied non-blank name; a failed validation reports `'Category name is required'` |
| CategoryService.CreateKeepsSuppliedId | backend/src/services/categoryService.js:51 | the supplied id is kept when truthy, otherwise the fresh one is used |
| CategoryService.CreateThenGetById | backend/src/services/categoryService.js:47-69 | after a successful create, `getById` of the new id reads back the record create returned |
| CategoryService.CreateKeepsIdsDistinct | backend/src/services/categoryService.js:56-67 | create preserves the primary-key invariant: ids stay distinct |
| CategoryService.Rewrite | backend/src/services/categoryService.js:93-104 | the UPDATE statement keeps the number of rows |
| CategoryService.Update | backend/src/services/categoryService.js:77-111 | the categories table and the result become the update outcome over the old table; the other tables are unchanged |
| CategoryService.UpdateUnknownId | backend/src/services/categoryService.js:79-82 | an unknown id fails with `'Category not found'` and writes nothing |
| CategoryService.UpdateMergesPatch | backend/src/services/categoryService.js:84-89 | a successful update keeps the existing id; name, description and image are the patch's when it supplies them, `''` included, and the existing ones otherwise; `createdAt` is a truthy patch value, else the existing non-empty one, and now when the merged value is empty; `updatedAt` is now |
| CategoryService.UpdateRewritesOnlyThatRow | backend/src/services/categoryService.js:91-106 | a failed update writes nothing; a successful one rewrites only the rows with that id, keeping every id and `created_at`, with the new name and `updated_at` |
| CategoryService.UpdateKeepsIdsDistinct | backend/src/services/categoryService.js:93-104 | update preserves the primary-key invariant |
| CategoryService.Delete | backend/src/services/categoryService.js:114-137 | the categories table and the result become the delete outcome over the old tables; the other tables are unchanged |
| CategoryService.DeleteBlockedByProducts | backend/src/services/categoryService.js:117-124 | a category some product refers to cannot be deleted: the message is `'Cannot delete category: N product(s) are using it'` with N the number of such products, and the table is unchanged |
| CategoryService.DeleteRemovesExactlyThatRow | backend/src/services/categoryService.js:126-132 | with no dependent products, delete fails with `'Category not found'` when no row has the id, and otherwise returns true and removes exactly the rows with that id, one row under distinct ids |
| CategoryService.InUseSaysCannotDelete | backend/src/services/categoryService.js:123 | the blocked-delete message contains `'Cannot delete'` and differs from `'Category not found'` |
| SubCategoryService.ByNameIsTotalPreorder | backend/src/services/subCategoryService.js:12-16 | `ORDER BY name` compares by a total, transitive name order |
| SubCategoryService.GetAll | backend/src/services/subCategoryService.js:7-31 | `getAll` lists at most the table's rows, and all of them without a category id |
| SubCategoryService.GetAllListsSelected | backend/src/services/subCategoryService.js:10-26 | with a truthy category id every row of that category is listed; without one, every row |
| SubCategoryService.SelectedFromRows | backend/src/services/subCategoryService.js:10-17 | a selected row is a table row, of the given category when there is one |
| SubCategoryService.GetAllOnlySelected | backend/src/services/subCategoryService.js:10-26 | everything listed is the view of a table row, of the given category when there is one |
| SubCategoryService.GetAllByName | backend/src/services/subCategoryService.js:12-16 | the subcategories come in name order |
| SubCategoryService.GetById | backend/src/services/subCategoryService.js:34-53 | `getById` returns null exactly when no row has the id, and otherwise the view of a row with that id |
| SubCategoryService.Create | backend/src/services/subCategoryService.js:56-89 | the subcategories table and the result become the create outcome over the old tables; the other tables are unchanged |
| SubCategoryService.CreateChecksCategoryFirst | backend/src/services/subCategoryService.js:59-84 | a missing category fails with `'Category not found'` before any validation; a failure inserts nothing; a success appends exactly one row with the supplied or fresh id and an existing category |
| SubCategoryService.CreateKeepsIdsDistinct | backend/src/services/subCategoryService.js:71-82 | create preserves the primary-key invariant |
| SubCategoryService.Rewrite | backend/src/services/subCategoryService.js:116-127 | the UPDATE statement keeps the number of rows |
| SubCategoryService.Update | backend/src/services/subCategoryService.js:92-134 | the subcategories table and the result become the update outcome over the old tables; the other tables are unchanged |
| SubCategoryService.UpdateChecksCategoryOnlyWhenGiven | backend/src/services/subCategoryService.js:94-105 | an unknown subcategory fails with `'Subcategory not found'` first; a truthy patch `categoryId` naming no category fails with `'Category not found'`; without one the categories table is not consulted |
| SubCategoryService.UpdateMergesPatch | backend/src/services/subCategoryService.js:107-127 | a successful update keeps the id; name, category id and description are the patch's when it supplies them and the existing ones otherwise; `createdAt` is a truthy patch value, else the existing non-empty one, and now when the merged value is empty; `updatedAt` is now; and only the rows with that id change |
| SubCategoryService.UpdateFailureWritesNothing | backend/src/services/subCategoryService.js:94-114 | a failed update writes nothing |
| SubCategoryService.UpdateKeepsIdsDistinct | backend/src/services/subCategoryService.js:116-127 | update preserves the primary-key invariant |
| SubCategoryService.Delete | backend/src/services/subCategoryService.js:137-160 | the subcategories table and the result become the delete outcome over the old tables; the other tables are unchanged |
| SubCategoryService.DeleteBlockedByProducts | backend/src/services/subCategoryService.js:140-147 | a subcategory some product refers to cannot be deleted: the message carries the number of such products and the table is unchanged |
| SubCategoryService.DeleteRemovesExactlyThatRow | backend/src/services/subCategoryService.js:149-155 | with no dependent products, delete fails with `'Subcategory not found'` when no row has the id, and otherwise returns true and removes exactly the rows with that id |
| SubCategoryService.InUseSaysCannotDelete | backend/src/services/subCategoryService.js:146 | the blocked-delete message contains `'Cannot delete'` and differs from `'Subcategory not found'` |
| AuthService.InitializeDefaultAdmin | backend/src/services/authService.js:9-38 | the admins table becomes the bootstrap outcome over the old one; the other tables are unchanged |
| AuthService.BootstrapOnlyWhenEmpty | backend/src/services/authService.js:11-28 | exactly when the table is empty, exactly one admin is inserted with the default username, the hash of the default password and the admin flag; otherwise nothing changes |
| AuthService.LoginFailuresAlike | backend/src/services/authService.js:43-54 | an unknown username and a wrong password fail with the same `'Invalid credentials'`, and login has no other failure |
| AuthService.LoginReturnsPublicFields | backend/src/services/authService.js:49-74 | a successful login matched the first admin with that username against its stored hash and returns that admin's id, username and flag, never the hash, with a token signed over the same three fields |
| AuthService.BootstrapThenLogin | backend/src/services/authService.js:11-74 | with a comparison that accepts a password against its own hash, the default credentials log in right after the bootstrap of an empty table |
| AuthService.CreateAdmin | backend/src/services/authService.js:82-115 | the admins table and the result become the createAdmin outcome over the old table; the other tables are unchanged |
| AuthService.CreateAdminAppendsAdmin | backend/src/services/authService.js:85-110 | an existing username fails with `'Admin already exists'` and leaves the table as it was; a success appends one row with the admin flag and the password's hash, and returns only id, username and flag |
| AuthService.CreateAdminKeepsUsernamesDistinct | backend/src/services/authService.js:85-103 | createAdmin keeps usernames distinct |
| AuthService.SetPassword | backend/src/services/authService.js:135-138 | the UPDATE statement keeps the number of rows |
| AuthService.ChangePassword | backend/src/services/authService.js:118-145 | the admins table and the result become the changePassword outcome over the old table; the other tables are unchanged |
| AuthService.ChangePasswordTouchesOnlyThatAdmin | backend/src/services/authService.js:120-140 | an unknown id fails with `'Admin not found'` and a wrong old password with `'Current password is incorrect'`, and neither writes anything; a success changes only that admin's hash and `updated_at` |
| AuthService.ChangePasswordThenLogin | backend/src/services/authService.js:118-140 | with a sound comparison and distinct usernames, the admin logs in with the new password after a successful change |
| InitDatabase.NewlineEnd | backend/src/config/initDatabase.js:20 | the `\s*\n` tail of a separator, scanned greedily, ends after the last newline of the whitespace run or not at all |
| InitDatabase.MatchAt | backend/src/config/initDatabase.js:20 | a separator match at a position is a `;` followed by whitespace that holds a newline, at least two characters, within the text |
| InitDatabase.FirstMatch | backend/src/config/initDatabase.js:20 | the leftmost separator match at or after a position lies inside the text |
| InitDatabase.FirstMatchLeftmost | backend/src/config/initDatabase.js:20 | no separator starts before the first match `split` uses |
| InitDatabase.Split | backend/src/config/initDatabase.js:19-20 | `split(/;\s*\n/)` yields at least one piece |
| InitDatabase.NewlineEndShape | backend/src/config/initDatabase.js:20 | the matched tail is whitespace ending in a newline |
| InitDatabase.MatchIsSeparator | backend/src/config/initDatabase.js:20 | every match is a `;`, whitespace, and a final newline |
| InitDatabase.SplitStep | backend/src/config/initDatabase.js:19-20 | with no match the schema is one piece; otherwise the piece before the first match followed by the split of the rest |
| InitDatabase.SeparatorCount | backend/src/config/initDatabase.js:19-20 | there is one more piece than separators |
| InitDatabase.SeparatorAt | backend/src/config/initDatabase.js:20 | every removed separator matches `;\s*\n` |
| InitDatabase.SplitReassembles | backend/src/config/initDatabase.js:19-20 | joining the pieces with the removed separators gives back the schema text |
| InitDatabase.PiecesHoldNoMatch | backend/src/config/initDatabase.js:19-20 | no piece contains a separator match |
| InitDatabase.LineEnd | backend/src/config/initDatabase.js:24 | the `.` of `--.*$` in multiline mode stops at the first line terminator |
| InitDatabase.StripCommentsKeepsCharacters | backend/src/config/initDatabase.js:24 | `replace(/--.*$/gm, '')` only deletes characters |
| InitDatabase.StrippedHasNoDoubleDash | backend/src/config/initDatabase.js:24 | after the replace no `--` is left |
| InitDatabase.KeepIffContent | backend/src/config/initDatabase.js:22-26 | a piece is kept exactly when its comment-stripped, trimmed text is not empty; the `startsWith('--')` test never rejects anything more |
| InitDatabase.TrimAll | backend/src/config/initDatabase.js:21 | `map(s => s.trim())` trims every piece and keeps their number and order |
| InitDatabase.StatementsExact | backend/src/config/initDatabase.js:19-26 | a text is a statement exactly when it is a trimmed piece whose comment-stripped text is not blank |
| InitDatabase.KeptIsNotBlank | backend/src/config/initDatabase.js:22-29 | every kept statement passes the `statement.trim()` test of the loop |
| InitDatabase.Warning | backend/src/config/initDatabase.js:37 | `substring(0, 100)` is the prefix of at most 100 characters, the whole message when it is short |
| InitDatabase.Warnings | backend/src/config/initDatabase.js:32-38 | there are no more warnings than errors, each of at most 100 characters |
| InitDatabase.ShownErrorsWarn | backend/src/config/initDatabase.js:34-37 | every error whose message has none of `already exists`, `duplicate`, `does not exist` produces its warning |
| InitDatabase.WarningsComeFromErrors | backend/src/config/initDatabase.js:34-37 | every warning is the truncated message of an error that is not ignored |
| InitDatabase.RunConcat | backend/src/config/initDatabase.js:28-41 | a failing statement never stops the rest: running two lists is running the second from the schema the first left, with the errors and attempts of both |
| InitDatabase.RunConcatErrors | backend/src/config/initDatabase.js:28-41 | the schema and the errors after two lists of statements are those of running them one after the other |
| InitDatabase.RunSnoc | backend/src/config/initDatabase.js:28-41 | one loop step: a blank statement is skipped, any other goes to the database and its error, if any, is recorded |
| InitDatabase.RunAttempts | backend/src/config/initDatabase.js:28-31 | exactly the non-blank statements reach the database, in order |
| InitDatabase.RunStatements | backend/src/config/initDatabase.js:28-41 | the `for` loop ends in the schema, errors and attempts of the specification `Run` |
| InitDatabase.RunOne | backend/src/config/initDatabase.js:29-39 | the loop body skips a blank statement; any other is sent, the schema it leaves is kept, and its error, if any, is caught and recorded |
| InitDatabase.EveryStatementAttempted | backend/src/config/initDatabase.js:22-29 | the loop's own blank test removes no statement the filter kept |
| InitDatabase.InitSchema | backend/src/config/initDatabase.js:19-41 | `initDatabase` sends every statement of the split schema, in order, and its errors are those of `Run` |
| InitDatabase.MigrationDefaults | backend/src/config/initDatabase.js:84-139 | the migrated rows default a missing description or image to `''`, a falsy price to 0, a missing `inStock` to true (keeping false), missing attributes to `{}`, and a missing timestamp to now |
| InitDatabase.CategoryRows | backend/src/config/initDatabase.js:82-96 | one category row per JSON category, in order |
| InitDatabase.SubCategoryRows | backend/src/config/initDatabase.js:102-116 | one subcategory row per JSON subcategory, in order |
| InitDatabase.ProductRows | backend/src/config/initDatabase.js:122-141 | one product row per JSON product, in order |
| InitDatabase.InsertAllKeepsExisting | backend/src/config/initDatabase.js:86 | `ON CONFLICT (id) DO NOTHING` never changes or removes a row already in the table (also lines 106, 126) |
| InitDatabase.InsertAllKeys | backend/src/config/initDatabase.js:86 | after the inserts an id is in the table exactly when it was there before or came with the data (also lines 106, 126) |
| InitDatabase.HasKeySnoc | backend/src/config/initDatabase.js:86 | appending a row adds exactly its id to the ids present (also lines 106, 126) |
| InitDatabase.InsertAllKeepsKeysDistinct | backend/src/config/initDatabase.js:86 | ids stay distinct, also when the data repeats an id (also lines 106, 126) |
| InitDatabase.MigrateData | backend/src/config/initDatabase.js:58-150 | no data file, or a non-empty categories or products table, leaves every table as it was; otherwise each table receives the rows of its JSON list under `ON CONFLICT DO NOTHING`; admins are never touched |
| InitDatabase.MigrateCategories | backend/src/config/initDatabase.js:81-98 | the loop over the categories inserts each row in order and touches no other table |
| InitDatabase.MigrateSubCategories | backend/src/config/initDatabase.js:101-118 | the loop over the subcategories inserts each row in order and touches no other table |
| InitDatabase.MigrateProducts | backend/src/config/initDatabase.js:121-143 | the loop over the products inserts each row in order and touches no other table |
| LegacyServer.ByIdMeaning | backend/server.js:33-40 | a lookup by id answers 404 with its message exactly when no record carries the id, and otherwise 200 with the first record that does (also lines 55-62, 133-140) |
| LegacyServer.LookupsAnswer | backend/server.js:33-40 | the category, subcategory and product lookups answer 404 with `Category not found`, `Subcategory not found`, `Product not found` exactly when the id is absent (also lines 55-62, 133-140) |
| LegacyServer.SubCategoriesOfExact | backend/server.js:43-52 | without a truthy `categoryId` every subcategory is listed; with one exactly those of that category, in data-file order |
| LegacyServer.PassesAllMeaning | backend/server.js:69-108 | a record passes the six filter stages exactly when it meets every supplied parameter |
| LegacyServer.SearchStage | backend/server.js:80-86 | a truthy search keeps the records whose lower-cased name or description contains the lower-cased term |
| LegacyServer.TypeStage | backend/server.js:89-94 | a truthy `type` keeps the records that have a `type` attribute equal to it ignoring case, and drops those without one |
| LegacyServer.UsageStage | backend/server.js:97-102 | a truthy `usage` keeps the records whose `usage` attribute contains it ignoring case, and drops those without one |
| LegacyServer.ListedExact | backend/server.js:67-108 | a record is listed exactly when it is in the data file and meets every supplied parameter |
| LegacyServer.ListedKeepsFileOrder | backend/server.js:67-116 | nothing is sorted: the listing of a concatenation is the concatenation of the listings |
| LegacyServer.NoFilterListsAll | backend/server.js:67-108 | with no filter parameter every record is listed |
| LegacyServer.InStockStrings | backend/server.js:105-108 | `inStock=true` keeps in-stock records and any other supplied string keeps the out-of-stock ones |
| LegacyServer.FilterStep | backend/server.js:70-108 | each `if (...) products = products.filter(...)` turns the records kept by the first k stages into those kept by k+1 |
| LegacyServer.PageNumber | backend/server.js:112 | `parseInt(page) \|\| 1` is at least 1 and is the page given when it is positive |
| LegacyServer.LimitNumber | backend/server.js:113 | `parseInt(limit) \|\| 10` is at least 1 and is the limit given when it is positive |
| LegacyServer.GetProducts | backend/server.js:65-130 | the answer is the slice `[start, start + limit)` of the filtered records, with `totalProducts` counted before slicing, `totalPages` the ceiling of total over limit, `hasNextPage` iff the end is below the total and `hasPrevPage` iff the page is above 1 |
| LegacyServer.ListingPageShape | backend/server.js:111-127 | a page holds at most `limit` records, and `hasNextPage` holds exactly when the page is below `totalPages` |
| LegacyServer.AttrValuesExact | backend/server.js:144-147 | the mapped attribute values are exactly the truthy string values of that attribute among the records (also lines 154-157) |
| LegacyServer.DropdownValuesExact | backend/server.js:143-160 | the types and usages lists hold exactly the truthy attribute values, each once |
| StaticData.SearchStage | frontend/src/data/staticData.js:299-305 | a truthy search keeps the products whose lower-cased name or description contains the lower-cased term |
| StaticData.PassesAllMeaning | frontend/src/data/staticData.js:270-305 | surviving the seven filter blocks is meeting every supplied filter: category, subcategory, exact case-sensitive `type` and `usage`, inclusive price bounds, and the search |
| StaticData.MatchingExact | frontend/src/data/staticData.js:268-305 | a product survives the filters exactly when it is in the input and meets every supplied filter |
| StaticData.FilteredExact | frontend/src/data/staticData.js:267-319 | the result is a sub-multiset of the input, and a product is in it exactly when it is in the input and meets every supplied filter |
| StaticData.FilteredOrder | frontend/src/data/staticData.js:308-316 | `price_asc` gives non-decreasing prices, `price_desc` non-increasing ones and `name` name order; with no or an unknown `sortBy` the input order is kept |
| StaticData.SelectionAgreesWithBackendStatics | frontend/src/data/staticData.js:270-305 | the fixture filters select the same products as the backend's filter of its static products given the same filters |
| StaticData.FilterStep | frontend/src/data/staticData.js:270-305 | each `if (...) filtered = filtered.filter(...)` block turns the products kept by the first k blocks into those kept by k+1 |
| StaticData.FilterProducts | frontend/src/data/staticData.js:267-319 | `filterProducts` returns the filtered and sorted copy and leaves the input array unchanged |
| StaticData.SortBy | frontend/src/data/staticData.js:308-316 | a known `sortBy` sorts the survivors with its comparator; any other leaves them in order |
| StaticData.PaginateMeaning | frontend/src/data/staticData.js:322-336 | the page is the products from `(page - 1) * limit` on, at most `limit` of them, with page 1 and limit 6 by default; the metadata counts the whole list, and a page past `totalPages` is empty |
| CatalogPage.BuildFiltersMeaning | frontend/src/pages/Catalog.js:88-97 | the request always asks for page `currentPage` with limit 6, and carries each filter and the sort exactly when its state variable is not empty, with that value |
| CatalogPage.PageFromUrl | frontend/src/pages/Catalog.js:31 | `parseInt(page) \|\| 1` is never 0, and a missing page gives 1 |
| CatalogPage.PageFromUrlDigits | frontend/src/pages/Catalog.js:31 | a page parameter starting with decimal digits of non-zero value reads as those digits up to the first non-digit, with a leading minus as their negation, and one offering no digit reads as 1 |
| CatalogPage.PageFromUrlHex | frontend/src/pages/Catalog.js:31 | a page parameter `0x…` or `-0x…` with hexadecimal digits of non-zero value reads as their base-16 value, negated after a minus |
| CatalogPage.UrlRoundTrip | frontend/src/pages/Catalog.js:25-31 | the `useState` initialisers read back exactly the filters, sort and page the URL effect wrote (also lines 153-163) |
| CatalogPage.MountedFilters | frontend/src/pages/Catalog.js:56-74 | after the mount run of the subcategory effect, there is no subcategory without a category, and every other filter is the one the URL gave |
| CatalogPage.MountedRoundTrip | frontend/src/pages/Catalog.js:56-79 | reopening the URL the catalog wrote gives back its filters and sort, less a subcategory chosen without a category, whatever page the URL names |
| CatalogPage.DefaultsLeaveUrlEmpty | frontend/src/pages/Catalog.js:160-161 | the default state writes no parameter: `sortBy` is left out when it is `name` and `page` when it is 1 |
| CatalogPage.ActiveFiltersShowInUrl | frontend/src/pages/Catalog.js:153-163 | `hasActiveFilters` holds exactly when the URL carries a parameter besides the page (also line 189) |
| CatalogPage.LegacyPageMeaning | frontend/src/pages/Catalog.js:102-118 | for a bare array, the page is at most six products from `(currentPage - 1) * 6` on, `totalPages` is the ceiling of the count over 6, `hasNextPage` holds iff the page is before the last and `hasPrevPage` iff it is after the first |
| CatalogPage.PageItems | frontend/src/pages/Catalog.js:391-402 | the row has one item per page when there is more than one page, and none otherwise |
| CatalogPage.PageItemsMeaning | frontend/src/pages/Catalog.js:402-425 | page 1, the last page and the pages within one of the current page render as buttons; an ellipsis renders exactly two away from the current page where there is no button; every other page renders nothing |
| CatalogPage.OneActiveButton | frontend/src/pages/Catalog.js:413 | the button of the current page is the only active one |
| CatalogPage.ShownPagesFew | frontend/src/pages/Catalog.js:404-424 | only page 1, the last page and the pages within two of the current page render anything |
| CatalogPage.CatalogState.constructor | frontend/src/pages/Catalog.js:25-79 | mounting reads each filter or `''` and the sort or `name` from the URL and records the URL page as `firstPage`; the mount runs of the effects then clear the subcategory when no category is selected and set the page to 1 |
| CatalogPage.CatalogState.ClearFilters | frontend/src/pages/Catalog.js:174-182 | `clearFilters` empties every filter, sorts by name and goes to page 1, leaving no active filter and an empty URL |
| CatalogPage.CatalogState.HandlePageChange | frontend/src/pages/Catalog.js:184-187 | `handlePageChange` moves to the given page and changes no filter |
| CatalogPage.CatalogState.HandleCategoryChange | frontend/src/pages/Catalog.js:169-172 | the category is set and the subcategory dropped; the page goes back to 1 exactly when the category or the subcategory took a new value, as the filter effect runs only then; the other filters are kept (also lines 77-79) |
| CatalogPage.CatalogState.HandleSearchChange | frontend/src/pages/Catalog.js:165-167 | the search term is set; the page goes back to 1 exactly when the term is a new one, and the filters are kept (also lines 77-79) |
| CatalogPage.Reload | frontend/src/pages/Catalog.js:25-79 | reopening the catalog from the URL its state wrote reads the page back as `firstPage` but settles on page 1, with the same filters and sort less a subcategory chosen without a category (also lines 153-163) |
| ImageGallery.PlaceholderIff | frontend/src/components/ProductImageGallery.js:9-21 | an array is used as it is and a single truthy image becomes a list of one; the placeholder shows exactly for an empty array, an empty string or a missing prop |
| ImageGallery.ArrowsStayInRange | frontend/src/components/ProductImageGallery.js:23-33 | both arrows keep an index in `[0, n)`; `goToNext` is `(i + 1) mod n`, wrapping `n - 1` to 0, and `goToPrevious` is `(i - 1 + n) mod n`, wrapping 0 to `n - 1` |
| ImageGallery.ArrowsAreInverse | frontend/src/components/ProductImageGallery.js:23-33 | `goToNext` then `goToPrevious`, or the other way round, restores any index in range |
| ImageGallery.AdvanceWrapsOnce | frontend/src/components/ProductImageGallery.js:29-33 | up to `n` presses of the right arrow wrap around at most once |
| ImageGallery.FullCycle | frontend/src/components/ProductImageGallery.js:29-33 | `n` presses of the right arrow return to the starting image |
| ImageGallery.Gallery.constructor | frontend/src/components/ProductImageGallery.js:6-9 | the gallery shows the normalised list and starts on its first image |
| ImageGallery.Gallery.GoToPrevious | frontend/src/components/ProductImageGallery.js:23-27 | `goToPrevious` steps back one image, wrapping 0 to the last, and keeps the index in range |
| ImageGallery.Gallery.GoToNext | frontend/src/components/ProductImageGallery.js:29-33 | `goToNext` steps forward one image, wrapping the last to 0, and keeps the index in range |
| ImageGallery.Gallery.GoToImage | frontend/src/components/ProductImageGallery.js:35-37 | `goToImage(i)` sets the index to exactly `i` |
| Carousel.JsRemainder | frontend/src/components/Carousel.js:29 | JavaScript's `%` of a non-negative number by a positive one is the remainder in `[0, n)` (also lines 40, 44) |
| Carousel.ArrowsStayOnSlides | frontend/src/components/Carousel.js:39-45 | `goToNext` maps i to `(i + 1) mod 4` and `goToPrevious` to `(i - 1 + 4) mod 4`, both inside `[0, 4)` |
| Carousel.ArrowsAreInverse | frontend/src/components/Carousel.js:39-45 | `goToNext` and `goToPrevious` undo each other on `[0, 4)` |
| Carousel.AutoAdvanceIsNext | frontend/src/components/Carousel.js:27-33 | the step of the timer is the same function as `goToNext` (also lines 43-45) |
| Carousel.FourStepsReturn | frontend/src/components/Carousel.js:8-25 | four steps forward come back to the starting slide (also lines 43-45) |
| Carousel.CarouselState.constructor | frontend/src/components/Carousel.js:6 | the carousel starts on slide 0 |
| Carousel.CarouselState.GoToSlide | frontend/src/components/Carousel.js:35-37 | `goToSlide(i)` sets the index to exactly `i` |
| Carousel.CarouselState.GoToPrevious | frontend/src/components/Carousel.js:39-41 | `goToPrevious` takes the previous slide and keeps the index among the four |
| Carousel.CarouselState.GoToNext | frontend/src/components/Carousel.js:43-45 | `goToNext` takes the next slide and keeps the index among the four |
| Carousel.CarouselState.Tick | frontend/src/components/Carousel.js:28-30 | one firing of the interval takes the next slide and keeps the index among the four |

## Notes on the code

- **Listing parameters over HTTP.** The public controller forwards only
  category, subCategory, type, usage, search, page and limit to the
  product service (`publicController.js:78-86`); `minPrice`, `maxPrice`,
  `inStock` and `sortBy` in the query string are dropped.
  - So a listing reached over HTTP is always in name order, and price
    never filters it.
  - `PublicController.HttpListingByNameWithoutPriceBounds` states this.
- **Sort keys.** The services layer sorts by `price-asc`/`price-desc`,
  while the fixture helper and the catalog page use `price_asc`/`price_desc`.
  - So the frontend's keys sort by name in the services layer.
  - `ProductResults.UnderscoreKeysSortByName` states this.
- **Product references.** `productService.create` checks neither the
  product's category nor its subcategory against their tables, and the
  model does not either.
- **Static products.**
  - In the services layer, static products are filtered, sorted and
    counted together with the table rows before the page is cut.
  - An update of a static product answers the merged product, but its
    `UPDATE` writes nothing unless the table holds a row with that id
    (`ProductService.UpdateStaticWritesNothing`).
- **Fallback.** The frontend API module's fallback to the fixture set
  when a backend call fails is not part of this model.

## Left out

- Console output and file I/O. The schema text and the parsed JSON file
  are parameters. The warnings of `initDatabase` are modelled as the list
  of truncated messages of the errors it does not ignore. The connection
  test `SELECT 1` and the outer `catch` that classifies connection errors
  are left out.
- `schema.sql` is not part of this model. Its statements are taken as
  given, and a database error is whatever the `query` function value
  returns. Foreign-key constraints, `ON DELETE` actions and column types
  are not modelled; a table is a sequence of rows.
- The SQL engine:
  - `LOWER(column) LIKE` with the lowercased `%term%` pattern is
    modelled only for the patterns the code builds, ignoring wildcard
    characters inside the term.
  - JSONB is modelled only as key lookup in the attributes map.
  - `ORDER BY` is a stable insertion sort with the modelled comparator.
- `localeCompare` is modelled as code-point lexicographic order.
- `toLowerCase` is modelled as ASCII case mapping.
- `trim` and `\s` are modelled over the common whitespace code points.
- Prices are integers (for example cents) rather than floats. `parseFloat`
  and `toFixed` are not modelled, and a price bound that would parse to
  `NaN` is treated as absent.
- ProductFilters.PageOf and ProductFilters.LimitOf take the backend's
  `page` and `limit` query strings already read as an optional natural
  number; `parseInt` of them (sign, hexadecimal prefix, `NaN`) is not
  modelled there. The catalog page reads its own URL through
  `Text.ParseInt`, which models radix-less `parseInt`: leading white
  space, one optional sign, base 16 after `0x` or `0X`, the longest prefix
  of digits of the base, and `NaN` without a digit. It does not model an
  exponent or a digit outside ASCII. A negative page would reach JavaScript's
  negative-index `slice`, so pages and limits below 1 are excluded:
  - `StaticData.PaginateMeaning`, `StaticData.PaginateProducts` and
    `CatalogPage.LegacyPageMeaning` require a page (and limit) of at
    least 1.
  - `LegacyServer.PageNumber` and `LegacyServer.LimitNumber` take the
    query value as a natural number, so a negative `parseInt` result is
    not modelled.
- bcrypt, jsonwebtoken and uuid are foreign libraries:
  - hashing, verification and signing come in as a `Crypto` record of
    function values. A function value hashes equal passwords to equal
    hashes, whereas `bcrypt.hash` draws a fresh salt on every call, so the
    model does not capture that two hashes of one password differ;
  - fresh ids and the current time are parameters;
  - token expiry and the authentication middleware are not modelled.
- A JSON property sent as `null` is read as absent (`None`), the same as
  an omitted one. The source tells them apart where a spread
  `{ ...existing, ...patch }` copies the `null`, and where
  `data.inStock !== undefined` keeps it. The lines below name each member
  whose contract this changes.
- ProductModel.ConstructorDefaults: `inStock: null` gives `true`, where
  the constructor keeps `null` (Product.js:10). The same holds for
  ProductModel.NewProduct. Every other property of the constructor treats
  `null` as it treats an absent one.
- ProductService.Create: `inStock: null` is stored as `true`, where the
  source stores `null`. No other property sent as `null` changes the
  outcome.
- ProductService.UpdateMergesPatch: a patch property sent as `null` keeps
  the existing value. In the source the spread copies the `null`, so
  `price` becomes 0, `attributes` becomes `{}`, `createdAt` becomes now
  and `inStock` becomes `null`.
- ProductService.Update: a patch with `name`, `category`, `subCategory`,
  `description` or `image` sent as `null` succeeds and keeps the old
  value, where the source fails with that property's validation message.
  The other `null` properties are as under UpdateMergesPatch.
- CategoryService.UpdateMergesPatch: a patch property sent as `null`
  keeps the existing value. In the source `description` and `image`
  become `''` (Category.js:5-6) and `createdAt` becomes now.
- CategoryService.Update: `{"name": null}` succeeds and keeps the old
  name, where the source fails with "Category name is required". A
  `null` description or image keeps the old one, where the source stores
  `''`.
- SubCategoryService.UpdateMergesPatch: a patch property sent as `null`
  keeps the existing value. In the source `description` becomes `''`
  (SubCategory.js:6) and `createdAt` becomes now.
- SubCategoryService.Update: a `null` `name` or `categoryId` succeeds and
  keeps the old value, where the source skips the category check and
  fails with "Subcategory name is required" or "Category ID is
  required". A `null` description keeps the old one, where the source
  stores `''`.
- JSON records always carry their `description` and `image` fields as
  strings. Attribute values are strings or lists of strings.
  The `images` attribute is taken to be a list: `ImagesOf` falls back to
  the row's `image` when it is not, where the source would keep any
  truthy value. A non-string
  `type` or `usage` attribute is treated as absent by the legacy and
  fixture filters, and by the legacy dropdown lists
  (`LegacyServer.AttrValues`, `LegacyServer.Types`, `LegacyServer.Usages`),
  where the source would list any truthy value.
- `new Set` deduplication compares values, which for the strings involved
  is what JavaScript's `SameValueZero` does.
- React rendering, the `useEffect` scheduling, `window.scrollTo`, CSS, the
  marketing pages and the admin dashboard's client-side search are left
  out.
  - The effect that returns to page 1 after a filter change is folded
    into `CatalogState.HandleCategoryChange` and
    `CatalogState.HandleSearchChange`, which reset the page only when a
    filter took a new value, as React runs the effect only then. Its mount run, and the mount run of
    the subcategory effect, are folded into the `CatalogState`
    constructor.
  - The first render's fetch and URL write, which still use the page and
    subcategory read from the URL, are not modelled; the constructor
    keeps only that page, as `firstPage`, and the state the page settles
    in.
  - The filters the other dropdowns set are not separate methods: they
    are plain state setters.
- Carousel.CarouselState.Tick: models one firing of the five-second
  interval. The timer itself, and clearing it on unmount, are not
  modelled.
- Carousel.JsRemainder: its contract covers non-negative dividends only.
  Every call of the carousel passes one when the index is in range. For a
  negative dividend the body follows JavaScript's sign rule, but no lemma
  states it.
- ImageGallery.Gallery.constructor: the normalised image list is fixed
  when the gallery is built. A change of the `images` prop while
  `currentIndex` keeps its value is not modelled.
- ImageGallery.Gallery.GoToImage and Carousel.CarouselState.GoToSlide do
  not promise `Valid()`: the source accepts any index, and only the
  thumbnails and dots it renders call them with one in range.
- `Product`, `Category` and `SubCategory` are datatypes built by
  constructor functions, not classes with assigned fields. Their
  instances are never mutated after construction; `update` builds a new
  one from the merged data.
- Database connection pooling, the CLI scripts, the route wiring and the
  configuration files are left out. So is concurrency, since each request
  is modelled as one atomic call.

# DGtech catalog — a Dafny model

DGtech is an electronics shop. Its Express/Sequelize backend keeps
categories, products, reviews and users in four tables and serves them over
HTTP. Its Next.js frontend caches categories, products and the signed-in
account in Zustand stores, validates form input, and picks an emoji icon
for each category name. This project models that core in Dafny and proves
what the handlers, stores and helpers promise.

- **Tables** are classes holding a `map` from primary key to row. The
  categories (`CategoryController.CategoryTable`) and reviews
  (`ReviewController.ReviewTable`) also hold the auto-increment counter.
  Products live in `ProductController.ProductTable`, keyed by UUID text,
  and users in `WebhookController.UserTable`, keyed by the identity
  provider's id.
- **Handlers** are methods that return the HTTP status and update the map.
  Every error path of the source has its own postcondition: the 400, 404,
  409 and 500 answers, and the exceptions that Sequelize turns into 500.
- **The product listing** (`GET /products`) is a pure function,
  `ProductQuery.ListProducts`. It builds the `where` clause from the query,
  filters, sorts stably by the requested key and direction, and cuts out
  the page. It returns the count, the number of pages, the current page
  and the rows. The handler method `GetAllProducts` runs it over an
  enumeration of the table and is proved to meet it.
- **The review listing** is a pure filter plus a newest-first sort. The
  user webhook is the pure function `AfterWebhook`, and the handler method
  is proved equal to it.
- **The frontend stores** are classes with the source's fields. Each API
  call's result (`ClientApi.Outcome`: the server's value, or a failure
  with its message) is a parameter, so both paths are proved. The
  list-building array idioms (`map` by id, `filter` by id) are the
  functions in `ListOps`.
- **Validation and icons** are pure functions.
  - The two regular expressions are written out as predicates over
    characters. Each check is proved equal to a declarative statement of
    its pattern.
  - The icon table is a sequence that keeps the object's insertion order,
    because `getCategoryIcon` returns the first key contained in the
    normalised name. That makes "headphone" and "earphone" names get the
    phone icon ("phone" comes first), and "máy tính bảng" get the laptop
    icon ("máy_tính" comes first). The model proves both.

Prices are whole numbers of cents, and string parameters are parsed before
they reach the model. A numeric parameter (price, stock, category id, page,
page size and the price and stock bounds) that is absent or empty is `None`;
a text field (name, description, search) keeps the empty string as
`Some("")`, which the handlers treat as falsy where the source tests
truthiness. Names are compared by code point.

For prices 50, 120, 150, 180 and 250 and the range 100 to 200, the
inclusive bounds (`Op.gte` / `Op.lte`) keep 120, 150 and 180, which fill
two pages of two; `ProductQuery.PriceRangeScenario` proves this.

## Model

| member | source | states |
|---|---|---|
| ValidationUtil.IsRequired | frontend/src/utils/validationUtil.ts:46-50 | undefined and null are not given; text is given exactly when it holds a non-whitespace character (trim then length); a number is always given |
| ValidationUtil.RangeIsInclusive | frontend/src/utils/validationUtil.ts:55-57 | both bounds and every value between them are in range; values outside them are not |
| ValidationUtil.ZeroIsNotPositive | frontend/src/utils/validationUtil.ts:62-64 | zero and every negative value are rejected, every value above zero accepted |
| ValidationUtil.IsValidImage | frontend/src/utils/validationUtil.ts:23-41 | valid exactly when the MIME type is one of the four allowed and the size is at most 5 MiB (frontend/src/constants/appConstant.ts:11-12); a bad type reports the type error first, otherwise an oversize file reports the size error; valid exactly when no error |
| ValidationUtil.RemoveWhitespaceChars | frontend/src/utils/validationUtil.ts:17 | the stripped text keeps exactly the non-whitespace characters of the input |
| ValidationUtil.RemoveWhitespaceIdempotent | frontend/src/utils/validationUtil.ts:17 | stripping twice is stripping once |
| ValidationUtil.NoWhitespaceUnchanged | frontend/src/utils/validationUtil.ts:17 | text without whitespace is left as it is |
| ValidationUtil.PhoneShape | frontend/src/utils/validationUtil.ts:15-18 | a phone number is valid exactly when, with whitespace removed, it is `0` or `+84`, then one of 3/5/7/8/9, then exactly eight digits |
| ValidationUtil.PhoneIgnoresWhitespace | frontend/src/utils/validationUtil.ts:17 | inserting any run of whitespace anywhere does not change the verdict |
| ValidationUtil.EmailCheckMatchesPattern | frontend/src/utils/validationUtil.ts:7-10 | the scanning check accepts exactly the strings `a@b.c` whose parts are non-empty and free of whitespace and `@` |
| ValidationUtil.EmailCheckSound | frontend/src/utils/validationUtil.ts:8-9 | every accepted address splits into such parts |
| ValidationUtil.EmailCheckComplete | frontend/src/utils/validationUtil.ts:8-9 | every such `a@b.c` is accepted |
| IconConstant.Underscore | frontend/src/constants/iconConstant.ts:41 | replacing each whitespace run by `_` never lengthens the name and leaves no whitespace |
| IconConstant.UnderscoreKeepsPlainText | frontend/src/constants/iconConstant.ts:41 | a name without whitespace is unchanged by the replacement |
| IconConstant.UnderscoreWordThenRun | frontend/src/constants/iconConstant.ts:41 | a word, a whole whitespace run, then the rest: the word is kept, the run becomes one `_`, and the rest is replaced in turn |
| IconConstant.NormalizeTabletName | frontend/src/constants/iconConstant.ts:41 | "Máy tính bảng" normalises to "máy_tính_bảng" |
| IconConstant.FirstMatch | frontend/src/constants/iconConstant.ts:43-47 | the index found is the first key contained in the name; none is found only when no key is contained |
| IconConstant.GetCategoryIcon | frontend/src/constants/iconConstant.ts:40-50 | the icon is always one of the table's icons, and the default icon when no key occurs |
| IconConstant.IconIsFirstMatchingKey | frontend/src/constants/iconConstant.ts:43-49 | the icon belongs to the first key, in declaration order, that the lower-cased, underscored name contains; no key contained gives the default |
| IconConstant.KeysContainEarlierKeys | frontend/src/constants/iconConstant.ts:3-19 | "headphone" and "earphone" contain the earlier key "phone", and "máy_tính_bảng" contains the earlier "máy_tính" |
| IconConstant.PhoneShadowsHeadphone | frontend/src/constants/iconConstant.ts:3-16 | any name containing "headphone" or "earphone" gets the phone icon |
| IconConstant.ShadowedKeysNeverChosen | frontend/src/constants/iconConstant.ts:14-19 | the keys "headphone", "earphone" and "máy_tính_bảng" are never the matching key |
| IconConstant.TabletGetsLaptopIcon | frontend/src/constants/iconConstant.ts:7-19 | a name containing "máy tính bảng" (and no phone key) gets the laptop icon, not the tablet's |
| IconConstant.TabletNameGetsLaptopIcon | frontend/src/constants/iconConstant.ts:7-19 | the category name "Máy tính bảng" itself gets the laptop icon |
| IconConstant.UnderscoreRunLength | frontend/src/constants/iconConstant.ts:41 | two non-empty whitespace runs in the same place normalise alike |
| IconConstant.IconIgnoresWhitespaceRuns | frontend/src/constants/iconConstant.ts:41 | the icon does not depend on the length or kind of a whitespace run |
| IconConstant.IconIgnoresAsciiCase | frontend/src/constants/iconConstant.ts:41 | names that differ only in ASCII letter case get the same icon |
| CategoryController.SetRowActiveCount | backend/src/controllers/categoryController.js:100 | writing one row raises the homepage count by at most one, and not at all when the flag is off or unchanged |
| CategoryController.RemoveRowActiveCount | backend/src/controllers/categoryController.js:52 | deleting a row never raises the homepage count |
| CategoryController.CategoryTable.CreateCategory | backend/src/controllers/categoryController.js:3-20 | no name: 500 (the lookup throws); a taken name: 400; otherwise 201 with the next id, the description and the flag off; only then does the table change; the homepage count never changes |
| CategoryController.CategoryTable.UpdateCategory | backend/src/controllers/categoryController.js:22-39 | unknown id: 404; a name another row holds: 500 (unique column); otherwise 200 with the supplied fields replaced and the flag kept; names stay unique |
| CategoryController.CategoryTable.DeleteCategory | backend/src/controllers/categoryController.js:41-58 | unknown id: 404 and no change; otherwise 200 and exactly that row is gone |
| CategoryController.CategoryTable.ToggleCategoryHomepage | backend/src/controllers/categoryController.js:75-109 | unknown id: 404; switching on while four rows are on: 400 and no change; otherwise 200 with only that row's flag set; a count within four stays within four |
| CategoryController.CategoryTable.GetAllCategories | backend/src/controllers/categoryController.js:60-73 | 404 exactly when the table is empty; otherwise 200 and every row once |
| CategoryController.CategoryTable.GetActiveCategories | backend/src/controllers/categoryController.js:111-126 | 200 with min(count, 4) distinct flagged rows; all flagged rows when the cap holds |
| ProductQuery.WhereMeansMatches | backend/src/controllers/productController.js:160-182 | the `where` clause built from the query keeps a row exactly when it meets every supplied filter: name contains the search (case-insensitively), category equal, price and stock within the supplied inclusive bounds |
| ProductQuery.Filter | backend/src/controllers/productController.js:185-186 | keeps exactly the rows satisfying the clause |
| ProductQuery.OrderIsTotalPreorder | backend/src/controllers/productController.js:194 | every sort key and direction gives a total preorder, so the sort is well defined |
| ProductQuery.CeilDivIsCeiling | backend/src/controllers/productController.js:202 | the page count is the least number of pages holding the rows |
| ProductQuery.Window | backend/src/controllers/productController.js:195-196 | `LIMIT`/`OFFSET`: at most `limit` rows, the ones from the offset on, non-empty exactly when the offset is inside |
| ProductQuery.ListProductsCounts | backend/src/controllers/productController.js:199-205 | currentPage is the page asked for, totalItems the number of matching rows, totalPages its ceiling over the page size, at most `limit` rows |
| ProductQuery.ListProductsRowsMatch | backend/src/controllers/productController.js:185-197 | every returned row is a table row meeting every filter |
| ProductQuery.ListProductsSorted | backend/src/controllers/productController.js:194 | the page is ordered by the requested key and direction |
| ProductQuery.PageNonEmptyIffInRange | backend/src/controllers/productController.js:195-202 | a page has rows exactly when its number is at most totalPages |
| ProductQuery.EveryRowOnItsPage | backend/src/controllers/productController.js:195-196 | over one scan order of the rows, every matching row appears, at slot `i mod limit` of page `i div limit + 1` |
| ProductQuery.MatchingIgnoresPage | backend/src/controllers/productController.js:160-194 | the page number does not change which rows match or their order |
| ProductQuery.PriceRangeScenario | backend/src/controllers/productController.js:172-205 | prices 50..250 filtered to 100..200, ascending, two per page: three items, two pages, the first page holds the 120 and 150 rows |
| ProductController.EmptyUpdateIsNoOp | backend/src/controllers/productController.js:72-79 | an empty body without a file leaves the row unchanged |
| ProductController.MergeIdempotent | backend/src/controllers/productController.js:72-79 | repeating an update changes nothing more |
| ProductController.MergeKeepsNameUnlessTruthy | backend/src/controllers/productController.js:73 | an empty or missing name never blanks the stored name |
| ProductController.FilterCount | backend/src/controllers/productController.js:185-201 | counting the filtered enumeration counts the distinct matching keys |
| ProductController.CountOfEnumeration | backend/src/controllers/productController.js:185-201 | over any enumeration of the table, totalItems is the number of rows meeting the filters |
| ProductController.ProductTable.CreateProduct | backend/src/controllers/productController.js:4-55 | falsy name, missing price or category: 400; unknown category: 404; taken name: 409; otherwise 201 with description "" and stock 0 by default and the uploaded image; only then does the table change |
| ProductController.ProductTable.UpdateProduct | backend/src/controllers/productController.js:57-98 | unknown id: 404; otherwise the merged row, or 500 when it would break the unique name or point to a missing category |
| ProductController.ProductTable.DeleteProduct | backend/src/controllers/productController.js:100-116 | unknown id: 404; otherwise exactly that row is gone |
| ProductController.ProductTable.GetProductById | backend/src/controllers/productController.js:118-139 | 404 exactly when the id is absent, otherwise the stored row |
| ProductController.ProductTable.GetAllProducts | backend/src/controllers/productController.js:141-210 | 200 and the page `ListProducts` gives over the table's scan order (every key once): the LIMIT/OFFSET window `(page - 1) * limit` of the ordered selection; totalItems the number of matching rows, totalPages its ceiling, at most `limit` rows, each a matching table row, in the requested order, non-empty exactly when the page is in range |
| ReviewController.ReviewIdNeverReachesHandler | backend/src/controllers/reviewController.js:33-36 | as declared, the review id in the URL never reaches the update and delete handlers |
| ReviewController.ReviewIdReachesHandlerWhenNamesAgree | backend/src/routes/reviewRoute.js:8-9 | with matching names the id arrives unchanged |
| ReviewController.ReviewsOf | backend/src/controllers/reviewController.js:75-77 | keeps exactly the reviews of the given product, or all of them when the filter is absent or empty |
| ReviewController.ListReviewsMeetsQuery | backend/src/controllers/reviewController.js:73-84 | the listing holds exactly the reviews of the product (all without a filter), none twice more than stored, newest first |
| ReviewController.ListReviewsOfUnknownProduct | backend/src/controllers/reviewController.js:77-82 | a product no review names gives an empty list |
| ReviewController.ReviewTable.InsertReview | backend/src/models/reviewModel.js:7-24 | no author: 500 and no row; otherwise the next id, rating 3 when absent |
| ReviewController.ReviewTable.CreateReviewAsWritten | backend/src/controllers/reviewController.js:4-29 | unknown or missing product: 404; otherwise 500 because no author is passed; the table never changes |
| ReviewController.ReviewTable.CreateReview | backend/src/controllers/reviewController.js:4-29 | unknown or missing product: 404 and no change; otherwise 201 and exactly one review with the author, product, rating (3 by default) and comment |
| ReviewController.ReviewTable.UpdateReview | backend/src/controllers/reviewController.js:31-53 | missing or unknown id: 404 and no change; otherwise rating and comment replaced by any non-null value (0 included), nothing else changed |
| ReviewController.ReviewTable.DeleteReview | backend/src/controllers/reviewController.js:55-71 | missing or unknown id: 404; otherwise exactly that review is gone |
| ReviewController.ReviewTable.UpdateReviewByRoute | backend/src/routes/reviewRoute.js:8 | through the route as declared, every update answers 404 and changes nothing |
| ReviewController.ReviewTable.DeleteReviewByRoute | backend/src/routes/reviewRoute.js:9 | through the route as declared, every delete answers 404 and changes nothing |
| ReviewController.ListReviewsNoRepeats | backend/src/controllers/reviewController.js:73-84 | over a scan that visits every key once, the listing never shows a review twice |
| ReviewController.ReviewTable.GetAllReviews | backend/src/controllers/reviewController.js:73-89 | 200 with exactly the stored reviews of the product (all without a filter), each once, newest first |
| WebhookController.DeriveUsername | backend/src/controllers/webhookController.js:17 | the username when non-empty, otherwise a trimmed factor of "first last" |
| WebhookController.UsernameFromBothNames | backend/src/controllers/webhookController.js:17 | without a username, trimmed first and last names give "first last" |
| WebhookController.UsernameFromFirstNameOnly | backend/src/controllers/webhookController.js:17 | without a username or last name, the joining space is trimmed off |
| WebhookController.FirstOrNull | backend/src/controllers/webhookController.js:18-19 | the first address or number, or null when the list is empty or the entry is empty |
| WebhookController.AfterWebhook | backend/src/controllers/webhookController.js:3-39 | another event type: 400; otherwise 200 or 500; no existing row ever changes; a failure leaves the table as it was |
| WebhookController.WebhookCreationOutcome | backend/src/controllers/webhookController.js:14-34 | for `user.created`: no data or no id gives 500; an account already stored gives 200 and no change; a new account gives 200 exactly when no other row holds its first address, and is then stored under its id |
| WebhookController.NewAccountWithoutAddressStored | backend/src/controllers/webhookController.js:18-34 | a new account without an address is always stored and answered with 200 |
| WebhookController.WebhookStoresAccount | backend/src/controllers/webhookController.js:22-30 | a successful creation leaves the account's row; an existing row is kept as is, otherwise exactly one row is added, with the user role |
| WebhookController.WebhookIdempotent | backend/src/controllers/webhookController.js:22-30 | processing the same event twice gives the table processing it once gives |
| WebhookController.WebhookKeepsUsersValid | backend/src/models/userModel.js:7-18 | keys stay the account ids and addresses stay unique |
| WebhookController.UserTable.HandleClerkWebhook | backend/src/controllers/webhookController.js:3-39 | the status and the new table are those `AfterWebhook` gives; the table stays valid |
| ListOps.MapWhereId | frontend/src/stores/useCategoryStore.ts:73 | same length; entries with the id transformed, the others unchanged in place |
| ListOps.RemoveWhereId | frontend/src/stores/useCategoryStore.ts:93 | keeps exactly the entries without the id |
| ListOps.RemoveWhereIdConcat | frontend/src/stores/useProductStore.ts:91 | removal works piecewise, so the kept entries keep their order |
| ListOps.RemoveWhereIdLength | frontend/src/stores/useProductStore.ts:91 | the length drops by exactly the number of entries with the id |
| ListOps.RemoveAbsentId | frontend/src/stores/useCategoryStore.ts:93 | removing an id no entry has changes nothing |
| CategoryStore.Replaced | frontend/src/stores/useCategoryStore.ts:72-75 | same length; each entry with the id becomes the server's category, the others stay |
| CategoryStore.Toggled | frontend/src/stores/useCategoryStore.ts:121-126 | same length; entries with the id get the new flag and keep every other field, the others stay |
| CategoryStore.Removed | frontend/src/stores/useCategoryStore.ts:92-95 | keeps exactly the entries without the id |
| CategoryStore.ToggledCount | frontend/src/stores/useCategoryStore.ts:121-126 | switching off never raises the cached homepage count; switching on raises it by at most the entries carrying the id |
| CategoryStore.ToggleKeepsCap | frontend/src/stores/useCategoryStore.ts:112-126 | with distinct ids, a toggle the client check lets through keeps the cached count within four |
| CategoryStore.CategoryCache.BeginFetch | frontend/src/stores/useCategoryStore.ts:37 | loading on, error cleared, list kept |
| CategoryStore.CategoryCache.EndFetch | frontend/src/stores/useCategoryStore.ts:38-45 | success replaces the list, failure records the message (or the fallback) and keeps it; loading off either way |
| CategoryStore.CategoryCache.FetchCategories | frontend/src/stores/useCategoryStore.ts:36-46 | afterwards loading is off; success stores the server's list with no error, failure keeps the list and sets the error |
| CategoryStore.CategoryCache.CreateCategory | frontend/src/stores/useCategoryStore.ts:49-66 | success appends the new category after the earlier entries and clears the error; failure keeps the list and sets the error |
| CategoryStore.CategoryCache.UpdateCategory | frontend/src/stores/useCategoryStore.ts:69-86 | success replaces the entries with the id; failure keeps the list and sets the error |
| CategoryStore.CategoryCache.DeleteCategory | frontend/src/stores/useCategoryStore.ts:89-106 | success removes the entries with the id; failure keeps the list and sets the error |
| CategoryStore.CategoryCache.ToggleHomepage | frontend/src/stores/useCategoryStore.ts:109-137 | switching on with four cached active entries fails before any call and changes nothing; otherwise success sets only the flag of the matching entries, failure keeps the list and sets the error |
| CategoryStore.CategoryCache.SetError | frontend/src/stores/useCategoryStore.ts:140-142 | only the error changes, to the argument |
| CategoryStore.CategoryCache.ClearError | frontend/src/stores/useCategoryStore.ts:145-147 | only the error changes, to null |
| ProductStore.Replaced | frontend/src/stores/useProductStore.ts:70-73 | same length; each entry with the id becomes the server's product, the others stay |
| ProductStore.Removed | frontend/src/stores/useProductStore.ts:90-93 | keeps exactly the entries without the id |
| ProductStore.CreateThenDeleteRestores | frontend/src/stores/useProductStore.ts:50-93 | deleting a just-appended product with a new id gives back the earlier list |
| ProductStore.ProductCache.FetchProducts | frontend/src/stores/useProductStore.ts:32-44 | afterwards loading is off; success stores the page's data, or an empty list when it has none; failure keeps the list and sets the error |
| ProductStore.ProductCache.EndFetch | frontend/src/stores/useProductStore.ts:35-43 | success replaces the list with the data or [], failure records the error; loading off |
| ProductStore.ProductCache.CreateProduct | frontend/src/stores/useProductStore.ts:47-64 | success appends and clears the error; failure keeps the list and sets the error |
| ProductStore.ProductCache.UpdateProduct | frontend/src/stores/useProductStore.ts:67-84 | success replaces the entries with the id; failure keeps the list and sets the error |
| ProductStore.ProductCache.DeleteProduct | frontend/src/stores/useProductStore.ts:87-104 | success removes the entries with the id; failure keeps the list and sets the error |
| ProductStore.ProductCache.SetError | frontend/src/stores/useProductStore.ts:107-109 | only the error changes |
| ProductStore.ProductCache.ClearError | frontend/src/stores/useProductStore.ts:112-114 | only the error changes, to null |
| UserStore.UserSession.IsAdmin | frontend/src/stores/useUserStore.ts:26 | true exactly when an account is set and its role is admin |
| UserStore.UserSession.SetUser | frontend/src/stores/useUserStore.ts:22 | stores the account, clears the error, leaves loading; admin exactly when the account is an admin |
| UserStore.UserSession.SetLoading | frontend/src/stores/useUserStore.ts:23 | only the loading flag changes |
| UserStore.UserSession.SetError | frontend/src/stores/useUserStore.ts:24 | only the error changes |
| UserStore.UserSession.ClearUser | frontend/src/stores/useUserStore.ts:25-26 | no account and no error afterwards, so not admin |

## Findings

| source | as written | input that shows it | evidently intended | confidence | as-written member | corrected member |
|---|---|---|---|---|---|---|
| backend/src/controllers/reviewController.js:15-19 | `Review.create` gets productId, rating and comment but no clerkId; the column refuses null (backend/src/models/reviewModel.js:13-16), so the insert throws and the handler answers 500 | any POST /reviews naming an existing product | the author's clerkId is stored and the handler answers 201 | not executed | ReviewController.ReviewTable.CreateReviewAsWritten | ReviewController.ReviewTable.CreateReview |
| backend/src/routes/reviewRoute.js:8-9 | the routes declare `:reviewId`, the handlers read `req.params.id` (backend/src/controllers/reviewController.js:33,57), so `findByPk(undefined)` finds nothing | PUT /reviews/1 or DELETE /reviews/1 while review 1 exists: 404 | the handler receives the id from the URL | not executed | ReviewController.ReviewIdNeverReachesHandler | ReviewController.ReviewIdReachesHandlerWhenNamesAgree |

## Left out

- HTTP, routing middleware, authentication, signature checks of the webhook and the upload middleware: handlers take parsed parameters, and an uploaded file is its URL.
- Parsing of query and form strings (`parseInt`, `parseFloat`, NaN): parameters arrive parsed; an absent or empty numeric parameter is `None`, while text fields keep `""` as `Some("")`.
- Floating point: prices are whole cents; the validation checks compare exact reals.
- Non-positive `page` or `limit` and unknown `sortBy`/`order` strings: the page and page size are positive, and the sort key and direction are enumerations.
- The `category` join that responses include, the `updatedAt` timestamps, and the database cascade when a category is deleted.
- JSON `null` sent explicitly in place of an absent field: both are `None`.
- Unicode case folding beyond ASCII and database collation: lower-casing is ASCII-only and names sort by code point; the search pattern's `%`/`_` wildcards inside the search text are not interpreted.
- `isValidUrl`: it delegates to the platform's URL parser.
- Concurrency: the count-then-update of the homepage toggle is modelled sequentially.
- The featured and on-sale product handlers named by the product routes: the controller does not define them.
- Toasts, console logging, store persistence and devtools.
- The frontend `User` type file is not part of this model; the store holds the backend's user row.
- Tie order in sorted listings: the database leaves it unspecified; the model keeps the enumeration order.
- ProductQuery.EveryRowOnItsPage: holds for one scan order of the table. `GetAllProducts` scans the table afresh on every request and the database orders ties freely between requests, so across separate page requests a row tied with others on the sort key may move between pages, appear twice or not at all; the lemma promises consistent paging only within one scan order.
- Malformed ids: product ids are UUID columns (backend/src/models/productModel.js:7-11, backend/src/models/reviewModel.js:17-18); text that is not a UUID makes the database throw, and the handlers answer 500. The members below take every id as well-formed:
- ProductController.ProductTable.GetProductById: answers 404 for an unknown id, where a malformed one gives 500 in the source.
- ProductController.ProductTable.UpdateProduct: answers 404 for an unknown id, where a malformed one gives 500 in the source.
- ProductController.ProductTable.UpdateProduct: an empty `stock` field is modelled as absent, so the stock is kept and 200 answered, whereas the source writes `parseInt("")` (NaN) to the integer column and answers 500; an empty `price` behaves the same in both, since it is falsy and keeps the stored price.
- ProductController.ProductTable.DeleteProduct: answers 404 for an unknown id, where a malformed one gives 500 in the source.
- ReviewController.ReviewTable.CreateReview: answers 404 for an unknown product id, where a malformed one gives 500 in the source.
- ReviewController.ReviewTable.CreateReviewAsWritten: answers 404 for an unknown product id, where a malformed one gives 500 in the source.
- ReviewController.ReviewTable.GetAllReviews: gives an empty list for a product filter no review carries, where a malformed one gives 500 in the source.
- WebhookController.DeriveUsername: its contract says the derived name is a trimmed factor of "first last"; the exact value is proved only for the cases of the two username lemmas.

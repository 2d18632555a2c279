# Cart, checkout and account services of an e-commerce backend, in Dafny

This project models the service layer of a Spring e-commerce backend:

- the shopping cart ledger;
- checkout, which turns a cart into an order with a payment record and draws down product stock;
- registration and username changes;
- the address book;
- product categories;
- the two token-extraction helpers of the JWT utility.

Every database table becomes an immutable map or sequence inside a state datatype. Every service method becomes a pure function from the old state to a `Result`. A `Failure` carries no state, which is how the model expresses that the cart, order and authentication services are `@Transactional`: any error rolls everything back.

Modules, in dependency order:

- `Wrappers`: `Option` and `Result`.
- `Errors`: the error taxonomy.
  - `NotFound(resource)` is `ResourceNotFoundException`.
  - `Api(reason)` is `APIErrorHandler`.
  - `BadRequest(reason)` is a 400 response returned without an exception.
  - `RoleNotFound`, `NonUniqueResult` and `IllegalArgument` stand for the runtime exceptions the code lets escape.
- `Text`: Java's `startsWith`.
- `Catalog`: products with price and stock.
- `Carts`: one cart's lines and cached total.
- `CartStore`: the carts table and the user-to-cart link.
- `Accounts`: users, addresses, and the address-list filter.
- `AddressBook`: the address service.
- `Authentication`: registration and username change.
- `Paging`: sort criteria, the repository's ordering of a table, and the page cut.
- `Categories`: the category service.
- `Jwt`: token extraction from a header or a cookie.
- `Orders`: checkout, status update and order listings.

Modelling choices:

- **Money** is an `int` number of minor units.
- **Cart lines** are a sequence in insertion order, because checkout copies them in cart order.
- **Line lookup** by (cart, product) is a single-result repository query. It returns `Absent`, `Unique(i)` or `Ambiguous`, and two rows make the query itself fail (`NonUniqueResult`). Only the bulk sync can create two rows for one product.
- **Checkout**, apart from entity validation (see "## Left out"), succeeds exactly when:
  - the cart exists;
  - the address exists;
  - the cart has lines;
  - no product appears twice in the cart.

Where the code departs from the documented behaviour, the model follows the code:

- `addProductToCart` does not reject a zero or negative quantity.
- The quantity update checks stock against the change `delta`, not the resulting quantity. Stock 0 therefore rejects even a decrement.
- The quantity update moves the total by the *new* catalog price times `delta`, while every line keeps a snapshot price. The cached total drifts from the sum of the lines by `(old price − new price) × old quantity`. See `Carts.UpdateQuantityDrift`.
- Order items copy the cart line's snapshot price, not a fresh catalog price. The order total is the cart's cached total.
- Checkout re-reads no stock and enforces no lower bound, so stock can go negative (`Orders.StockMayGoNegative`).

## Model

| member | source | states |
|---|---|---|
| Catalog.FetchProduct | ecommerce-backend/src/main/java/com/ecommerce/project/service/ICartServiceImpl.java:208-211 | The product under the id, or not-found exactly when the id is unknown. |
| Carts.Find | ecommerce-backend/src/main/java/com/ecommerce/project/service/ICartServiceImpl.java:297-303 | The single-result lookup has three outcomes. It is absent iff no line has the product. `Unique(i)` names the one line with it. It is ambiguous iff two distinct lines have it. |
| Carts.Without | ecommerce-backend/src/main/java/com/ecommerce/project/service/ICartServiceImpl.java:148 | The bulk delete by (cart, product) leaves no line of the product. It keeps every other line and introduces none. |
| Carts.CheckAvailability | ecommerce-backend/src/main/java/com/ecommerce/project/service/ICartServiceImpl.java:222-231 | Passes iff stock is non-zero and the request does not exceed it. Zero stock is reported as unavailable before the units check. Otherwise the error names the units in stock. |
| Carts.AddLine | ecommerce-backend/src/main/java/com/ecommerce/project/service/ICartServiceImpl.java:57-81 | Checks run in order: unknown product, then already in cart, then stock. Success iff the product exists, has no line, and the stock check passes. On success exactly one line is appended, with the requested quantity and the current price as snapshot, and the total rises by price × quantity. |
| Carts.RemoveLine | ecommerce-backend/src/main/java/com/ecommerce/project/service/ICartServiceImpl.java:139-151 | Fails when the line is absent, or when the lookup finds two rows. Otherwise only that line is removed, the others keep their order, and the total drops by snapshot × quantity. |
| Carts.UpdateQuantity | ecommerce-backend/src/main/java/com/ecommerce/project/service/ICartServiceImpl.java:108-135 | The product is checked first, then stock against the delta, then the line is looked up. A missing line is reported as not in the cart. New quantity = old + delta: a negative result is rejected as a negative quantity, and zero takes the delete path. Otherwise the line gets the new quantity and the current price, and the total moves by new price × delta. |
| Carts.Reprice | ecommerce-backend/src/main/java/com/ecommerce/project/service/ICartServiceImpl.java:155-171 | The quantity is unchanged and the snapshot becomes the catalog price. The total is replaced by total − old snapshot × qty + new price × qty. An unknown product is not-found, and a missing line is reported as not in the cart. |
| Carts.Resync | ecommerce-backend/src/main/java/com/ecommerce/project/service/ICartServiceImpl.java:353-371 | One line per request item, in request order, at the catalog price, with no stock or duplicate check. The total equals the sum over the new lines. Fails iff some product is unknown. |
| Carts.ImageUrl | ecommerce-backend/src/main/java/com/ecommerce/project/service/ICartServiceImpl.java:263-270 | An http(s) name is kept. Anything else, a missing name rendered as "null" included, is appended to the base path directly when the base ends in a slash, and after one inserted slash otherwise. The name is not inspected, so a leading slash in it survives. |
| Carts.ImageUrlJoinsAtSlash | ecommerce-backend/src/main/java/com/ecommerce/project/service/ICartServiceImpl.java:268-269 | For a relative name the URL starts with the base path, ends with the name, has a slash just before the name, and is one character longer than both together exactly when the base lacks a trailing slash. |
| Carts.ImageUrlExamples | ecommerce-backend/src/main/java/com/ecommerce/project/service/ICartServiceImpl.java:263-270 | "images" and "images/" both join "a.png" as "images/a.png". A missing name gives "images/null". A name "/a.png" gives "images//a.png". An https name is returned unchanged. |
| Carts.AddLineKeepsBalance | ecommerce-backend/src/main/java/com/ecommerce/project/service/ICartServiceImpl.java:71-77 | Adding a line keeps total == Σ snapshot × qty. |
| Carts.AddLineKeepsDistinct | ecommerce-backend/src/main/java/com/ecommerce/project/service/ICartServiceImpl.java:214-219 | The duplicate check keeps at most one line per product. |
| Carts.RemoveLineKeepsBalance | ecommerce-backend/src/main/java/com/ecommerce/project/service/ICartServiceImpl.java:325-328 | Deleting a line keeps total == Σ snapshot × qty. |
| Carts.RemoveLineKeepsDistinct | ecommerce-backend/src/main/java/com/ecommerce/project/service/ICartServiceImpl.java:139-151 | Deleting a line keeps products distinct. |
| Carts.AddThenRemove | ecommerce-backend/src/main/java/com/ecommerce/project/service/ICartServiceImpl.java:57-81 | Deleting a product that was just added restores the cart exactly: the lines and the total are as before. |
| Carts.RepriceKeepsBalance | ecommerce-backend/src/main/java/com/ecommerce/project/service/ICartServiceImpl.java:161-168 | Re-pricing keeps total == Σ snapshot × qty. |
| Carts.UpdateQuantityDrift | ecommerce-backend/src/main/java/com/ecommerce/project/service/ICartServiceImpl.java:128-131 | After a non-deleting update, the gap between total and Σ snapshot × qty grows by exactly (old snapshot − new price) × old quantity. |
| Carts.UpdateQuantityBalancedIff | ecommerce-backend/src/main/java/com/ecommerce/project/service/ICartServiceImpl.java:313-322 | A balanced cart stays balanced after a quantity update iff the line is deleted, the price did not change, or the old quantity was zero. |
| Carts.UpdateQuantityDriftExample | ecommerce-backend/src/main/java/com/ecommerce/project/service/ICartServiceImpl.java:128-131 | A concrete cart: 2 units at 10, the price now 15, one more unit. The total becomes 35 while the lines sum to 45. |
| Carts.UpdateQuantityChecksDeltaNotTotal | ecommerce-backend/src/main/java/com/ecommerce/project/service/ICartServiceImpl.java:114-119 | With stock 0 a decrement by one is rejected as unavailable. With stock 2, a line of 2 can still grow to 3. |
| Carts.UpdateQuantityKeepsDistinct | ecommerce-backend/src/main/java/com/ecommerce/project/service/ICartServiceImpl.java:118-132 | A quantity update keeps products distinct, and the delete branch leaves no line of the product. |
| Carts.DistinctFindsUnique | ecommerce-backend/src/main/java/com/ecommerce/project/service/ICartServiceImpl.java:297-303 | In a cart with distinct products, the lookup of a present product is unique. |
| Carts.SyncedDuplicateIsAmbiguous | ecommerce-backend/src/main/java/com/ecommerce/project/service/ICartServiceImpl.java:353-371 | Two synced rows for one product make the lookup ambiguous, and deleting it fails. |
| CartStore.CartOf | ecommerce-backend/src/main/java/com/ecommerce/project/service/ICartServiceImpl.java:282-288 | The cart linked to the email, if any. In a valid store it is owned by that email. |
| CartStore.FetchOrCreate | ecommerce-backend/src/main/java/com/ecommerce/project/service/ICartServiceImpl.java:194-205 | The existing cart, or a new empty cart with total 0 under the next id, now linked to the email. Other carts are untouched. |
| CartStore.AddToCart | ecommerce-backend/src/main/java/com/ecommerce/project/service/ICartServiceImpl.java:57-81 | Succeeds iff the add succeeds on the fetched or created cart. The user's cart then is exactly the add's result: earlier lines kept, the new line last, and the total raised by price × quantity. Other carts are unchanged. |
| CartStore.AdjustQuantity | ecommerce-backend/src/main/java/com/ecommerce/project/service/ICartServiceImpl.java:108-135 | Not-found when the user has no cart. Otherwise it succeeds iff the line update does, and only that cart changes. |
| CartStore.DeleteFromCart | ecommerce-backend/src/main/java/com/ecommerce/project/service/ICartServiceImpl.java:139-151 | Not-found for an unknown cart id. Succeeds iff the line is unique. The cart becomes exactly the single-line delete's result: that line is gone, the others keep their order, and the total drops by snapshot × quantity. Other carts are unchanged. |
| CartStore.RepriceInCart | ecommerce-backend/src/main/java/com/ecommerce/project/service/ICartServiceImpl.java:155-171 | Not-found for an unknown cart. Otherwise the re-priced cart replaces the old one and nothing else changes. |
| CartStore.SyncCart | ecommerce-backend/src/main/java/com/ecommerce/project/service/ICartServiceImpl.java:175-191 | Succeeds iff every requested product exists, and otherwise fails as product not-found. The user's cart then holds exactly one line per item, in request order, at the catalog price, and its total equals the lines' sum. Validity and the balance of all carts are kept, and other carts are unchanged. |
| CartStore.AllCarts | ecommerce-backend/src/main/java/com/ecommerce/project/service/ICartServiceImpl.java:85-97 | An empty carts table is an error. Otherwise the result holds exactly the stored carts. |
| CartStore.GetCart | ecommerce-backend/src/main/java/com/ecommerce/project/service/ICartServiceImpl.java:273-279 | Succeeds iff the cart id exists and belongs to the email. Otherwise not-found. |
| CartStore.AddToCartKeepsBalance | ecommerce-backend/src/main/java/com/ecommerce/project/service/ICartServiceImpl.java:71-77 | Adding keeps every cart balanced. |
| CartStore.DeleteFromCartKeepsBalance | ecommerce-backend/src/main/java/com/ecommerce/project/service/ICartServiceImpl.java:139-151 | Deleting keeps every cart balanced. |
| CartStore.RepriceInCartKeepsBalance | ecommerce-backend/src/main/java/com/ecommerce/project/service/ICartServiceImpl.java:155-171 | Re-pricing keeps every cart balanced. |
| CartStore.AdjustQuantityKeepsBalanceAtSnapshotPrice | ecommerce-backend/src/main/java/com/ecommerce/project/service/ICartServiceImpl.java:128-131 | A quantity update keeps every cart balanced when the catalog price equals the line's snapshot. |
| Accounts.WithoutId | ecommerce-backend/src/main/java/com/ecommerce/project/service/IAddrServiceImpl.java:131-134 | `removeIf` by address id leaves no entry with that id. It keeps every entry with another id and adds none. |
| Accounts.WithoutIdKeepsOthers | ecommerce-backend/src/main/java/com/ecommerce/project/service/IAddrServiceImpl.java:125-129 | Removing one id keeps the count of every other id, and removals of two different ids commute. |
| Accounts.WithoutIdAppend | ecommerce-backend/src/main/java/com/ecommerce/project/service/IAddrServiceImpl.java:131-134 | Filtering a concatenation filters each part, so the kept entries stay in their order. |
| AddressBook.NewAddr | ecommerce-backend/src/main/java/com/ecommerce/project/service/IAddrServiceImpl.java:30-36 | The new address gets the next id, the user as owner and the six given fields. It is stored and appended to that user's list, and other users are unchanged. |
| AddressBook.GetAddr | ecommerce-backend/src/main/java/com/ecommerce/project/service/IAddrServiceImpl.java:39-42 | Exactly the stored addresses. |
| AddressBook.GetAddrById | ecommerce-backend/src/main/java/com/ecommerce/project/service/IAddrServiceImpl.java:45-48 | The stored address, or not-found exactly for an unknown id. |
| AddressBook.GetAddrByUserId | ecommerce-backend/src/main/java/com/ecommerce/project/service/IAddrServiceImpl.java:57-61 | The user's own list, or not-found exactly for an unknown user. |
| AddressBook.ApplyUpdates | ecommerce-backend/src/main/java/com/ecommerce/project/service/IAddrServiceImpl.java:116-123 | The six client fields are overwritten. Id and owner are unchanged. |
| AddressBook.Resynchronize | ecommerce-backend/src/main/java/com/ecommerce/project/service/IAddrServiceImpl.java:125-129 | The updated record is last and is the only entry with its id. Every other id keeps its count. |
| AddressBook.UpdateAddr | ecommerce-backend/src/main/java/com/ecommerce/project/service/IAddrServiceImpl.java:64-72 | Not-found exactly for an unknown id, with no change. Otherwise the stored record is replaced by the updated one and the owner's list is re-synchronised. Other users are unchanged and validity is kept. |
| AddressBook.DelAddr | ecommerce-backend/src/main/java/com/ecommerce/project/service/IAddrServiceImpl.java:75-83 | Not-found exactly for an unknown id. Otherwise the record is deleted and every entry with that id leaves the owner's list. Other users are unchanged. |
| AddressBook.UpdateAddrOwnerList | ecommerce-backend/src/main/java/com/ecommerce/project/service/IAddrServiceImpl.java:64-72 | After an update the owner's list holds the id once, as its last entry. With that id removed, the list equals the old list with it removed. |
| AddressBook.NewThenDelete | ecommerce-backend/src/main/java/com/ecommerce/project/service/IAddrServiceImpl.java:75-83 | Deleting an address that was just created succeeds, restores the address table, and leaves the owner's list without that id. |
| Authentication.ResolveRoleByName | ecommerce-backend/src/main/java/com/ecommerce/project/service/IAuthenticationServiceImpl.java:198-205 | Exactly "admin" (case-sensitive) resolves to the admin role and every other string to the user role. It fails with role-not-found when that role is missing from the role table. |
| Authentication.DetermineUserRoles | ecommerce-backend/src/main/java/com/ecommerce/project/service/IAuthenticationServiceImpl.java:181-196 | No requested set gives exactly {user role}. A requested set succeeds iff every string resolves. Roles are always drawn from the table. |
| Authentication.RequestedRoles | ecommerce-backend/src/main/java/com/ecommerce/project/service/IAuthenticationServiceImpl.java:189-194 | Admin is granted iff "admin" was requested. User is granted iff some other string was. An empty request grants nothing. |
| Authentication.AddressOf | ecommerce-backend/src/main/java/com/ecommerce/project/service/IAuthenticationServiceImpl.java:214-223 | The six address fields are copied from the form. |
| Authentication.CardOf | ecommerce-backend/src/main/java/com/ecommerce/project/service/IAuthenticationServiceImpl.java:232-241 | The card fields are copied from the form and the card is always the default. |
| Authentication.Register | ecommerce-backend/src/main/java/com/ecommerce/project/service/IAuthenticationServiceImpl.java:91-107 | A taken username is rejected before the email is checked. Either rejection persists nothing. On success the user is stored with the encoded password and resolved roles. One address is filed iff the street is non-null and non-empty. A default card is handed on iff the card number is non-null and non-empty. |
| Authentication.RegisterKeepsUniqueness | ecommerce-backend/src/main/java/com/ecommerce/project/service/IAuthenticationServiceImpl.java:92-98 | Registration keeps usernames and emails unique. |
| Authentication.UserNamed | ecommerce-backend/src/main/java/com/ecommerce/project/service/IAuthenticationServiceImpl.java:260-263 | No user with the name is not-found. Two users with it are a non-unique-result error. Otherwise the result is the one user with that name. Under unique names any used name is found. |
| Authentication.UpdateUsername | ecommerce-backend/src/main/java/com/ecommerce/project/service/IAuthenticationServiceImpl.java:133-147 | The current user is looked up as above, so not-found and non-unique-result pass through. Then it succeeds iff the new name equals the current one or is free, and otherwise is rejected as taken. Only that user's name changes. |
| Authentication.UpdateUsernameKeepsUniqueness | ecommerce-backend/src/main/java/com/ecommerce/project/service/IAuthenticationServiceImpl.java:136-140 | A username change keeps names unique and the directory valid. |
| Paging.SortDirection | ecommerce-backend/src/main/java/com/ecommerce/project/service/ICategoryServiceImpl.java:78-82 | Ascending iff the sort order equals "asc" under Java's case-insensitive comparison. |
| Paging.SortCriteria | ecommerce-backend/src/main/java/com/ecommerce/project/service/ICategoryServiceImpl.java:78-82 | A sort property with no non-whitespace character is an illegal argument, since `Sort.by` rejects it. Otherwise the direction is ascending iff the sort order equals "asc" ignoring case. |
| Paging.SortCriteriaExamples | ecommerce-backend/src/main/java/com/ecommerce/project/service/IOrderServiceImpl.java:198-202 | "", " \t" and the ideographic space are rejected as sort properties. " name" and the no-break space U+00A0 are accepted. |
| Paging.AscendingSpellings | ecommerce-backend/src/main/java/com/ecommerce/project/service/IOrderServiceImpl.java:198-202 | Ascending iff the string has three characters: a/A, then s/S or the long s U+017F, then c/C. |
| Paging.SortDirectionExamples | ecommerce-backend/src/main/java/com/ecommerce/project/service/ICategoryServiceImpl.java:78-82 | "asc", "ASC" and "aSc" are ascending. "desc", "" and "ascending" are descending. |
| Paging.PageOf | ecommerce-backend/src/main/java/com/ecommerce/project/service/ICategoryServiceImpl.java:39-40 | A negative page number or a page size below one is an illegal argument. Otherwise the page holds the listing's elements from number × size on, at most size of them, and is empty iff it starts past the end. |
| Paging.PagesCoverListing | ecommerce-backend/src/main/java/com/ecommerce/project/service/ICategoryServiceImpl.java:39-40 | Element i of a listing is at position i mod size on page i div size. |
| Paging.OrderingCoversRows | ecommerce-backend/src/main/java/com/ecommerce/project/service/ICategoryServiceImpl.java:39-40 | A repository ordering, as many distinct keys as the table has and all drawn from it, contains every key of the table. |
| Categories.GetCategories | ecommerce-backend/src/main/java/com/ecommerce/project/service/ICategoryServiceImpl.java:37-47 | A blank sort property or an illegal page request is an illegal argument. It succeeds iff the page starts before the number of stored categories. An empty page is an error, never an empty list. Otherwise page position k holds the row at place number × size + k of the repository's ordering of the table, and the direction is returned. |
| Categories.NoCategoriesIsAnError | ecommerce-backend/src/main/java/com/ecommerce/project/service/ICategoryServiceImpl.java:84-88 | With an empty categories table every well-formed request reports that no categories exist. |
| Categories.EveryCategoryListed | ecommerce-backend/src/main/java/com/ecommerce/project/service/ICategoryServiceImpl.java:37-47 | Every stored category is listed: the row at position i of the ordering appears at place i mod size of page i div size. |
| Categories.CreateCategory | ecommerce-backend/src/main/java/com/ecommerce/project/service/ICategoryServiceImpl.java:51-57 | Apart from entity validation, fails iff the name is in use, and saves nothing then. Otherwise the row is stored under the next id. |
| Categories.UpdateCategory | ecommerce-backend/src/main/java/com/ecommerce/project/service/ICategoryServiceImpl.java:69-76 | Not-found for an unknown id. Otherwise the row under the path id takes the client's name and the path id, whatever id the client sent. |
| Categories.RemoveCategory | ecommerce-backend/src/main/java/com/ecommerce/project/service/ICategoryServiceImpl.java:61-65 | Not-found for an unknown id. Otherwise that row is deleted and returned. |
| Categories.CreateThenRemove | ecommerce-backend/src/main/java/com/ecommerce/project/service/ICategoryServiceImpl.java:51-65 | Removing a fresh category returns it and restores the category table's rows. A second create with the same name is refused. |
| Categories.UpdateMayDuplicateNames | ecommerce-backend/src/main/java/com/ecommerce/project/service/ICategoryServiceImpl.java:69-76 | An update may give two rows the same name, which create would have refused. |
| Jwt.PrefixLengthAgrees | ecommerce-backend/src/main/java/com/ecommerce/project/JwtAuth/jwt/JwtUtils.java:35-36 | The stripped length 7 equals the length of "Bearer ". |
| Jwt.ExtractJwtFromBearer | ecommerce-backend/src/main/java/com/ecommerce/project/JwtAuth/jwt/JwtUtils.java:150-155 | A token is found iff the header is present and starts with "Bearer ". The header is then exactly the prefix followed by the token. |
| Jwt.BearerRoundTrip | ecommerce-backend/src/main/java/com/ecommerce/project/JwtAuth/jwt/JwtUtils.java:150-153 | Extracting from "Bearer " + t gives back t for every t. |
| Jwt.BearerIsCaseSensitive | ecommerce-backend/src/main/java/com/ecommerce/project/JwtAuth/jwt/JwtUtils.java:151-152 | A missing header, another case, or a missing space yields no token. "Bearer " with nothing after it yields the empty token. |
| Jwt.ExtractCookieValue | ecommerce-backend/src/main/java/com/ecommerce/project/JwtAuth/jwt/JwtUtils.java:146-148 | No cookie gives nothing. Otherwise the cookie's value is returned unchanged. |
| Orders.ToOrderItems | ecommerce-backend/src/main/java/com/ecommerce/project/service/IOrderServiceImpl.java:162-173 | One item per cart line, in cart order, with the line's product, quantity and snapshot price. The items sum to the lines' sum. |
| Orders.ReduceStock | ecommerce-backend/src/main/java/com/ecommerce/project/service/IOrderServiceImpl.java:185-188 | Only that product's stock changes, by exactly the quantity, with no lower bound. |
| Orders.Drain | ecommerce-backend/src/main/java/com/ecommerce/project/service/IOrderServiceImpl.java:175-183 | On success every product's stock has dropped by its total demand in the lines. When the lines are the cart's own, the cart ends with no lines and its total has dropped by Σ snapshot × qty. |
| Orders.DrainDistinct | ecommerce-backend/src/main/java/com/ecommerce/project/service/IOrderServiceImpl.java:175-183 | Draining a cart whose products are distinct always succeeds. |
| Orders.DrainDuplicateFails | ecommerce-backend/src/main/java/com/ecommerce/project/service/IOrderServiceImpl.java:175-183 | Draining a cart with a repeated product fails in the delete path's lookup. |
| Orders.DrainOwnLines | ecommerce-backend/src/main/java/com/ecommerce/project/service/IOrderServiceImpl.java:175-183 | Draining a cart's own distinct lines succeeds, leaves that cart with no lines and its total reduced by the lines' sum, and draws stock down by demand. |
| Orders.FetchCart | ecommerce-backend/src/main/java/com/ecommerce/project/service/IOrderServiceImpl.java:126-132 | The caller's cart, or not-found exactly when there is none. |
| Orders.PlaceOrder | ecommerce-backend/src/main/java/com/ecommerce/project/service/IOrderServiceImpl.java:64-84 | The checks run in order: no cart, then unknown address, then empty cart. Success iff all three pass and no product repeats. The order has the caller's email, the cart's total, status "Accepted", the items copied from the lines, and a payment carrying the five gateway strings linked to it. Stock drops by demand, and the cart is emptied with its total reduced by Σ snapshot × qty. |
| Orders.Commit | ecommerce-backend/src/main/java/com/ecommerce/project/service/IOrderServiceImpl.java:69-81 | The order is saved under the next id with its fields and payment. Stock drops by demand, and the cart is emptied with its total reduced by Σ snapshot × qty. Addresses are unchanged. |
| Orders.NewOrder | ecommerce-backend/src/main/java/com/ecommerce/project/service/IOrderServiceImpl.java:69-71 | The new order carries the caller's email, the date, the cart's total, status "Accepted", the items copied from the lines, and a payment with the five gateway strings linked to the order. |
| Orders.PlaceOrderPostState | ecommerce-backend/src/main/java/com/ecommerce/project/service/IOrderServiceImpl.java:64-84 | After checkout the shop is valid, the order id is fresh, and the caller's cart is empty. For a balanced cart the cart total is 0 and the order total equals the sum of its items. Other carts are untouched. |
| Orders.StockMayGoNegative | ecommerce-backend/src/main/java/com/ecommerce/project/service/IOrderServiceImpl.java:185-188 | A line of 3 against stock 1 still checks out and leaves stock −2. |
| Orders.UpdateStatus | ecommerce-backend/src/main/java/com/ecommerce/project/service/IOrderServiceImpl.java:97-102 | Not-found for an unknown order. Otherwise any status string is stored and nothing else in the shop changes. |
| Orders.UpdateStatusUndo | ecommerce-backend/src/main/java/com/ecommerce/project/service/IOrderServiceImpl.java:97-102 | Setting the old status back restores the shop exactly. |
| Orders.GetAllOrders | ecommerce-backend/src/main/java/com/ecommerce/project/service/IOrderServiceImpl.java:87-94 | A blank sort property or an illegal page request is an illegal argument. Otherwise page position k holds the order at place number × size + k of the repository's ordering of the orders table, the page is empty iff it starts past the table's size, and an empty page is not an error. |
| Orders.PlacedBy | ecommerce-backend/src/main/java/com/ecommerce/project/service/IOrderServiceImpl.java:108 | Exactly the listed orders with the caller's email. |
| Orders.PlacedByAppend | ecommerce-backend/src/main/java/com/ecommerce/project/service/IOrderServiceImpl.java:108 | Selection works order by order: one order is kept iff it is the caller's, and a concatenation is selected part by part, keeping order and multiplicity. |
| Orders.GetUserOrders | ecommerce-backend/src/main/java/com/ecommerce/project/service/IOrderServiceImpl.java:105-112 | A blank sort property or an illegal page request is an illegal argument. Otherwise the result is exactly the requested page of the caller's orders, taken in the repository's ordering, with the direction. |
| Orders.UserOrdersListEveryOrder | ecommerce-backend/src/main/java/com/ecommerce/project/service/IOrderServiceImpl.java:105-112 | Every order the caller placed is in the listing that the caller's pages are cut from. |

## Left out

- Money is an integer number of minor units. The source's `double` arithmetic and its rounding are not modelled.
- Quantities and stock are unbounded integers. Java `Integer` overflow in `qty + delta` or `stock − qty` is not modelled.
- Sorting by a named property is not modelled. The repository's sorted result is a parameter `order`, the table's keys each exactly once (`Paging.IsOrdering`). The check on the property name and the direction are computed.
- Categories.GetCategories: a sort property that is not a field of the entity fails in the repository query (`PropertyReferenceException`). The model does not know the entity's field names and accepts every property name with text.
- Orders.GetAllOrders: the same unknown-property failure is not modelled.
- Orders.GetUserOrders: the same unknown-property failure is not modelled. The caller's orders are taken in the order of all orders, which is the repository's order when the sort is a total order.
- Page metadata (total pages, total elements, last page) and all DTO conversion are left out. They are ModelMapper and Spring Data output with no logic of the service's own.
- Id generation is a counter that a rolled-back transaction leaves untouched. Identity gaps left by rolled-back inserts are not modelled.
- Categories.CreateCategory and AddressBook.NewAddr: an id the client puts in the DTO is ignored. In the source, ModelMapper may copy it and JPA would then merge into an existing row.
- Categories.CreateCategory: with two rows of one name, which only an update can create, the source's name lookup throws a non-unique-result error rather than the already-exists error. Both are failures that save nothing.
- The current user's email, the signed-in username, the encoded password (BCrypt) and today's date (`LocalDate.now()`) are parameters.
- The payment card service is not part of this model. Authentication.Register returns the card it hands on instead of storing it.
- Login, the current user's details, logout, and the customer listing are left out. They are security-framework calls plus paging.
- `getUserOrdersByUserId` is left out. It is `getUserOrders` after a user lookup by id.
- JWT creation, signing, parsing and validation, and cookie building, are left out. They are calls into the jjwt library.
- Concurrency and isolation are left out, because each call is modelled as one atomic step.
- Orders.ReduceStock: a product missing from the table is skipped. In the source every cart line references an existing product entity.
- AddressBook.UpdateAddr and AddressBook.DelAddr: when an address's owner is not a stored user, the list synchronisation is skipped. Under the foreign key (`Accounts.Valid`) this cannot happen, and the stated list properties assume it.
- Authentication.UserNamed and Authentication.UpdateUsername are ghost functions, because the single user with a name is picked by a ghost choice. Their properties are stated for all inputs, but they cannot be executed.
- Orders.PlaceOrder, Categories.CreateCategory, Categories.UpdateCategory, AddressBook.NewAddr, AddressBook.UpdateAddr, Authentication.Register: the entities' bean-validation constraints, which Hibernate enforces at save time, are not modelled. Examples are a payment method of at least 4 characters and an `@Email` order email, a category name of at least 5 characters, and minimum lengths on every address field. An input that violates them fails in the source and rolls back, while the model succeeds. Each "succeeds iff" in these contracts is therefore stated for inputs that satisfy those constraints.
- Categories.RemoveCategory: the category's products are not part of the category table. Their cascaded delete (`CascadeType.ALL` on the category's product list) is not modelled, and neither is the foreign-key failure it can raise when cart or order rows still reference such a product. The model deletes only the category row. Categories.CreateThenRemove accordingly restores the category table only.
- Error message texts are left out. Errors are modelled by kind and resource only.

# Sneakhead storefront: a Dafny model of its cart, catalogue and form rules

Sneakhead is an Android storefront for sneakers, written in Kotlin. It keeps its catalogue
and its users' carts in a realtime database, and it uploads product images to an image host.
This project models the part of the app that has rules you can state exactly:

- the cart store and its view-model;
- the product store and its view-model, including the rules that name an upload and secure
  its URL;
- the checks and state handling embedded in four screens: registration, add product,
  update product, and the cart.

Each part is then proved to keep the promises its code makes.

How the model is built:

- A database collection (`cart`, `products`) is a `Store.Table`: the children in order, plus
  a map from key to node. The repositories are classes that hold a table in a field and
  update it in place.
- `push().key` is `Store.FreshKey`. It returns a key that names no child yet.
- Every asynchronous callback is synchronous and fires once. The method returns what the
  callback would receive.
- Whether the database accepts a write or cancels a read is an input: `None` for success,
  `Some(cause)` for a failure with that message. A listener that never calls back is
  `Store.Delivery.NoCallback`.
- A `MutableLiveData` holder is an `Option` field, where `None` means nothing was ever
  posted. Each value posted to a loading flag is also appended to a ghost trace, so
  "true, then false" is visible.
- Whatever the model cannot compute is a function parameter:
  - `parse` stands for `toDoubleOrNull`;
  - `emailMatches` stands for the email pattern;
  - `host` is the image host's answer to an upload;
  - `priceText` is `Double.toString`.
- Kotlin `Int` is `Models.Int32`. The stepper's `+ 1` wraps around explicitly.

Modules by source file:

- `Store`, `Models`, `Text` and `Validation` are shared infrastructure.
- `CartRepo`: `repository/CartRepositoryImplementation.kt`.
- `CartViewModels`: `viewmodel/CartViewModel.kt`.
- `CartScreen`: `view/CartActivity.kt`.
- `ProductRepo`: `repository/ProductRepositoryImplementation.kt`.
- `ProductViewModels`: `viewmodel/ProductViewModel.kt`.
- `Register`: `view/RegisterActivity.kt`.
- `ProductForm`: the `validateInputs` that the add and update screens share.
- `AddProductScreen`: `view/AddProductActivity.kt`.
- `UpdateProductScreen`: `view/UpdateProductActivity.kt`.

`updateProduct` replaces the stored node (`setValue`,
`repository/ProductRepositoryImplementation.kt:159`); it does not merge into it. Fields
absent from the map are gone afterwards, as `ProductRepo.ProductRepository.UpdateProduct`
states.

## Model

All source paths are under `app/src/main/java/com/example/sneakhead/`, written out in full.

| member | source | states |
|---|---|---|
| Store.Table.Set | app/src/main/java/com/example/sneakhead/repository/CartRepositoryImplementation.kt:20 | `child(k).setValue(v)`: the node under `k` becomes `v`, every other node is kept, the children list stays duplicate-free and consistent, and an existing key keeps its position |
| Store.Table.Remove | app/src/main/java/com/example/sneakhead/repository/CartRepositoryImplementation.kt:30 | `child(k).removeValue()`: exactly `k` is removed, the table stays consistent, and removing an absent key changes nothing |
| Store.FreshKey | app/src/main/java/com/example/sneakhead/repository/CartRepositoryImplementation.kt:15 | `push().key` names neither a stored node nor a listed child |
| Store.Keep | app/src/main/java/com/example/sneakhead/repository/CartRepositoryImplementation.kt:75-77 | the children left after removing a set: exactly those not removed, in their old order, never more than before, and all of them when nothing listed was removed |
| Store.WithoutKeep | app/src/main/java/com/example/sneakhead/repository/CartRepositoryImplementation.kt:75-77 | removing one more child after a set of removals leaves the same children list as removing the enlarged set at once |
| Store.Table.RemoveMore | app/src/main/java/com/example/sneakhead/repository/CartRepositoryImplementation.kt:76 | one further `removeValue()` on a table already reduced by a set of removals gives the table reduced by that set plus the child |
| Models.EncodeProduct | app/src/main/java/com/example/sneakhead/repository/ProductRepositoryImplementation.kt:85 | `setValue(productModel)` writes the five properties of the data class, `productId` and `image` among them |
| Models.DecodeProduct | app/src/main/java/com/example/sneakhead/repository/ProductRepositoryImplementation.kt:115 | an empty node reads as null; the image read is the one stored; a missing `productId` keeps its default `""` |
| Models.StrField | app/src/main/java/com/example/sneakhead/model/ProductModel.kt:4-9 | a `String` property reads as its default `""` when absent, as the stored text when it holds a string, and does not convert when it holds a number |
| Models.NumField | app/src/main/java/com/example/sneakhead/model/ProductModel.kt:6 | a `Double` property reads as its default `0.0` when absent, as the stored number when it holds one, and does not convert when it holds a string |
| Models.WrapInt32 | app/src/main/java/com/example/sneakhead/view/CartActivity.kt:242 | Kotlin `Int` arithmetic: a value in range is unchanged, and any value is congruent to its wrapped result modulo 2^32 |
| Models.DecodeEncode | app/src/main/java/com/example/sneakhead/model/ProductModel.kt:3-10 | reading back a written product gives the same product (round trip) |
| CartRepo.WithQuantity | app/src/main/java/com/example/sneakhead/repository/CartRepositoryImplementation.kt:40 | writing `quantity` changes only the item's quantity; under an id holding no item it leaves a bare quantity child |
| CartRepo.UserKeysSelect | app/src/main/java/com/example/sneakhead/repository/CartRepositoryImplementation.kt:71-77 | the query `orderByChild("userId").equalTo(userId)` selects a child exactly when it holds an item of that user |
| CartRepo.UserItemsSelect | app/src/main/java/com/example/sneakhead/repository/CartRepositoryImplementation.kt:50-58 | an item is delivered exactly when it is stored under some child and belongs to the user (both directions) |
| CartRepo.NoUserItemsLeft | app/src/main/java/com/example/sneakhead/repository/CartRepositoryImplementation.kt:50-61 | a cart holding no item of the user delivers the empty list |
| CartRepo.UserKeys | app/src/main/java/com/example/sneakhead/repository/CartRepositoryImplementation.kt:71-77 | definition: the children selected by `orderByChild("userId").equalTo(userId)`, in child order; `CartRepo.UserKeysSelect` states what it selects |
| CartRepo.UserItems | app/src/main/java/com/example/sneakhead/repository/CartRepositoryImplementation.kt:50-58 | definition: the decoded items of the selected children, in child order; `CartRepo.UserItemsSelect` states what it delivers |
| CartRepo.ClearedCart | app/src/main/java/com/example/sneakhead/repository/CartRepositoryImplementation.kt:71-90 | after a fully successful clear, the user's cart reads back empty, and every child that is not the user's item is still there, unchanged |
| CartRepo.CartRepository.constructor | app/src/main/java/com/example/sneakhead/repository/CartRepositoryImplementation.kt:12 | the `cart` reference starts as an empty, consistent table |
| CartRepo.CartRepository.AddToCart | app/src/main/java/com/example/sneakhead/repository/CartRepositoryImplementation.kt:14-26 | on success a copy of the item, with `cartItemId` set to a fresh key, is stored under that key and nothing else changes; the success and failure messages are exact; a failed write leaves the table as it was |
| CartRepo.CartRepository.RemoveFromCart | app/src/main/java/com/example/sneakhead/repository/CartRepositoryImplementation.kt:29-37 | only the child `cartItemId` is removed; both messages are exact; a failure changes nothing |
| CartRepo.CartRepository.UpdateQuantity | app/src/main/java/com/example/sneakhead/repository/CartRepositoryImplementation.kt:39-47 | only the `quantity` of the named child changes, and every other child is unchanged; both messages are exact |
| CartRepo.CartRepository.GetCartItems | app/src/main/java/com/example/sneakhead/repository/CartRepositoryImplementation.kt:49-67 | the loop delivers exactly the user's items in child order, with success even when there are none; a cancelled read gives the empty list and the failure message |
| CartRepo.CartRepository.SelectUserKeys | app/src/main/java/com/example/sneakhead/repository/CartRepositoryImplementation.kt:71-77 | the loop that fills `removeTasks` collects exactly the keys of the user's items, in child order |
| CartRepo.CartRepository.RemoveEach | app/src/main/java/com/example/sneakhead/repository/CartRepositoryImplementation.kt:75-77 | one delete per selected child: exactly the targets whose delete does not fail are removed, the surviving children keep their order (the old children list with the removed ones filtered out), and the result is true exactly when no delete failed |
| CartRepo.CartRepository.ClearCart | app/src/main/java/com/example/sneakhead/repository/CartRepositoryImplementation.kt:70-97 | with no item of the user: no delete, success and "Cart is already empty"; otherwise each of the user's items is deleted unless its delete fails, no other child is touched, the surviving children keep their order, and the result is success exactly when every delete succeeded; a cancelled read changes nothing |
| CartViewModels.FirstWithProduct | app/src/main/java/com/example/sneakhead/viewmodel/CartViewModel.kt:43 | `find`: the position of the first non-null entry with the product id; no earlier entry matches, and no result means no entry matches |
| CartViewModels.FindInSnapshot | app/src/main/java/com/example/sneakhead/viewmodel/CartViewModel.kt:43 | an unset holder finds nothing; a found item has that product id and is in the snapshot; not found means no entry has that product id |
| CartViewModels.FoundItemIsStored | app/src/main/java/com/example/sneakhead/viewmodel/CartViewModel.kt:43-45 | an item found in a snapshot the store delivered is stored under its own `cartItemId` and belongs to the user, so the delete by that id removes exactly that item |
| CartViewModels.CartViewModel.constructor | app/src/main/java/com/example/sneakhead/viewmodel/CartViewModel.kt:9-15 | both holders start unset and nothing has been posted |
| CartViewModels.CartViewModel.GetCartItems | app/src/main/java/com/example/sneakhead/viewmodel/CartViewModel.kt:17-27 | loading is posted true, then false; the snapshot becomes the user's stored items on success and the empty list on failure |
| CartViewModels.CartViewModel.AddCartItem | app/src/main/java/com/example/sneakhead/viewmodel/CartViewModel.kt:29-31 | forwards to `addToCart` and gives the same outcome |
| CartViewModels.CartViewModel.UpdateCartItem | app/src/main/java/com/example/sneakhead/viewmodel/CartViewModel.kt:33-35 | sends exactly the item's `cartItemId` and `quantity` to `updateQuantity` |
| CartViewModels.CartViewModel.DeleteCartItem | app/src/main/java/com/example/sneakhead/viewmodel/CartViewModel.kt:37-39 | forwards to `removeFromCart` and gives the same outcome |
| CartViewModels.CartViewModel.RemoveCartItem | app/src/main/java/com/example/sneakhead/viewmodel/CartViewModel.kt:41-49 | searches the snapshot as it was at the call; if nothing matches, reports "Item not found" and makes no store change; otherwise deletes the found item's `cartItemId`; the refresh requested first lands last |
| CartViewModels.CartViewModel.UpdateCartItemQuantity | app/src/main/java/com/example/sneakhead/viewmodel/CartViewModel.kt:51-60 | as `removeCartItem`, but the found item's `cartItemId` gets `newQuantity` and nothing else changes; "Item not found" with no store change when nothing matches |
| CartViewModels.RefreshThenUpdate | app/src/main/java/com/example/sneakhead/viewmodel/CartViewModel.kt:51-60 | add, refresh, then set quantity 3 by product: the final snapshot holds that one item, with quantity 3 and every other field as added |
| CartViewModels.UpdateBeforeRefresh | app/src/main/java/com/example/sneakhead/viewmodel/CartViewModel.kt:51-59 | add, then set the quantity by product at once: the lookup reads the snapshot before the refresh lands and reports "Item not found" |
| CartScreen.DecrementRequest | app/src/main/java/com/example/sneakhead/view/CartActivity.kt:219-223 | a decrement is requested exactly when the quantity is above 1; it asks for one less, which is never below 1 |
| CartScreen.IncrementRequest | app/src/main/java/com/example/sneakhead/view/CartActivity.kt:242 | an increment asks for `quantity + 1` in `Int` arithmetic, which wraps at the maximum |
| CartScreen.IncrementUndoesDecrement | app/src/main/java/com/example/sneakhead/view/CartActivity.kt:219-242 | an increment after a decrement asks for the original quantity again |
| CartScreen.DecrementChain | app/src/main/java/com/example/sneakhead/view/CartActivity.kt:219-223 | repeated decrements never raise the quantity, never take a positive quantity below 1, and reach exactly 1 given enough presses |
| CartScreen.ShownImage | app/src/main/java/com/example/sneakhead/view/CartActivity.kt:183 | the card shows the item's image when it is non-empty, and `shoe1.png` otherwise |
| CartScreen.FilterNotNull | app/src/main/java/com/example/sneakhead/view/CartActivity.kt:75 | `filterNotNull` keeps exactly the non-null entries and never lengthens the list |
| CartScreen.FilterNotNullPosted | app/src/main/java/com/example/sneakhead/view/CartActivity.kt:75 | a delivered cart list posted to `_cartItems` (`viewmodel/CartViewModel.kt:22`) and then filtered with `filterNotNull` gives back exactly that list |
| CartScreen.Render | app/src/main/java/com/example/sneakhead/view/CartActivity.kt:61-75 | a spinner exactly while loading is true; otherwise the snapshot's non-null items, or nothing when the holder is unset |
| CartScreen.RenderAfterFetch | app/src/main/java/com/example/sneakhead/view/CartActivity.kt:61-75 | after a successful fetch, the screen lists exactly the user's stored items, in order |
| CartScreen.OnDelete | app/src/main/java/com/example/sneakhead/view/CartActivity.kt:76-81 | deletes by the card's `cartItemId` and shows the store's message; re-fetches only on success, and otherwise leaves the holders alone |
| CartScreen.OnUpdateQuantity | app/src/main/java/com/example/sneakhead/view/CartActivity.kt:82-90 | goes through `updateCartItemQuantity`; on success it re-fetches and shows nothing, and on failure it shows the message; the store changes only by the quantity of the found item |
| CartScreen.PressDecrement | app/src/main/java/com/example/sneakhead/view/CartActivity.kt:218-223 | from a quantity of 1, nothing happens at all; otherwise the only possible store change writes a quantity of at least 1 |
| CartScreen.PressIncrement | app/src/main/java/com/example/sneakhead/view/CartActivity.kt:241-242 | the only possible store change writes the incremented quantity |
| Text.SplitAtFirstSpace | app/src/main/java/com/example/sneakhead/view/RegisterActivity.kt:138-140 | `split(" ", limit = 2)`: the first part has no space; with a space, the first part, a space and the rest rebuild the text; without one, the text is the first part and the rest is `""` |
| Text.IsWhitespace | app/src/main/java/com/example/sneakhead/view/AddProductActivity.kt:314 | definition: the characters `isBlank` and `trim` treat as whitespace (`Character.isWhitespace` or `Character.isSpaceChar`) |
| Text.IsBlank | app/src/main/java/com/example/sneakhead/view/AddProductActivity.kt:314 | definition: `isBlank`, the empty string or whitespace only |
| Text.TrimStart | app/src/main/java/com/example/sneakhead/view/RegisterActivity.kt:136 | the leading part of `trim()`: a suffix of the text, the dropped prefix is whitespace only, and the result does not start with whitespace |
| Text.TrimEnd | app/src/main/java/com/example/sneakhead/view/RegisterActivity.kt:136 | the trailing part of `trim()`: a prefix of the text, the dropped suffix is whitespace only, and the result does not end with whitespace |
| Text.Trim | app/src/main/java/com/example/sneakhead/view/RegisterActivity.kt:136 | `trim()` gives a slice of the text with only whitespace before and after it, and no whitespace at either end of the slice (which fixes the result); it never lengthens the text, and gives the empty string exactly when the text is blank |
| Text.TrimDropsTrailingWhitespace | app/src/main/java/com/example/sneakhead/view/RegisterActivity.kt:136 | a trailing whitespace character never survives `trim()` |
| Text.SubstringBeforeLast | app/src/main/java/com/example/sneakhead/repository/ProductRepositoryImplementation.kt:38 | `substringBeforeLast(".")` is a prefix of the input, and when the input holds the delimiter, the delimiter comes right after that prefix |
| Text.ReplaceAll | app/src/main/java/com/example/sneakhead/repository/ProductRepositoryImplementation.kt:49 | `replace` with a replacement at least as long as the pattern never shortens the text, and a text shorter than the pattern is unchanged |
| Text.SubstringBeforeLastSplits | app/src/main/java/com/example/sneakhead/repository/ProductRepositoryImplementation.kt:38 | `substringBeforeLast(".")` followed by the delimiter and a suffix free of delimiters rebuilds the input; with no delimiter the input is unchanged |
| Text.ReplaceAllWithoutOccurrence | app/src/main/java/com/example/sneakhead/repository/ProductRepositoryImplementation.kt:49 | `replace` leaves a string without the pattern unchanged |
| Text.NoInsecureSchemeLeft | app/src/main/java/com/example/sneakhead/repository/ProductRepositoryImplementation.kt:49 | after `replace("http://", "https://")`, no `http://` occurs anywhere in the result |
| ProductRepo.UploadName | app/src/main/java/com/example/sneakhead/repository/ProductRepositoryImplementation.kt:38 | an unknown name gives `uploaded_image`; a name without a dot is unchanged; otherwise the result, a dot and a dot-free extension rebuild the name |
| ProductRepo.SecureUrl | app/src/main/java/com/example/sneakhead/repository/ProductRepositoryImplementation.kt:47-49 | the URL handed back contains no `http://`, and a URL that had none is unchanged |
| ProductRepo.SecureUrlUpgradesScheme | app/src/main/java/com/example/sneakhead/repository/ProductRepositoryImplementation.kt:47-49 | a URL starting with `http://` comes back starting with `https://`, and when that was its only `http://`, it comes back as `https://` followed by the unchanged rest |
| ProductRepo.UploadImage | app/src/main/java/com/example/sneakhead/repository/ProductRepositoryImplementation.kt:30-63 | the host is asked with the derived public id; the caller gets a URL exactly when the host answered with one, and it is the secured URL; every failure gives null |
| ProductRepo.ProductModel.constructor | app/src/main/java/com/example/sneakhead/model/ProductModel.kt:3-10 | a model instance holds exactly the given product |
| ProductRepo.LookupProduct | app/src/main/java/com/example/sneakhead/repository/ProductRepositoryImplementation.kt:136-143 | a product is found only under an existing child that decodes to it; a missing child finds nothing |
| ProductRepo.DecodedSelect | app/src/main/java/com/example/sneakhead/repository/ProductRepositoryImplementation.kt:112-119 | the loop delivers a product exactly when some child decodes to it (both directions), and never more entries than children |
| ProductRepo.Decoded | app/src/main/java/com/example/sneakhead/repository/ProductRepositoryImplementation.kt:112-119 | definition: the children that `getValue(ProductModel::class.java)` turns into a product, in child order; `ProductRepo.DecodedSelect` states what it delivers and bounds its length |
| ProductRepo.Written | app/src/main/java/com/example/sneakhead/repository/ProductRepositoryImplementation.kt:159 | `setValue(data)` leaves exactly the non-null entries of the map, with their values, and nothing of the old node |
| ProductRepo.ProductRepository.constructor | app/src/main/java/com/example/sneakhead/repository/ProductRepositoryImplementation.kt:19-20 | the `products` reference starts as an empty, consistent table |
| ProductRepo.ProductRepository.AddProduct | app/src/main/java/com/example/sneakhead/repository/ProductRepositoryImplementation.kt:79-93 | the caller's model gets a fresh id whether the write succeeds or not, and its other fields are kept; on success the whole model is stored under that id with "product added"; a failure changes no node and reports the cause |
| ProductRepo.ProductRepository.DeleteProduct | app/src/main/java/com/example/sneakhead/repository/ProductRepositoryImplementation.kt:95-107 | only the child `productId` is removed, with "product deleted"; a failure changes nothing |
| ProductRepo.ProductRepository.UpdateProduct | app/src/main/java/com/example/sneakhead/repository/ProductRepositoryImplementation.kt:154-167 | the node is replaced by the map's non-null entries (no merge), or deleted when there are none; "product updated"; a failure changes nothing |
| ProductRepo.ProductRepository.GetAllProducts | app/src/main/java/com/example/sneakhead/repository/ProductRepositoryImplementation.kt:109-129 | an empty collection gives no callback at all; otherwise every decodable product, in child order, with "fetched"; a cancel gives the empty list and the error |
| ProductRepo.ProductRepository.GetProductById | app/src/main/java/com/example/sneakhead/repository/ProductRepositoryImplementation.kt:131-150 | a callback with the product only when the child exists and decodes; otherwise no callback; a cancel delivers null and failure |
| ProductRepo.AddedProductReadsBack | app/src/main/java/com/example/sneakhead/repository/ProductRepositoryImplementation.kt:83-85 | a product stored under a key is read back by that key as exactly that product |
| ProductViewModels.ProductViewModel.constructor | app/src/main/java/com/example/sneakhead/viewmodel/ProductViewModel.kt:40-48 | the three holders start unset |
| ProductViewModels.ProductViewModel.GetProductById | app/src/main/java/com/example/sneakhead/viewmodel/ProductViewModel.kt:50-61 | a found product is posted; a cancelled read posts null; with no callback the holder is unchanged; loading is never touched |
| ProductViewModels.ProductViewModel.GetAllProduct | app/src/main/java/com/example/sneakhead/viewmodel/ProductViewModel.kt:63-75 | loading is posted true on entry and false on every callback; the list becomes the delivered products on success and empty on failure; with an empty collection loading stays true and the list is unchanged |
| ProductViewModels.ProductViewModel.AddProduct | app/src/main/java/com/example/sneakhead/viewmodel/ProductViewModel.kt:18-23 | forwards the model to the repository; same outcome |
| ProductViewModels.ProductViewModel.UpdateProduct | app/src/main/java/com/example/sneakhead/viewmodel/ProductViewModel.kt:25-31 | forwards id and map to the repository; same outcome |
| ProductViewModels.ProductViewModel.DeleteProduct | app/src/main/java/com/example/sneakhead/viewmodel/ProductViewModel.kt:33-38 | forwards the id to the repository; same outcome |
| ProductViewModels.FetchedHolderContents | app/src/main/java/com/example/sneakhead/viewmodel/ProductViewModel.kt:66-68 | after a successful fetch, every entry of the list is a non-null product that some stored child decodes to |
| ProductViewModels.EmptyCatalogueSpins | app/src/main/java/com/example/sneakhead/viewmodel/ProductViewModel.kt:63-65 | on a new, empty catalogue, `getAllProduct` leaves loading true, and the list holder never receives a value |
| Validation.FirstFailing | app/src/main/java/com/example/sneakhead/view/RegisterActivity.kt:408-449 | the position of the first failing check: it fails, every earlier check passes, and no result means every check passes |
| Validation.FirstFailure | app/src/main/java/com/example/sneakhead/view/RegisterActivity.kt:408-449 | no message exactly when every check passes; a message belongs to a failing check after only passing ones |
| Validation.FirstFailureAt | app/src/main/java/com/example/sneakhead/view/RegisterActivity.kt:408-449 | a failing check preceded only by passing ones has its message shown |
| Register.RegistrationChecks | app/src/main/java/com/example/sneakhead/view/RegisterActivity.kt:408-449 | the ten checks of the `when` chain, in order |
| Register.Acceptable | app/src/main/java/com/example/sneakhead/view/RegisterActivity.kt:408-449 | definition: every check of the register button passes; `Register.ValidateRegistration` states that no message is shown exactly then |
| Register.ValidateRegistration | app/src/main/java/com/example/sneakhead/view/RegisterActivity.kt:408-449 | no message exactly when every field is acceptable: names, email and gender non-blank, email matching, password non-blank, at least 6 long and equal to the confirmation, terms accepted |
| Register.ReportedCheckIsFirstFailing | app/src/main/java/com/example/sneakhead/view/RegisterActivity.kt:408-449 | any message shown is that of a failing check that every earlier check passed |
| Register.ShortPasswordRejected | app/src/main/java/com/example/sneakhead/view/RegisterActivity.kt:429-432 | a non-blank password shorter than 6, with the earlier fields in order, gets "Password must be at least 6 characters" |
| Register.MismatchRejected | app/src/main/java/com/example/sneakhead/view/RegisterActivity.kt:437-440 | a confirmation that differs, with the earlier fields in order, gets "Passwords do not match" |
| Register.BlankFirstNameFirst | app/src/main/java/com/example/sneakhead/view/RegisterActivity.kt:409-412 | a blank first name is reported first, whatever the other fields hold |
| Register.DisplayedName | app/src/main/java/com/example/sneakhead/view/RegisterActivity.kt:136 | as written, the name field shows the trimmed `firstName + " " + lastName`, never longer than that text |
| Register.TypedSpaceIsLost | app/src/main/java/com/example/sneakhead/view/RegisterActivity.kt:136-140 | as written, typing a space after a one-word name shows the word again, so the space is lost |
| Register.NewProfile | app/src/main/java/com/example/sneakhead/view/RegisterActivity.kt:453-459 | the profile carries the returned user id and the entered email, names and gender; dob and country keep their empty defaults |
| Register.RegisterForm.constructor | app/src/main/java/com/example/sneakhead/view/RegisterActivity.kt:136 | the form starts empty, with the terms not accepted |
| Register.RegisterForm.OnNameChange | app/src/main/java/com/example/sneakhead/view/RegisterActivity.kt:137-140 | corrected variant (see "## Findings"): the field shows exactly what was typed; the first name is the text before the first space (so it never holds a space) and the last name is the rest; no other field changes |
| Register.RegisterForm.Kickstart | app/src/main/java/com/example/sneakhead/view/RegisterActivity.kt:405-471 | a failing check only shows its message; `register` is used only when every check passes; an auth failure shows its message; the profile is written after success, and the screen goes to login only when that write succeeds |
| Register.TypedSpaceIsKept | app/src/main/java/com/example/sneakhead/view/RegisterActivity.kt:136-140 | with the typed text kept, a trailing space stays in the field while the split is unchanged |
| ProductForm.ProductChecks | app/src/main/java/com/example/sneakhead/view/AddProductActivity.kt:314-326 | definition: the three checks of `validateInputs` with their messages, in the order they are made; `ProductForm.ValidateProductInputs` and `ProductForm.ProductChecksInOrder` state what they decide |
| ProductForm.ValidateProductInputs | app/src/main/java/com/example/sneakhead/view/AddProductActivity.kt:308-327 | accepted exactly when name, price and description are non-blank and the price parses (the same rule as `UpdateProductActivity.kt:419-438`) |
| ProductForm.ProductChecksInOrder | app/src/main/java/com/example/sneakhead/view/AddProductActivity.kt:314-326 | a blank name is reported first, then a blank or unparsable price, then a blank description |
| ProductForm.PriceRecheckNeverFails | app/src/main/java/com/example/sneakhead/view/AddProductActivity.kt:206-213 | after the checks pass, the second parse of the price succeeds |
| AddProductScreen.NewProductImage | app/src/main/java/com/example/sneakhead/view/AddProductActivity.kt:216-264 | the uploaded URL when an image is picked and the upload gives one; `shoe1.png` after a failed upload and when nothing is picked |
| AddProductScreen.NewProductImageIsSecure | app/src/main/java/com/example/sneakhead/view/AddProductActivity.kt:216-264 | a new product's image is the placeholder or a link with no `http://` in it |
| AddProductScreen.AddProductForm.constructor | app/src/main/java/com/example/sneakhead/view/AddProductActivity.kt:204-283 | an empty form, not loading, with no selection |
| AddProductScreen.AddProductForm.Submit | app/src/main/java/com/example/sneakhead/view/AddProductActivity.kt:204-283 | while loading, the disabled button does nothing; a failing check only shows its message; otherwise the product is submitted with the entered fields, the chosen image and a fresh id; loading goes up, then down; the screen closes only on success |
| UpdateProductScreen.PathOf | app/src/main/java/com/example/sneakhead/view/UpdateProductActivity.kt:249 | `productId.toString()`: the id, or `"null"` when the extra is missing |
| UpdateProductScreen.UpdateData | app/src/main/java/com/example/sneakhead/view/UpdateProductActivity.kt:243-248 | the map holds exactly the five keys, with the entered values, the chosen image and the id (null when missing) |
| UpdateProductScreen.UpdateDataEncodes | app/src/main/java/com/example/sneakhead/view/UpdateProductActivity.kt:243-249 | with the id present, the written node is exactly that of the described product, and it reads back as that product |
| UpdateProductScreen.SavedImage | app/src/main/java/com/example/sneakhead/view/UpdateProductActivity.kt:239-290 | the uploaded URL when the upload gives one; the stored image after a failed upload and when nothing is picked |
| UpdateProductScreen.PreviewOf | app/src/main/java/com/example/sneakhead/view/UpdateProductActivity.kt:141-155 | the selection first; else the stored image unless it is empty or `shoe1.png`; else the placeholder |
| UpdateProductScreen.UpdateProductForm.constructor | app/src/main/java/com/example/sneakhead/view/UpdateProductActivity.kt:65-78 | an empty form for the launching intent's `productId` |
| UpdateProductScreen.UpdateProductForm.LoadForm | app/src/main/java/com/example/sneakhead/view/UpdateProductActivity.kt:89-96 | name, description, price text and current image are overwritten from the loaded product |
| UpdateProductScreen.HasId | app/src/main/java/com/example/sneakhead/view/UpdateProductActivity.kt:83 | definition: `!productId.isNullOrEmpty()`, the guard of the load (line 83) and of the delete (line 380) |
| UpdateProductScreen.UpdateProductForm.Launch | app/src/main/java/com/example/sneakhead/view/UpdateProductActivity.kt:82-96 | the product is requested only for a non-empty id; a non-null product in the holder fills the form, and otherwise the form is unchanged |
| UpdateProductScreen.UpdateProductForm.Save | app/src/main/java/com/example/sneakhead/view/UpdateProductActivity.kt:227-314 | while loading, nothing happens; a failing check only shows its message; otherwise it makes one update of `productId.toString()` with the five-key map and the chosen image, shows exact messages, and opens the dashboard only on success |
| UpdateProductScreen.UpdateProductForm.ConfirmDelete | app/src/main/java/com/example/sneakhead/view/UpdateProductActivity.kt:379-394 | a delete is issued only for a non-null, non-empty id; exact messages; the dashboard opens only on success |

## Left out

- The database and SDKs:
  - Firebase path rules are not modelled: the model treats every string, `""` included, as an ordinary child name. In Firebase, `child("")` names the reference itself, so an operation on an empty id acts on the whole collection, and characters a key may not contain (`.`, `#`, `$`, `[`, `]`) raise in the SDK.
  - UpdateProductScreen.UpdateProductForm.Save, ProductRepo.ProductRepository.UpdateProduct, ProductRepo.ProductRepository.DeleteProduct, CartRepo.CartRepository.RemoveFromCart and CartRepo.CartRepository.UpdateQuantity: with an empty id, the model acts on a child named `""` and leaves every other child alone, where Firebase would update or remove the whole `products` or `cart` collection. Save has no empty-id guard (`view/UpdateProductActivity.kt:239-249`), and the dashboard passes `"${eachProduct?.productId}"`, which can be `""` (`view/DashboardActivity.kt:103-104`).
  - Child order is insertion order. The database orders push keys by time, which agrees with insertion order for pushed keys.
  - A node that `getValue` cannot convert counts as "does not decode". The SDK would throw an exception inside the listener, and the model has no exceptions.
  - `ProductRepo.ProductRepository.AddProduct` stores the five data-class properties. Whatever else the SDK's bean serialiser might add is not modelled.
- Live subscriptions: `addValueEventListener` keeps calling back on every change. The model delivers once per call.
- Concurrency: the refresh racing the scan, the parallel deletes of `clearCart` (`Tasks.whenAll`) and the thread hops of the upload are sequential here. The refresh issued first lands last.
- `CartRepo.CartRepository.ClearCart`: the message of a combined delete failure is an input, because the model does not say which failed delete's exception is reported.
- Floating point:
  - a price is an opaque real;
  - `toDoubleOrNull` is the parameter `parse`;
  - `Double.toString` is the parameter `priceText`;
  - cart and checkout totals are not modelled.
- The email pattern (`Patterns.EMAIL_ADDRESS`) is the parameter `emailMatches`.
- Password length: Kotlin counts UTF-16 units and the model counts code points. They differ only for characters outside the Basic Multilingual Plane.
- The image host: its answer is the parameter `host`. `getFileNameFromUri` is the picked image's `displayName` input. The upload credentials are not part of this model.
- `ProductViewModel.uploadImage` is a plain forwarder. The screens' use of it is modelled by calling `ProductRepo.UploadImage` directly.
- Exception messages: the app renders a null exception message as `"null"`. The model takes the cause string as given.
- The "Please enter a valid price" re-check in both submit handlers (`AddProductActivity.kt:208-213`, `UpdateProductActivity.kt:231-236`) is not modelled as a branch. `ProductForm.PriceRecheckNeverFails` shows it can never be taken.
- Authentication: `UserRepositoryImplementation` is not part of this model. The outcome of `register` and of the profile write are inputs of `Register.RegisterForm.Kickstart`.
- UI:
  - Compose layout, toasts beyond their message text, intents and navigation flags are not modelled. Navigation is a flag.
  - `uploadedImageUrl` in `AddProductActivity` is state that is never read.
  - Plain field setters (`onValueChange = { x = it }`) are not modelled.
- Other screens: login, splash, forgot password, dashboard, profile and checkout are UI and preference plumbing.
- `ImageUtils` (permissions and the picker launcher) and the view-model factories are not modelled.

## Findings

| source | as written | input that shows it | evidently intended | confidence | as-written member | corrected member |
|---|---|---|---|---|---|---|
| app/src/main/java/com/example/sneakhead/view/RegisterActivity.kt:136-140 | the full-name field shows `"$firstName $lastName".trim()`, recomputed from the split after every keystroke | type `John` then a space: the text `John ` splits into `John` and `""`, and the field shows `John` again, so typing a last name after the first word, space by space at the end of the field, is not possible | the field keeps the text as typed and only splits it into first and last name | not executed | Register.DisplayedName, Register.TypedSpaceIsLost | Register.RegisterForm.OnNameChange, Register.TypedSpaceIsKept |

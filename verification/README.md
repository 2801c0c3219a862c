# Foodgram backend core, modelled and verified in Dafny

The recipe-sharing backend (Django) keeps users, tags, ingredients and
recipes. It has join tables for recipe ingredients, shopping carts
("grocery list"), favorites and subscriptions. This project models the
parts of it with behaviour worth proving:

- **The shopping-list download** (`ShoppingList`, `Decimal`).
  - `Aggregate` specifies the reduction.
  - `DownloadShoppingCart` and `AddRecipeRows` are the nested loop with its in-place dict update. They are proved to compute `Aggregate`.
  - The key is the ingredient name. The first unit seen for a name is kept, and entries come out in first-seen order.
  - The lemmas prove what that reduction means: one entry per name, the sum per name, the first unit, first-seen order, conservation of the total and positivity.
  - Each line is rendered as `name (unit) - amount`, and its amount reads back.
- **The relation toggles of the views** (`Storage`).
  - A `Store` class holds every table as a field.
  - Cart, favorite and subscription add/remove are methods that return an `Outcome` (`Created`, `Deleted`, `NotFound`, `Duplicate`).
  - Each method first checks the target, then the pair. It changes only its own table and keeps the schema's validity predicate.
  - The new state is tied to the row operations `Insert` and `Delete`. Their round trips, idempotence and exactly-one-row behaviour are proved.
  - The subscriptions query is a function of the store.
  - Cascade deletion of a recipe, a user or an ingredient is a method too.
- **The schema** (`Schema`, `Listing`).
  - Row datatypes, field limits, validators, primary keys, unique constraints and foreign keys are gathered in `ValidDatabase`.
  - Lemmas prove that each cascade deletion keeps the database valid.
  - The default orderings are modelled: recipes newest first, ingredients by name.
- **The pure predicates**.
  - The recipe filter set (`Filters`).
  - The permission class `IsAuthorOrReadOnly` (`Permissions`).
  - The username pattern `^[\w.@+-]+\z` (`Validators`).

How the state is modelled:

- Entity tables are maps from primary key to row.
- Join tables are sequences. `GroceryList` and `RecipeIngredients` declare no `ordering`, so the database may return their rows in any order. A sequence stands for the one order the database happens to return. The download iterates it, and the order of its output lines depends on it.
- Python integers are unbounded, and so are the model's. The sum in the shopping list has no 32-bit wrap-around.

Three behaviours of the code are easy to misread; the model follows the code:

- **Aggregation key.** Ingredients are unique by (name, measurement unit), but the code keys the shopping-list dict by name alone (`backend/api/utils.py:17`), so `flour (g)` and `flour (kg)` become one line, in the unit of whichever row came first. `SameNameOtherUnitExample` shows this.
- **Anonymous readers.** Despite its name, `IsAuthorOrReadOnly.has_permission` admits only authenticated users, whatever the method (`ReadsNeedAuthentication`). Its object check has no safe-method exemption either (`MethodIrrelevant`).
- **Self-subscription.** Neither `subscribe` (`backend/api/views.py:132-159`) nor `Subscribe` (`backend/users/models.py:37-61`) forbids subscribing to oneself, so `Store.Subscribe` accepts it.

## Model

| member | source | states |
|---|---|---|
| `ShoppingList.AggregateSummarizes` | backend/api/utils.py:13-24 | the reduction of any rows has distinct names, covers every row's name, gives each entry the unit of the first row with its name and the sum of the amounts with that name, and orders entries by first occurrence |
| `ShoppingList.OneEntryPerName` | backend/api/utils.py:17-24 | there is exactly one entry per distinct ingredient name of the rows: the names are distinct and form the same set as the rows' names |
| `ShoppingList.EntryIsSumWithFirstUnit` | backend/api/utils.py:14-24 | for a name that occurs, its entry is (name, unit of the first row with that name, sum of every amount with that name): rows with another unit are added in too |
| `ShoppingList.FirstSeenOrder` | backend/api/utils.py:17-30 | entries, and so lines, are in order of the first occurrence of their names |
| `ShoppingList.AggregateConserves` | backend/api/utils.py:16-24 | the entries' amounts add up to the total of the rows' amounts |
| `ShoppingList.AggregatePositive` | backend/api/utils.py:16-24 | rows whose amounts are all at least 1 give entries whose amounts are all at least 1 |
| `ShoppingList.SugarExample` | backend/api/utils.py:13-24 | 100 g and 250 g of sugar in two recipes give one entry of 350 g, placed before the flour that was seen later |
| `ShoppingList.SameNameOtherUnitExample` | backend/api/utils.py:14-24 | 5 g of salt then 1 tsp of salt give one entry of 6 in grams |
| `ShoppingList.LineReadsBack` | backend/api/utils.py:28 | a line is the name, then ` (`, then the unit, then `) - `, then text that reads back as the amount, then a newline |
| `ShoppingList.LineOfName` | backend/api/utils.py:26-30 | for every ingredient name that occurs in the rows, the file has a line (at the name's entry) with that name, the unit of its first row and the sum of its amounts |
| `ShoppingList.NameOfLine` | backend/api/utils.py:26-30 | every line of the file is the line of a name that occurs in the rows, with that name's first unit and summed amount |
| `ShoppingList.UserPurchases` | backend/api/utils.py:8 | exactly the grocery rows of the requesting user |
| `ShoppingList.RecipeRows` | backend/api/utils.py:11-12 | exactly the ingredient rows of the given recipe |
| `ShoppingList.OtherUsersIgnored` | backend/api/utils.py:8 | a grocery row of another user, wherever it stands, does not change the downloaded lines |
| `ShoppingList.EmptyCartEmptyFile` | backend/api/utils.py:8-30 | a user with no grocery rows gets an empty list of lines, not an error |
| `ShoppingList.DownloadShoppingCart` | backend/api/utils.py:6-30 | the nested loops with their dict updates produce exactly the rendered reduction of the items read from the user's grocery rows, in order |
| `ShoppingList.AddRecipeRows` | backend/api/utils.py:13-24 | the inner loop over one recipe's rows leaves the dict and its insertion order mirroring the reduction of everything read so far plus these rows |
| `ShoppingList.MirrorsRender` | backend/api/utils.py:26-30 | one line per dict value, in insertion order, is the rendering of the entries the dict mirrors |
| `Decimal.NatToDecimalCorrect` | backend/api/utils.py:28 | the decimal text of a natural number is a non-empty digit string with no leading zero that denotes the number |
| `Decimal.IntToDecimalRoundTrip` | backend/api/utils.py:28 | `str` of an integer starts with '-' exactly when it is negative, and parsing it gives the integer back |
| `Storage.Insert` | backend/api/views.py:65-68 | saving a pair is Created exactly when it is absent, otherwise Duplicate; the table then holds the old rows plus the pair, and stays free of duplicates |
| `Storage.Delete` | backend/api/views.py:69-76 | deleting a pair is Deleted exactly when it is present, otherwise NotFound; the table then holds the old rows except the pair, and stays free of duplicates |
| `Storage.DuplicateLeavesOne` | backend/recipes/models.py:170-175 | a refused duplicate leaves exactly one such row |
| `Storage.DeleteRemovesOne` | backend/api/views.py:101-108 | deleting a present pair from a duplicate-free table removes one row, that row, and keeps every other |
| `Storage.RemoveAbsent` | backend/api/views.py:69-75 | removing a pair that is not there leaves the table unchanged |
| `Storage.InsertThenDelete` | backend/api/views.py:59-76 | adding a new pair and deleting it again restores the table exactly, with outcome Deleted |
| `Storage.InsertTwice` | backend/api/views.py:97-100 | a second identical add is a Duplicate and changes nothing |
| `Storage.DeleteTwice` | backend/api/views.py:101-108 | a second identical delete is NotFound and changes nothing |
| `Storage.InsertPairKeepsValid` | backend/recipes/models.py:126-175 | adding a pair of an existing user and an existing recipe keeps a cart or favorites table valid |
| `Storage.DeletePairKeepsValid` | backend/recipes/models.py:126-175 | deleting a pair keeps a cart or favorites table valid |
| `Storage.InsertSubscriptionKeepsValid` | backend/users/models.py:37-61 | adding a subscription between existing users keeps the table valid |
| `Storage.DeleteSubscriptionKeepsValid` | backend/users/models.py:37-61 | deleting a subscription keeps the table valid |
| `Storage.Store.AddToShoppingCart` | backend/api/views.py:59-68 | an unknown recipe is NotFound and changes nothing; otherwise the cart is `Insert` of the pair (user, recipe); no other table changes; validity is kept |
| `Storage.Store.RemoveFromShoppingCart` | backend/api/views.py:59-76 | an unknown recipe is NotFound; otherwise the cart is `Delete` of the pair; no other table changes; validity is kept |
| `Storage.Store.AddFavorite` | backend/api/views.py:90-100 | as the cart add, on the favorites table |
| `Storage.Store.RemoveFavorite` | backend/api/views.py:90-108 | as the cart delete, on the favorites table |
| `Storage.Store.Subscribe` | backend/api/views.py:136-151 | an unknown author is NotFound and changes nothing; otherwise the subscriptions are `Insert` of (subscriber, author) and the author is then among the subscriber's subscriptions |
| `Storage.Store.Unsubscribe` | backend/api/views.py:136-159 | an unknown author is NotFound; otherwise the subscriptions are `Delete` of the pair; afterwards the author is not among the subscriber's subscriptions |
| `Storage.Store.Subscriptions` | backend/api/views.py:165-170 | only users are returned; in a valid store, exactly the users a for which (requester, a) is a subscription row |
| `Storage.Store.DeleteRecipe` | backend/recipes/models.py:111-166 | the recipe is gone with every ingredient, cart and favorite row of it and nothing else; validity is kept |
| `Storage.Store.DeleteUser` | backend/recipes/models.py:65-161 | the user is gone with the recipes they wrote, every row of those recipes, their cart and favorite rows and every subscription on either side; tags and ingredients stay; validity is kept |
| `Storage.Store.DeleteIngredient` | backend/recipes/models.py:107-110 | the ingredient is gone with the recipe rows that use it; validity is kept |
| `Schema.CompositeTagConstraintImplied` | backend/recipes/models.py:11-28 | the composite unique constraint on (name, color, slug) is implied by the three single-field ones |
| `Schema.RowsWithoutRecipes` | backend/recipes/models.py:111-114 | the recipe-ingredient rows that survive are exactly those of the recipes not deleted |
| `Schema.RowsWithoutIngredient` | backend/recipes/models.py:107-110 | the recipe-ingredient rows that survive are exactly those of the ingredients not deleted |
| `Schema.PairsWithout` | backend/recipes/models.py:129-166 | the cart or favorite rows that survive are exactly those of the users and recipes not deleted, still duplicate-free |
| `Schema.SubscriptionsWithout` | backend/users/models.py:40-51 | the subscriptions that survive are exactly those where the deleted user is neither subscriber nor author |
| `Schema.DeleteRecipeKeepsValid` | backend/recipes/models.py:111-166 | deleting a recipe with its cascade keeps every key, unique and foreign-key constraint and every field limit |
| `Schema.DeleteUserKeepsValid` | backend/recipes/models.py:65-69 | deleting a user with their recipes and every row that references either keeps the database valid |
| `Schema.DeleteIngredientKeepsValid` | backend/recipes/models.py:107-110 | deleting an ingredient with the recipe rows that use it keeps the database valid |
| `Schema.UsersWithoutKeepsValid` | backend/users/models.py:14-19 | removing a user keeps usernames unique and every user row valid |
| `Schema.RecipesWithoutAuthorKeepsValid` | backend/recipes/models.py:65-69 | removing a user's recipes leaves only recipes whose author still exists |
| `Schema.RowsWithoutRecipesKeepsValid` | backend/recipes/models.py:111-117 | the surviving recipe-ingredient rows reference surviving recipes and keep amount at least 1 |
| `Schema.PairsWithoutKeepsValid` | backend/recipes/models.py:140-148 | the surviving cart or favorite rows stay unique and reference surviving users and recipes |
| `Schema.SubscriptionsWithoutKeepsValid` | backend/users/models.py:56-61 | the surviving subscriptions stay unique and reference surviving users |
| `Listing.ListRecipes` | backend/recipes/models.py:98 | the recipe listing is a permutation of the recipes, newest first |
| `Listing.ListIngredients` | backend/recipes/models.py:47 | the ingredient listing is a permutation of the ingredients, ordered by name |
| `Listing.InsertRecipe` | backend/recipes/models.py:98 | placing a recipe into a newest-first listing keeps it newest first and adds exactly that recipe |
| `Listing.InsertIngredient` | backend/recipes/models.py:47 | placing an ingredient into a by-name listing keeps it by name and adds exactly that ingredient |
| `Listing.NameLeTotal` | backend/recipes/models.py:47 | any two names are ordered one way or the other |
| `Listing.NameLeTransitive` | backend/recipes/models.py:47 | the name order is transitive |
| `Filters.FilterListed` | backend/api/filters.py:23-31 | with the flag unset or an anonymous requester the queryset comes back unchanged; otherwise exactly the recipes of it that the requester has a favorite (or cart) row for |
| `Filters.FilterTags` | backend/api/filters.py:17 | no slugs leaves the queryset alone; otherwise exactly the recipes having at least one tag with one of the slugs |
| `Filters.FilterAuthor` | backend/api/filters.py:18 | no author leaves the queryset alone; otherwise exactly the recipes of that author |
| `Filters.ApplyQueryExact` | backend/api/filters.py:14-35 | a recipe is listed exactly when it is in the queryset and passes every filter of the query |
| `Filters.ApplyQueryKeepsPassing` | backend/api/filters.py:14-35 | a queryset whose recipes all pass comes back unchanged, in order |
| `Filters.ApplyQueryIdempotent` | backend/api/filters.py:14-35 | filtering the result again with the same query changes nothing |
| `Filters.FilterListedIdempotent` | backend/api/filters.py:23-31 | applying a flag filter twice is applying it once |
| `Filters.FilterTagsIdempotent` | backend/api/filters.py:17 | applying the tag filter twice is applying it once |
| `Filters.FilterAuthorIdempotent` | backend/api/filters.py:18 | applying the author filter twice is applying it once |
| `Filters.FilterTagsMonotone` | backend/api/filters.py:17 | asking for more slugs never loses a recipe (OR semantics) |
| `Permissions.ReadsNeedAuthentication` | backend/api/permissions.py:7-8 | the anonymous user is refused even GET, HEAD and OPTIONS |
| `Permissions.AuthorGranted` | backend/api/permissions.py:11 | the author may act on the object |
| `Permissions.SuperuserGranted` | backend/api/permissions.py:11 | a superuser may act on any object |
| `Permissions.OthersDenied` | backend/api/permissions.py:11 | an authenticated non-author non-superuser, and the anonymous user, are refused |
| `Permissions.MethodIrrelevant` | backend/api/permissions.py:7-11 | neither check depends on the HTTP method |
| `Validators.PatternMeansCharacterClass` | backend/users/validators.py:7 | the pattern accepts exactly the non-empty strings whose every character is a word character or one of `.@+-` |
| `Validators.EmptyRejected` | backend/users/validators.py:7 | the empty username is rejected |
| `Validators.OutsideClassRejected` | backend/users/validators.py:7 | one character outside the class, anywhere, rejects |
| `Validators.AnchoredAtEnd` | backend/users/validators.py:7 | an accepted prefix followed by a character outside the class is rejected |
| `Validators.SeparatorsRejected` | backend/users/validators.py:7 | a space, `/` or `#` anywhere rejects the username, under any word table that does not count them (none of Python's does) |
| `Validators.CyrillicAccepted` | backend/users/validators.py:7 | a Cyrillic username such as "Иван" is accepted under a word table that counts its letters, as Python's Unicode table does |
| `Schema.NonAsciiUsernameAdmitted` | backend/users/models.py:14-19 | a database holding a user with a Cyrillic username is valid under such a table, so the store methods cover it |
| `Permissions.HasPermission` | backend/api/permissions.py:7-8 | `request.user and request.user.is_authenticated`: true exactly for a signed-in requester (no contract; `ReadsNeedAuthentication` and `MethodIrrelevant` state it) |
| `Permissions.HasObjectPermission` | backend/api/permissions.py:10-11 | the object's author or a superuser (no contract; `AuthorGranted`, `SuperuserGranted` and `OthersDenied` state it) |
| `ShoppingList.Aggregate` | backend/api/utils.py:13-24 | the specification of the dict after the loops (no contract of its own; its meaning is `AggregateSummarizes` and the lemmas after it): each row adds its amount to the entry of its name, or opens a new entry at the end |
| `ShoppingList.Render` | backend/api/utils.py:26-30 | one line per entry, in order (no contract; `LineOfName` and `NameOfLine` state what the lines of the file are) |
| `ShoppingList.Line` | backend/api/utils.py:28 | the f-string `name (unit) - amount` and a newline (no contract; `LineReadsBack` states its layout) |
| `ShoppingList.ItemOf` | backend/api/utils.py:14-16 | the name and unit of the row's ingredient, and the row's amount (no contract) |
| `ShoppingList.ItemsOf` | backend/api/utils.py:13-16 | the items the inner loop reads from a recipe's rows, in order (no contract) |
| `ShoppingList.CartItems` | backend/api/utils.py:10-16 | the items both loops read from the purchases, in order (no contract) |
| `ShoppingList.ShoppingCart` | backend/api/utils.py:8-30 | the downloaded lines: the rendering of the reduction of the user's cart items (no contract; `DownloadShoppingCart` is proved to compute it, and `OtherUsersIgnored`, `EmptyCartEmptyFile`, `LineOfName` and `NameOfLine` state what it holds) |
| `Decimal.IntToDecimal` | backend/api/utils.py:28 | Python's `str` of an integer (no contract; `IntToDecimalRoundTrip` is its partner) |
| `Filters.FilterIsFavorited` | backend/api/filters.py:23-26 | `FilterListed` on the favorites table (no contract of its own) |
| `Filters.FilterIsInShoppingCart` | backend/api/filters.py:28-31 | `FilterListed` on the grocery table (no contract of its own) |
| `Filters.Passes` | backend/api/filters.py:14-35 | the condition of each filter of the query, as a predicate on one recipe (no contract) |
| `Filters.ApplyQuery` | backend/api/filters.py:14-35 | the four filters in declaration order: tags, author, is_favorited, is_in_shopping_cart (no contract; `ApplyQueryExact` states its result) |
| `Validators.InUsernameClass` | backend/users/validators.py:7 | membership in the class `[\w.@+-]` (no contract) |
| `Validators.MatchesUsernamePattern` | backend/users/validators.py:7 | the anchored `^C+\z` matcher (no contract; `PatternMeansCharacterClass` states what it accepts) |
| `Schema.ValidUser` | backend/users/models.py:10-27 | email of 1 to 254 characters, username of at most 150 accepted by the validator under the given word table, first and last name of at most 150, possibly blank (no contract) |
| `Schema.BlankNamedSuperuserAdmitted` | backend/users/models.py:20-27 | a database holding an administrator with blank first and last names, as `createsuperuser` stores, is valid, so the store methods cover it |
| `Schema.ValidUsers` | backend/users/models.py:14-19 | every user row valid and stored under its key; usernames unique (no contract) |
| `Schema.ValidTag` | backend/recipes/models.py:11-18 | a tag name of 1 to 200 characters, colour and slug not blank (no contract) |
| `Schema.ValidTags` | backend/recipes/models.py:11-28 | every tag valid and under its key; name, color and slug each unique (no contract) |
| `Schema.ValidIngredient` | backend/recipes/models.py:37-42 | name and measurement unit of 1 to 200 characters (no contract) |
| `Schema.ValidIngredients` | backend/recipes/models.py:34-53 | every ingredient valid and under its key; the pair (name, measurement unit) unique (no contract) |
| `Schema.ValidRecipe` | backend/recipes/models.py:62-90 | name of 1 to 200 characters, text not blank, cooking time from 1 to 32767 (no contract) |
| `Schema.ValidRecipes` | backend/recipes/models.py:59-93 | every recipe valid and under its key; its author is a user and its tags are tags (no contract) |
| `Schema.ValidRecipeIngredient` | backend/recipes/models.py:115-117 | an amount from 1 to the integer field's maximum (no contract) |
| `Schema.ValidRecipeIngredients` | backend/recipes/models.py:104-117 | every row names an existing recipe and ingredient and has a valid amount (no contract) |
| `Schema.ValidUserRecipes` | backend/recipes/models.py:126-175 | a cart or favorites table: the pair (user, recipe) unique, both ends existing (no contract) |
| `Schema.ValidSubscriptions` | backend/users/models.py:37-61 | the pair (subscriber, author) unique, both ends existing users (no contract) |
| `Schema.ValidDatabase` | backend/recipes/models.py:8-175 | every table constraint above at once (no contract) |
| `Storage.Store.Valid` | backend/recipes/models.py:8-175 | the store's tables satisfy `ValidDatabase` (no contract) |
| `Storage.Store.constructor` | backend/recipes/models.py:8-175 | the empty database under the given word table, which is valid |
| `Schema.AuthoredBy` | backend/recipes/models.py:65-69 | the keys of the recipes a user wrote, which `on_delete=CASCADE` removes with the user (no contract) |
| `Listing.NewestFirst` | backend/recipes/models.py:98 | `ordering = ['-pub_date']` as a predicate on a listing (no contract) |
| `Listing.ByName` | backend/recipes/models.py:47 | `ordering = ['name']` as a predicate on a listing (no contract) |

## Left out

- HTTP plumbing is not modelled: `HttpResponse`, the `Content-Disposition` header, status codes and routers. The `Outcome` datatype stands for the answers. The download returns its list of lines, which the response concatenates.
- Authentication is not modelled. Each toggle requires the requester to be an existing user. This is what the views' permission classes guarantee of `request.user`: `IsAuthenticated` on `subscribe`, `IsAuthenticatedOrReadOnly` on `favorite`, and, for `shopping_cart`, the project's default permission classes, configured outside the modelled files.
- The serializers are not modelled. `GrocerySerializer`, `FavoriteSerializer`, `SubscribeSerializer` and `SubscribeResponseSerializer` are not part of this model.
  - The duplicate refusal is modelled from the unique constraints.
  - The subscription response body (author profile, recipes, counts) is left out.
  - No self-subscription check is asserted, because neither the view nor the model has one.
- `get_serializer_class` of both view sets is left out: it picks a serializer class and carries no state or rule.
- Creating and editing users, recipes, tags and ingredients is not modelled, because it happens in serializers that are not part of this model. Of the changes, only deleting a recipe, a user or an ingredient, with its cascades, is modelled.
- Deleting a tag is not modelled: the store has no method for it. It would remove the tag's rows from the recipe–tag table, which the model holds as each recipe's `tags` set.
- Pagination, the ingredient name search (`IngredientSearchFilter`, which is the framework's `SearchFilter`), images, base64 upload, token authentication and djoser user management are framework or foreign-library behaviour.
- The `__str__` methods of the models are left out: they only give the display name of a row.
- Seed and import scripts, admin registrations and migrations are left out: file and database I/O, and framework glue.
- Concurrency is not modelled: check-then-insert races between requests. The store is sequential.
- Validators.MatchesUsernamePattern: the meaning of `\w` is not defined in the model. Every member takes it as a parameter `isWord`: the schema predicates, the store (its `isWord` field) and the pattern lemmas. So they hold for Python's Unicode table, and a username such as "Иван" is admitted.
- Validators.MatchesUsernamePattern: `\z` is only accepted by Python's `re` from 3.14 on. Older versions reject the pattern as a bad escape. The model is the evidently intended whole-string match, not the regex engine.
- Filters.FilterTags and Filters.FilterAuthor do not model the form validation of the query values. That validation happens in the filter library: an unknown slug or author id is an invalid choice and gets a 400.
- Listing.ListRecipes and Listing.ListIngredients give one admissible order. The database may order rows with equal keys differently. `pub_date` is an integer timestamp.
- Listing.NameLe compares code points. The database collation may order names differently.
- Non-blank fields: every character field except the user's first and last name is required to be non-empty, since none sets `blank=True`. This is what `full_clean` and the serializers check. The names are allowed to be blank because `createsuperuser` and `create_user` store them as `''` (`BlankNamedSuperuserAdmitted`); `createsuperuser` does ask for the email, a required field. The database itself does not refuse an empty string, so rows written around them (the import scripts) are outside the model. Whitespace-only values are not refused by the model.
- Field types are only partly modelled. Not modelled: the colour, slug and e-mail formats, and the default length limits of the colour and slug fields. Also not modelled is `password` with its `max_length=150` (`backend/users/models.py:28-30`), because the model keeps no passwords. Modelled: the declared lengths of names, usernames and e-mails, the `cooking_time` and `amount` limits, and the unique and foreign-key constraints.
- Row order is not fully modelled. The database returns the rows of `GroceryList` and `RecipeIngredients` in an order that no model declares. The store fixes one such order: a new row goes at the end. The model does not capture what another database order does. It permutes the downloaded lines. It can also change which row of a name comes first, and so the unit shown on that name's line. The amounts are not affected, since each is a sum over all rows of its name.

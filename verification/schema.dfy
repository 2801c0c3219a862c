/**
 * The relational schema of the recipe service: one datatype per row of each
 * table, the field limits and validators of the models, and the table-wide
 * constraints (primary keys, unique constraints, foreign keys) gathered into
 * one validity predicate over the whole database.
 *
 * Tables of entities are maps from primary key to row, so keys are unique by
 * construction. Join tables declare no ordering, so a queryset over one is
 * iterated in whatever order the database returns; a join table is a
 * sequence of rows standing for that one, unspecified order.
 */
module Schema {
  import opened Seqs
  import Validators

  /** `max_length` of the name fields of tags, ingredients and recipes. */
  const NameMaxLength := 200
  const UsernameMaxLength := 150
  const EmailMaxLength := 254
  /** `max_length` of `first_name` and `last_name`. */
  const PersonNameMaxLength := 150
  /** Upper bound of a `PositiveSmallIntegerField`. */
  const SmallIntegerMax := 32767
  /** Upper bound of an `IntegerField`. */
  const IntegerMax := 2147483647

  datatype User = User(
    id: nat, email: string, username: string,
    firstName: string, lastName: string, isSuperuser: bool)

  datatype Tag = Tag(id: nat, name: string, color: string, slug: string)

  datatype Ingredient = Ingredient(id: nat, name: string, measurementUnit: string)

  /** `tags` holds the keys of the recipe's tags (the many-to-many table). */
  datatype Recipe = Recipe(
    id: nat, name: string, author: nat, text: string,
    tags: set<nat>, cookingTime: int, pubDate: int)

  /** A row of `RecipeIngredients`: one ingredient of one recipe, with its amount. */
  datatype RecipeIngredient = RecipeIngredient(recipe: nat, ingredient: nat, amount: int)

  /** A row of `GroceryList` or of `Favorite`. */
  datatype UserRecipe = UserRecipe(user: nat, recipe: nat)

  /** A row of `Subscribe`. */
  datatype Subscription = Subscription(subscriber: nat, author: nat)

  // ---- Field limits and validators, row by row ----

  /** No character field of the schema sets `blank=True`, so the forms and
      serializers refuse an empty string in each of them. The user's first
      and last name are the exception kept here: `createsuperuser` and
      `create_user` store them as the empty string, so a valid database may
      hold users without names. `isWord` is the regex engine's table for
      `\w`, which the username validator depends on. */
  predicate ValidUser(isWord: char -> bool, u: User) {
    && 0 < |u.email| <= EmailMaxLength
    && |u.username| <= UsernameMaxLength
    && Validators.MatchesUsernamePattern(isWord, u.username)
    && |u.firstName| <= PersonNameMaxLength
    && |u.lastName| <= PersonNameMaxLength
  }

  predicate ValidTag(t: Tag) {
    && 0 < |t.name| <= NameMaxLength
    && t.color != []
    && t.slug != []
  }

  predicate ValidIngredient(i: Ingredient) {
    0 < |i.name| <= NameMaxLength && 0 < |i.measurementUnit| <= NameMaxLength
  }

  /** `name` and `text` may not be blank; `cooking_time` is a small positive integer of at least 1. */
  predicate ValidRecipe(r: Recipe) {
    && 0 < |r.name| <= NameMaxLength
    && r.text != []
    && 1 <= r.cookingTime <= SmallIntegerMax
  }

  /** `amount` is an integer of at least 1. */
  predicate ValidRecipeIngredient(ri: RecipeIngredient) {
    1 <= ri.amount <= IntegerMax
  }

  // ---- Table constraints ----

  ghost predicate ValidUsers(isWord: char -> bool, users: map<nat, User>) {
    && (forall id :: id in users ==> users[id].id == id && ValidUser(isWord, users[id]))
    // username is unique
    && (forall a, b :: a in users && b in users && a != b ==> users[a].username != users[b].username)
  }

  ghost predicate ValidTags(tags: map<nat, Tag>) {
    && (forall id :: id in tags ==> tags[id].id == id && ValidTag(tags[id]))
    // name, color and slug are each unique
    && (forall a, b :: a in tags && b in tags && a != b ==>
          && tags[a].name != tags[b].name
          && tags[a].color != tags[b].color
          && tags[a].slug != tags[b].slug)
  }

  ghost predicate ValidIngredients(ingredients: map<nat, Ingredient>) {
    && (forall id :: id in ingredients ==> ingredients[id].id == id && ValidIngredient(ingredients[id]))
    // the pair (name, measurement_unit) is unique
    && (forall a, b :: a in ingredients && b in ingredients && a != b ==>
          (ingredients[a].name, ingredients[a].measurementUnit) !=
          (ingredients[b].name, ingredients[b].measurementUnit))
  }

  ghost predicate ValidRecipes(recipes: map<nat, Recipe>, users: map<nat, User>, tags: map<nat, Tag>) {
    forall id :: id in recipes ==>
      && recipes[id].id == id
      && ValidRecipe(recipes[id])
      && recipes[id].author in users
      && recipes[id].tags <= tags.Keys
  }

  ghost predicate ValidRecipeIngredients(
    rows: seq<RecipeIngredient>, recipes: map<nat, Recipe>, ingredients: map<nat, Ingredient>)
  {
    forall ri :: ri in rows ==>
      ri.recipe in recipes && ri.ingredient in ingredients && ValidRecipeIngredient(ri)
  }

  /** A grocery list or favorites table: the pair (user, recipe) is unique. */
  ghost predicate ValidUserRecipes(rows: seq<UserRecipe>, users: map<nat, User>, recipes: map<nat, Recipe>) {
    Distinct(rows) && forall p :: p in rows ==> p.user in users && p.recipe in recipes
  }

  /** The subscriptions table: the pair (subscriber, author) is unique. */
  ghost predicate ValidSubscriptions(rows: seq<Subscription>, users: map<nat, User>) {
    Distinct(rows) && forall s :: s in rows ==> s.subscriber in users && s.author in users
  }

  /** Every constraint of the schema at once. */
  ghost predicate ValidDatabase(
    isWord: char -> bool, users: map<nat, User>, tags: map<nat, Tag>, ingredients: map<nat, Ingredient>,
    recipes: map<nat, Recipe>, recipeIngredients: seq<RecipeIngredient>,
    groceryList: seq<UserRecipe>, favorites: seq<UserRecipe>, subscriptions: seq<Subscription>)
  {
    && ValidUsers(isWord, users)
    && ValidTags(tags)
    && ValidIngredients(ingredients)
    && ValidRecipes(recipes, users, tags)
    && ValidRecipeIngredients(recipeIngredients, recipes, ingredients)
    && ValidUserRecipes(groceryList, users, recipes)
    && ValidUserRecipes(favorites, users, recipes)
    && ValidSubscriptions(subscriptions, users)
  }

  /** The composite constraint `unique_tags` on (name, color, slug) adds
      nothing to the three single-field constraints. */
  lemma CompositeTagConstraintImplied(tags: map<nat, Tag>, a: nat, b: nat)
    requires ValidTags(tags) && a in tags && b in tags && a != b
    ensures (tags[a].name, tags[a].color, tags[a].slug) != (tags[b].name, tags[b].color, tags[b].slug)
  {
  }

  /** A user named in Cyrillic is a valid row of a valid database under a
      word table that counts those letters, as the Unicode table of `re` does. */
  /** The administrator that `createsuperuser` creates, with blank first and
      last names, is a valid row of a valid database. */
  lemma BlankNamedSuperuserAdmitted(isWord: char -> bool)
    requires isWord('a') && isWord('d') && isWord('m') && isWord('i') && isWord('n')
    ensures ValidDatabase(isWord, map[1 := User(1, "admin@example.org", "admin", "", "", true)],
      map[], map[], map[], [], [], [], [])
  {
  }

  lemma NonAsciiUsernameAdmitted(isWord: char -> bool)
    requires isWord('И') && isWord('в') && isWord('а') && isWord('н')
    ensures ValidDatabase(isWord, map[1 := User(1, "ivan@example.org", "Иван", "Иван", "Петров", false)],
      map[], map[], map[], [], [], [], [])
  {
  }

  // ---- Cascade deletion ----

  /** Recipe-ingredient rows that survive deleting the recipes `gone`. */
  function RowsWithoutRecipes(rows: seq<RecipeIngredient>, gone: set<nat>): (r: seq<RecipeIngredient>)
    ensures forall ri :: ri in r <==> ri in rows && ri.recipe !in gone
  {
    Filter(rows, (ri: RecipeIngredient) => ri.recipe !in gone)
  }

  /** Recipe-ingredient rows that survive deleting the ingredient `gone`. */
  function RowsWithoutIngredient(rows: seq<RecipeIngredient>, gone: nat): (r: seq<RecipeIngredient>)
    ensures forall ri :: ri in r <==> ri in rows && ri.ingredient != gone
  {
    Filter(rows, (ri: RecipeIngredient) => ri.ingredient != gone)
  }

  /** Grocery-list or favorite rows that survive deleting the users `goneUsers`
      and the recipes `goneRecipes`. */
  function PairsWithout(rows: seq<UserRecipe>, goneUsers: set<nat>, goneRecipes: set<nat>): (r: seq<UserRecipe>)
    ensures forall p :: p in r <==> p in rows && p.user !in goneUsers && p.recipe !in goneRecipes
    ensures Distinct(rows) ==> Distinct(r)
  {
    var keep := (p: UserRecipe) => p.user !in goneUsers && p.recipe !in goneRecipes;
    FilterDistinct(rows, keep);
    Filter(rows, keep)
  }

  /** Subscription rows that survive deleting the user `gone`, on either side. */
  function SubscriptionsWithout(rows: seq<Subscription>, gone: nat): (r: seq<Subscription>)
    ensures forall s :: s in r <==> s in rows && s.subscriber != gone && s.author != gone
    ensures Distinct(rows) ==> Distinct(r)
  {
    var keep := (s: Subscription) => s.subscriber != gone && s.author != gone;
    FilterDistinct(rows, keep);
    Filter(rows, keep)
  }

  /** The keys of the recipes written by `author`. */
  function AuthoredBy(recipes: map<nat, Recipe>, author: nat): set<nat>
  {
    set id | id in recipes && recipes[id].author == author
  }

  lemma UsersWithoutKeepsValid(isWord: char -> bool, users: map<nat, User>, id: nat)
    requires ValidUsers(isWord, users)
    ensures ValidUsers(isWord, users - {id})
  {
  }

  lemma RecipesWithoutAuthorKeepsValid(
    recipes: map<nat, Recipe>, users: map<nat, User>, tags: map<nat, Tag>, id: nat)
    requires ValidRecipes(recipes, users, tags)
    ensures ValidRecipes(recipes - AuthoredBy(recipes, id), users - {id}, tags)
  {
  }

  lemma RowsWithoutRecipesKeepsValid(
    rows: seq<RecipeIngredient>, recipes: map<nat, Recipe>, ingredients: map<nat, Ingredient>, gone: set<nat>)
    requires ValidRecipeIngredients(rows, recipes, ingredients)
    ensures ValidRecipeIngredients(RowsWithoutRecipes(rows, gone), recipes - gone, ingredients)
  {
  }

  lemma PairsWithoutKeepsValid(
    rows: seq<UserRecipe>, users: map<nat, User>, recipes: map<nat, Recipe>,
    goneUsers: set<nat>, goneRecipes: set<nat>)
    requires ValidUserRecipes(rows, users, recipes)
    ensures ValidUserRecipes(PairsWithout(rows, goneUsers, goneRecipes), users - goneUsers, recipes - goneRecipes)
  {
  }

  lemma SubscriptionsWithoutKeepsValid(rows: seq<Subscription>, users: map<nat, User>, id: nat)
    requires ValidSubscriptions(rows, users)
    ensures ValidSubscriptions(SubscriptionsWithout(rows, id), users - {id})
  {
  }

  /** Deleting a recipe and the rows that reference it keeps the database valid. */
  lemma DeleteRecipeKeepsValid(
    isWord: char -> bool, users: map<nat, User>, tags: map<nat, Tag>, ingredients: map<nat, Ingredient>,
    recipes: map<nat, Recipe>, recipeIngredients: seq<RecipeIngredient>,
    groceryList: seq<UserRecipe>, favorites: seq<UserRecipe>, subscriptions: seq<Subscription>,
    id: nat)
    requires ValidDatabase(isWord, users, tags, ingredients, recipes, recipeIngredients, groceryList, favorites, subscriptions)
    ensures ValidDatabase(
      isWord, users, tags, ingredients, recipes - {id}, RowsWithoutRecipes(recipeIngredients, {id}),
      PairsWithout(groceryList, {}, {id}), PairsWithout(favorites, {}, {id}), subscriptions)
  {
  }

  /** Deleting a user, the recipes they wrote and every row that references
      either keeps the database valid. */
  lemma DeleteUserKeepsValid(
    isWord: char -> bool, users: map<nat, User>, tags: map<nat, Tag>, ingredients: map<nat, Ingredient>,
    recipes: map<nat, Recipe>, recipeIngredients: seq<RecipeIngredient>,
    groceryList: seq<UserRecipe>, favorites: seq<UserRecipe>, subscriptions: seq<Subscription>,
    id: nat)
    requires ValidDatabase(isWord, users, tags, ingredients, recipes, recipeIngredients, groceryList, favorites, subscriptions)
    ensures var gone := AuthoredBy(recipes, id);
      ValidDatabase(
        isWord, users - {id}, tags, ingredients, recipes - gone, RowsWithoutRecipes(recipeIngredients, gone),
        PairsWithout(groceryList, {id}, gone), PairsWithout(favorites, {id}, gone),
        SubscriptionsWithout(subscriptions, id))
  {
    var gone := AuthoredBy(recipes, id);
    UsersWithoutKeepsValid(isWord, users, id);
    RecipesWithoutAuthorKeepsValid(recipes, users, tags, id);
    RowsWithoutRecipesKeepsValid(recipeIngredients, recipes, ingredients, gone);
    PairsWithoutKeepsValid(groceryList, users, recipes, {id}, gone);
    PairsWithoutKeepsValid(favorites, users, recipes, {id}, gone);
    SubscriptionsWithoutKeepsValid(subscriptions, users, id);
  }

  /** Deleting an ingredient and the recipe rows that use it keeps the database valid. */
  lemma DeleteIngredientKeepsValid(
    isWord: char -> bool, users: map<nat, User>, tags: map<nat, Tag>, ingredients: map<nat, Ingredient>,
    recipes: map<nat, Recipe>, recipeIngredients: seq<RecipeIngredient>,
    groceryList: seq<UserRecipe>, favorites: seq<UserRecipe>, subscriptions: seq<Subscription>,
    id: nat)
    requires ValidDatabase(isWord, users, tags, ingredients, recipes, recipeIngredients, groceryList, favorites, subscriptions)
    ensures ValidDatabase(
      isWord, users, tags, ingredients - {id}, recipes, RowsWithoutIngredient(recipeIngredients, id),
      groceryList, favorites, subscriptions)
  {
  }
}

/**
 * The database as one mutable store, and the actions of the views that
 * change it: putting a recipe into and out of the shopping cart and the
 * favorites, subscribing to and unsubscribing from an author, and the
 * cascade deletions the foreign keys declare.
 *
 * A toggle first looks up its target (`get_object_or_404`), then inserts the
 * pair unless the unique constraint on it would be violated, or deletes the
 * pair when it exists. The outcomes stand for the answers 201, 204 and
 * 404, and for the refusal of a duplicate (a 400 from the serializer's
 * unique-together check, which is not part of this model).
 */
module Storage {
  import opened Seqs
  import opened Schema

  datatype Outcome = Created | Deleted | NotFound | Duplicate

  // ---- The two row operations of a table with a unique pair ----

  /** Saving a row under a unique constraint: refused when the row exists. */
  function Insert<T(==,!new)>(rows: seq<T>, p: T): (r: (Outcome, seq<T>))
    ensures r.0 == Created || r.0 == Duplicate
    ensures r.0 == Created <==> p !in rows
    ensures forall y :: y in r.1 <==> y in rows || y == p
    ensures Distinct(rows) ==> Distinct(r.1)
  {
    if p in rows then (Duplicate, rows)
    else
      AppendDistinctIfFresh(rows, p);
      (Created, rows + [p])
  }

  lemma AppendDistinctIfFresh<T(!new)>(rows: seq<T>, p: T)
    requires p !in rows
    ensures Distinct(rows) ==> Distinct(rows + [p])
  {
    if Distinct(rows) {
      AppendDistinct(rows, p);
    }
  }

  /** Looking a row up and deleting it: not found when it is absent. */
  function Delete<T(==,!new)>(rows: seq<T>, p: T): (r: (Outcome, seq<T>))
    ensures r.0 == Deleted || r.0 == NotFound
    ensures r.0 == Deleted <==> p in rows
    ensures forall y :: y in r.1 <==> y in rows && y != p
    ensures Distinct(rows) ==> Distinct(r.1)
  {
    if p in rows then
      RemoveDistinctIfDistinct(rows, p);
      (Deleted, Remove(rows, p))
    else (NotFound, rows)
  }

  lemma RemoveDistinctIfDistinct<T(!new)>(rows: seq<T>, p: T)
    ensures Distinct(rows) ==> Distinct(Remove(rows, p))
  {
    if Distinct(rows) {
      RemoveDistinct(rows, p);
    }
  }

  /** A rejected duplicate leaves exactly one such row. */
  lemma DuplicateLeavesOne<T(!new)>(rows: seq<T>, p: T)
    requires Distinct(rows) && Insert(rows, p).0 == Duplicate
    ensures multiset(Insert(rows, p).1)[p] == 1
  {
    DistinctOccursOnce(rows, p);
  }

  /** Deleting a row of a table with unique rows removes that row and only that row. */
  lemma DeleteRemovesOne<T(!new)>(rows: seq<T>, p: T)
    requires Distinct(rows) && p in rows
    ensures |Delete(rows, p).1| == |rows| - 1
    ensures forall y :: y in Delete(rows, p).1 <==> y in rows && y != p
  {
    DistinctOccursOnce(rows, p);
  }

  /** Removing what is not there changes nothing. */
  lemma {:induction false} RemoveAbsent<T(!new)>(rows: seq<T>, p: T)
    requires p !in rows
    ensures Remove(rows, p) == rows
  {
    if rows != [] {
      var init := rows[..|rows| - 1];
      assert rows == init + [rows[|rows| - 1]];
      RemoveAbsent(init, p);
    }
  }

  /** Adding a row and deleting it again restores the table. */
  lemma InsertThenDelete<T(!new)>(rows: seq<T>, p: T)
    requires p !in rows
    ensures Delete(Insert(rows, p).1, p) == (Deleted, rows)
  {
    assert (rows + [p])[..|rows|] == rows;
    RemoveAbsent(rows, p);
  }

  /** A second identical request is refused: adding twice is adding once. */
  lemma InsertTwice<T(!new)>(rows: seq<T>, p: T)
    ensures Insert(Insert(rows, p).1, p) == (Duplicate, Insert(rows, p).1)
  {
  }

  /** Deleting twice: the second request is not found and changes nothing. */
  lemma DeleteTwice<T(!new)>(rows: seq<T>, p: T)
    ensures Delete(Delete(rows, p).1, p) == (NotFound, Delete(rows, p).1)
  {
  }

  // ---- The constraints of a join table are kept by these operations ----

  lemma InsertPairKeepsValid(rows: seq<UserRecipe>, users: map<nat, User>, recipes: map<nat, Recipe>, p: UserRecipe)
    requires ValidUserRecipes(rows, users, recipes) && p.user in users && p.recipe in recipes
    ensures ValidUserRecipes(Insert(rows, p).1, users, recipes)
  {
  }

  lemma DeletePairKeepsValid(rows: seq<UserRecipe>, users: map<nat, User>, recipes: map<nat, Recipe>, p: UserRecipe)
    requires ValidUserRecipes(rows, users, recipes)
    ensures ValidUserRecipes(Delete(rows, p).1, users, recipes)
  {
  }

  lemma InsertSubscriptionKeepsValid(rows: seq<Subscription>, users: map<nat, User>, s: Subscription)
    requires ValidSubscriptions(rows, users) && s.subscriber in users && s.author in users
    ensures ValidSubscriptions(Insert(rows, s).1, users)
  {
  }

  lemma DeleteSubscriptionKeepsValid(rows: seq<Subscription>, users: map<nat, User>, s: Subscription)
    requires ValidSubscriptions(rows, users)
    ensures ValidSubscriptions(Delete(rows, s).1, users)
  {
  }

  // ---- The store ----

  class Store {
    /** The regex engine's table for `\w`, which decides what usernames the schema admits. */
    const isWord: char -> bool
    var users: map<nat, User>
    var tags: map<nat, Tag>
    var ingredients: map<nat, Ingredient>
    var recipes: map<nat, Recipe>
    var recipeIngredients: seq<RecipeIngredient>
    var groceryList: seq<UserRecipe>
    var favorites: seq<UserRecipe>
    var subscriptions: seq<Subscription>

    ghost predicate Valid()
      reads this
    {
      ValidDatabase(isWord, users, tags, ingredients, recipes, recipeIngredients, groceryList, favorites, subscriptions)
    }

    /** An empty database, under the word table `isWord`. */
    constructor (isWord: char -> bool)
      ensures Valid()
      ensures this.isWord == isWord
      ensures users == map[] && tags == map[] && ingredients == map[] && recipes == map[]
      ensures recipeIngredients == [] && groceryList == [] && favorites == [] && subscriptions == []
    {
      this.isWord := isWord;
      users, tags, ingredients, recipes := map[], map[], map[], map[];
      recipeIngredients, groceryList, favorites, subscriptions := [], [], [], [];
    }

    /** `POST /recipes/{id}/shopping_cart/` by the signed-in `user`. */
    method AddToShoppingCart(user: nat, recipe: nat) returns (outcome: Outcome)
      requires Valid() && user in users
      modifies this`groceryList
      ensures Valid()
      ensures recipe !in recipes ==> outcome == NotFound && groceryList == old(groceryList)
      ensures recipe in recipes ==> (outcome, groceryList) == Insert(old(groceryList), UserRecipe(user, recipe))
    {
      if recipe !in recipes {
        return NotFound;
      }
      var pair := UserRecipe(user, recipe);
      InsertPairKeepsValid(groceryList, users, recipes, pair);
      if pair in groceryList {
        return Duplicate;
      }
      groceryList := groceryList + [pair];
      outcome := Created;
    }

    /** `DELETE /recipes/{id}/shopping_cart/` by the signed-in `user`. */
    method RemoveFromShoppingCart(user: nat, recipe: nat) returns (outcome: Outcome)
      requires Valid() && user in users
      modifies this`groceryList
      ensures Valid()
      ensures recipe !in recipes ==> outcome == NotFound && groceryList == old(groceryList)
      ensures recipe in recipes ==> (outcome, groceryList) == Delete(old(groceryList), UserRecipe(user, recipe))
    {
      if recipe !in recipes {
        return NotFound;
      }
      var pair := UserRecipe(user, recipe);
      DeletePairKeepsValid(groceryList, users, recipes, pair);
      if pair !in groceryList {
        return NotFound;
      }
      groceryList := Remove(groceryList, pair);
      outcome := Deleted;
    }

    /** `POST /recipes/{id}/favorite/` by the signed-in `user`. */
    method AddFavorite(user: nat, recipe: nat) returns (outcome: Outcome)
      requires Valid() && user in users
      modifies this`favorites
      ensures Valid()
      ensures recipe !in recipes ==> outcome == NotFound && favorites == old(favorites)
      ensures recipe in recipes ==> (outcome, favorites) == Insert(old(favorites), UserRecipe(user, recipe))
    {
      if recipe !in recipes {
        return NotFound;
      }
      var pair := UserRecipe(user, recipe);
      InsertPairKeepsValid(favorites, users, recipes, pair);
      if pair in favorites {
        return Duplicate;
      }
      favorites := favorites + [pair];
      outcome := Created;
    }

    /** `DELETE /recipes/{id}/favorite/` by the signed-in `user`. */
    method RemoveFavorite(user: nat, recipe: nat) returns (outcome: Outcome)
      requires Valid() && user in users
      modifies this`favorites
      ensures Valid()
      ensures recipe !in recipes ==> outcome == NotFound && favorites == old(favorites)
      ensures recipe in recipes ==> (outcome, favorites) == Delete(old(favorites), UserRecipe(user, recipe))
    {
      if recipe !in recipes {
        return NotFound;
      }
      var pair := UserRecipe(user, recipe);
      DeletePairKeepsValid(favorites, users, recipes, pair);
      if pair !in favorites {
        return NotFound;
      }
      favorites := Remove(favorites, pair);
      outcome := Deleted;
    }

    /** `POST /users/{id}/subscribe/` by the signed-in `subscriber`. */
    method Subscribe(subscriber: nat, author: nat) returns (outcome: Outcome)
      requires Valid() && subscriber in users
      modifies this`subscriptions
      ensures Valid()
      ensures author !in users ==> outcome == NotFound && subscriptions == old(subscriptions)
      ensures author in users ==>
        (outcome, subscriptions) == Insert(old(subscriptions), Subscription(subscriber, author))
      ensures author in users ==> author in Subscriptions(subscriber)
    {
      if author !in users {
        return NotFound;
      }
      var s := Subscription(subscriber, author);
      InsertSubscriptionKeepsValid(subscriptions, users, s);
      if s in subscriptions {
        return Duplicate;
      }
      subscriptions := subscriptions + [s];
      outcome := Created;
    }

    /** `DELETE /users/{id}/subscribe/` by the signed-in `subscriber`. */
    method Unsubscribe(subscriber: nat, author: nat) returns (outcome: Outcome)
      requires Valid() && subscriber in users
      modifies this`subscriptions
      ensures Valid()
      ensures author !in users ==> outcome == NotFound && subscriptions == old(subscriptions)
      ensures author in users ==>
        (outcome, subscriptions) == Delete(old(subscriptions), Subscription(subscriber, author))
      ensures author !in Subscriptions(subscriber)
    {
      if author !in users {
        return NotFound;
      }
      var s := Subscription(subscriber, author);
      DeleteSubscriptionKeepsValid(subscriptions, users, s);
      if s !in subscriptions {
        return NotFound;
      }
      subscriptions := Remove(subscriptions, s);
      outcome := Deleted;
    }

    /** `GET /users/subscriptions/`: the users the requester is subscribed to,
        `User.objects.filter(author__subscriber=request.user)`. In a valid store
        the join with the users table adds no condition: the result is exactly
        the authors of the requester's subscription rows. */
    function Subscriptions(requester: nat): (authors: set<nat>)
      reads this
      ensures authors <= users.Keys
      ensures Valid() ==> forall a :: a in authors <==> Subscription(requester, a) in subscriptions
    {
      set a | a in users && Subscription(requester, a) in subscriptions
    }

    /** Deleting a recipe deletes its ingredient rows and the cart and favorite rows of it. */
    method DeleteRecipe(id: nat)
      requires Valid()
      modifies this`recipes, this`recipeIngredients, this`groceryList, this`favorites
      ensures Valid()
      ensures recipes == old(recipes) - {id}
      ensures recipeIngredients == RowsWithoutRecipes(old(recipeIngredients), {id})
      ensures groceryList == PairsWithout(old(groceryList), {}, {id})
      ensures favorites == PairsWithout(old(favorites), {}, {id})
    {
      DeleteRecipeKeepsValid(
        isWord, users, tags, ingredients, recipes, recipeIngredients, groceryList, favorites, subscriptions, id);
      recipes, recipeIngredients, groceryList, favorites :=
        recipes - {id}, RowsWithoutRecipes(recipeIngredients, {id}),
        PairsWithout(groceryList, {}, {id}), PairsWithout(favorites, {}, {id});
    }

    /** Deleting a user deletes the recipes they wrote, with everything those
        cascade to, and their cart, favorite and subscription rows on either side. */
    method DeleteUser(id: nat)
      requires Valid()
      modifies this`users, this`recipes, this`recipeIngredients, this`groceryList, this`favorites,
        this`subscriptions
      ensures Valid()
      ensures users == old(users) - {id}
      ensures recipes == old(recipes) - AuthoredBy(old(recipes), id)
      ensures recipeIngredients == RowsWithoutRecipes(old(recipeIngredients), AuthoredBy(old(recipes), id))
      ensures groceryList == PairsWithout(old(groceryList), {id}, AuthoredBy(old(recipes), id))
      ensures favorites == PairsWithout(old(favorites), {id}, AuthoredBy(old(recipes), id))
      ensures subscriptions == SubscriptionsWithout(old(subscriptions), id)
    {
      DeleteUserKeepsValid(
        isWord, users, tags, ingredients, recipes, recipeIngredients, groceryList, favorites, subscriptions, id);
      var gone := AuthoredBy(recipes, id);
      users, recipes, recipeIngredients, groceryList, favorites, subscriptions :=
        users - {id}, recipes - gone, RowsWithoutRecipes(recipeIngredients, gone),
        PairsWithout(groceryList, {id}, gone), PairsWithout(favorites, {id}, gone),
        SubscriptionsWithout(subscriptions, id);
    }

    /** Deleting an ingredient deletes the recipe rows that use it. */
    method DeleteIngredient(id: nat)
      requires Valid()
      modifies this`ingredients, this`recipeIngredients
      ensures Valid()
      ensures ingredients == old(ingredients) - {id}
      ensures recipeIngredients == RowsWithoutIngredient(old(recipeIngredients), id)
    {
      DeleteIngredientKeepsValid(
        isWord, users, tags, ingredients, recipes, recipeIngredients, groceryList, favorites, subscriptions, id);
      ingredients := ingredients - {id};
      recipeIngredients := RowsWithoutIngredient(recipeIngredients, id);
    }
  }
}

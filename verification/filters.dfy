/**
 * The query filters of the recipe listing (`RecipeFilter`). Each takes the
 * queryset so far, a sequence of recipes, and returns the recipes of it that
 * pass, in the same order. The filter set applies its filters in declaration
 * order: tags, author, is_favorited, is_in_shopping_cart.
 */
module Filters {
  import opened Wrappers
  import opened Seqs
  import opened Schema
  import opened Permissions

  /** `favorite__user=user` (or `in_grocery_list__user=user`) against the rows `pairs`. */
  function ListedBy(pairs: seq<UserRecipe>, user: nat): Recipe -> bool {
    (r: Recipe) => UserRecipe(user, r.id) in pairs
  }

  /** `filter_is_favorited` and `filter_is_in_shopping_cart`: when the flag is set and
      the requester is signed in, the recipes that requester has a row for in
      `pairs`; otherwise the queryset unchanged. */
  function FilterListed(queryset: seq<Recipe>, pairs: seq<UserRecipe>, requester: Requester, value: bool)
    : (r: seq<Recipe>)
    ensures !value || requester == Anonymous ==> r == queryset
    ensures value && requester != Anonymous ==>
      forall x :: x in r <==> x in queryset && UserRecipe(requester.id, x.id) in pairs
    ensures forall x :: x in r ==> x in queryset
  {
    if value && requester != Anonymous then Filter(queryset, ListedBy(pairs, requester.id))
    else queryset
  }

  function FilterIsFavorited(queryset: seq<Recipe>, favorites: seq<UserRecipe>, requester: Requester, value: bool)
    : seq<Recipe>
  {
    FilterListed(queryset, favorites, requester, value)
  }

  function FilterIsInShoppingCart(
    queryset: seq<Recipe>, groceryList: seq<UserRecipe>, requester: Requester, value: bool)
    : seq<Recipe>
  {
    FilterListed(queryset, groceryList, requester, value)
  }

  /** Some tag of the recipe has one of the requested slugs. */
  function HasTagIn(tags: map<nat, Tag>, slugs: set<string>): Recipe -> bool {
    (r: Recipe) => exists t :: t in r.tags && t in tags && tags[t].slug in slugs
  }

  /** `tags = AllValuesMultipleFilter(field_name='tags__slug')`: no value given
      leaves the queryset alone; otherwise a recipe passes when any of its tags
      has any of the given slugs. */
  function FilterTags(queryset: seq<Recipe>, tags: map<nat, Tag>, slugs: set<string>): (r: seq<Recipe>)
    ensures slugs == {} ==> r == queryset
    ensures slugs != {} ==> forall x :: x in r <==>
      x in queryset && exists t :: t in x.tags && t in tags && tags[t].slug in slugs
  {
    if slugs == {} then queryset else Filter(queryset, HasTagIn(tags, slugs))
  }

  function ByAuthor(author: nat): Recipe -> bool {
    (r: Recipe) => r.author == author
  }

  /** `author = ModelChoiceFilter(...)`: no value leaves the queryset alone;
      otherwise exactly the recipes written by that user. */
  function FilterAuthor(queryset: seq<Recipe>, author: Option<nat>): (r: seq<Recipe>)
    ensures author == None ==> r == queryset
    ensures author != None ==> forall x :: x in r <==> x in queryset && x.author == author.value
  {
    if author == None then queryset else Filter(queryset, ByAuthor(author.value))
  }

  /** The query parameters of the recipe listing. */
  datatype Query = Query(tags: set<string>, author: Option<nat>, isFavorited: bool, isInShoppingCart: bool)

  /** Whether a recipe passes every filter of the query. */
  ghost predicate Passes(
    x: Recipe, q: Query, tags: map<nat, Tag>,
    favorites: seq<UserRecipe>, groceryList: seq<UserRecipe>, requester: Requester)
  {
    && (q.tags != {} ==> exists t :: t in x.tags && t in tags && tags[t].slug in q.tags)
    && (q.author != None ==> x.author == q.author.value)
    && (q.isFavorited && requester != Anonymous ==> UserRecipe(requester.id, x.id) in favorites)
    && (q.isInShoppingCart && requester != Anonymous ==> UserRecipe(requester.id, x.id) in groceryList)
  }

  /** The whole filter set, applied in declaration order. */
  function ApplyQuery(
    queryset: seq<Recipe>, q: Query, tags: map<nat, Tag>,
    favorites: seq<UserRecipe>, groceryList: seq<UserRecipe>, requester: Requester)
    : seq<Recipe>
  {
    var byTags := FilterTags(queryset, tags, q.tags);
    var byAuthor := FilterAuthor(byTags, q.author);
    var favored := FilterIsFavorited(byAuthor, favorites, requester, q.isFavorited);
    FilterIsInShoppingCart(favored, groceryList, requester, q.isInShoppingCart)
  }

  /** A recipe is listed exactly when it is in the queryset and passes every filter. */
  lemma ApplyQueryExact(
    queryset: seq<Recipe>, q: Query, tags: map<nat, Tag>,
    favorites: seq<UserRecipe>, groceryList: seq<UserRecipe>, requester: Requester)
    ensures forall x :: x in ApplyQuery(queryset, q, tags, favorites, groceryList, requester) <==>
      x in queryset && Passes(x, q, tags, favorites, groceryList, requester)
  {
  }

  /** Applying the same flag filter twice is applying it once. */
  lemma FilterListedIdempotent(queryset: seq<Recipe>, pairs: seq<UserRecipe>, requester: Requester, value: bool)
    ensures FilterListed(FilterListed(queryset, pairs, requester, value), pairs, requester, value)
            == FilterListed(queryset, pairs, requester, value)
  {
    if value && requester != Anonymous {
      FilterIdempotent(queryset, ListedBy(pairs, requester.id));
    }
  }

  lemma FilterTagsIdempotent(queryset: seq<Recipe>, tags: map<nat, Tag>, slugs: set<string>)
    ensures FilterTags(FilterTags(queryset, tags, slugs), tags, slugs) == FilterTags(queryset, tags, slugs)
  {
    if slugs != {} {
      FilterIdempotent(queryset, HasTagIn(tags, slugs));
    }
  }

  lemma FilterAuthorIdempotent(queryset: seq<Recipe>, author: Option<nat>)
    ensures FilterAuthor(FilterAuthor(queryset, author), author) == FilterAuthor(queryset, author)
  {
    if author != None {
      FilterIdempotent(queryset, ByAuthor(author.value));
    }
  }

  /** Running the whole query again on its own result changes nothing. */
  lemma {:induction false} ApplyQueryIdempotent(
    queryset: seq<Recipe>, q: Query, tags: map<nat, Tag>,
    favorites: seq<UserRecipe>, groceryList: seq<UserRecipe>, requester: Requester)
    ensures var once := ApplyQuery(queryset, q, tags, favorites, groceryList, requester);
      ApplyQuery(once, q, tags, favorites, groceryList, requester) == once
  {
    var once := ApplyQuery(queryset, q, tags, favorites, groceryList, requester);
    forall x | x in once ensures x in queryset && Passes(x, q, tags, favorites, groceryList, requester) {
      ApplyQueryExact(queryset, q, tags, favorites, groceryList, requester);
    }
    ApplyQueryKeepsPassing(once, q, tags, favorites, groceryList, requester);
  }

  /** A queryset whose every recipe passes comes through the filters unchanged. */
  lemma ApplyQueryKeepsPassing(
    queryset: seq<Recipe>, q: Query, tags: map<nat, Tag>,
    favorites: seq<UserRecipe>, groceryList: seq<UserRecipe>, requester: Requester)
    requires forall x :: x in queryset ==> Passes(x, q, tags, favorites, groceryList, requester)
    ensures ApplyQuery(queryset, q, tags, favorites, groceryList, requester) == queryset
  {
    if q.tags != {} {
      FilterKeepsAll(queryset, HasTagIn(tags, q.tags));
    }
    if q.author != None {
      FilterKeepsAll(queryset, ByAuthor(q.author.value));
    }
    if requester != Anonymous {
      if q.isFavorited {
        FilterKeepsAll(queryset, ListedBy(favorites, requester.id));
      }
      if q.isInShoppingCart {
        FilterKeepsAll(queryset, ListedBy(groceryList, requester.id));
      }
    }
  }

  /** The tag filter is a union over slugs: asking for more slugs never loses a recipe. */
  lemma FilterTagsMonotone(queryset: seq<Recipe>, tags: map<nat, Tag>, slugs: set<string>, more: set<string>)
    requires slugs != {} && slugs <= more
    ensures forall x :: x in FilterTags(queryset, tags, slugs) ==> x in FilterTags(queryset, tags, more)
  {
  }
}

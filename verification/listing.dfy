/**
 * The default orderings of the models: recipes are listed newest first
 * (`ordering = ['-pub_date']`) and ingredients by name (`ordering = ['name']`).
 * A listing is a permutation of the table's rows in that order. Rows with
 * equal keys may come in any order; the sorts below give one admissible order.
 */
module Listing {
  import opened Schema

  /** Recipes in order of publication date, newest first. */
  ghost predicate NewestFirst(rs: seq<Recipe>) {
    forall i, j :: 0 <= i < j < |rs| ==> rs[i].pubDate >= rs[j].pubDate
  }

  /** Lexicographic order on strings, character by character; a proper prefix
      comes first. */
  predicate NameLe(a: string, b: string) {
    a == [] || (b != [] && (a[0] < b[0] || (a[0] == b[0] && NameLe(a[1..], b[1..]))))
  }

  ghost predicate ByName(items: seq<Ingredient>) {
    forall i, j :: 0 <= i < j < |items| ==> NameLe(items[i].name, items[j].name)
  }

  lemma {:induction false} NameLeTotal(a: string, b: string)
    ensures NameLe(a, b) || NameLe(b, a)
  {
    if a != [] && b != [] && a[0] == b[0] {
      NameLeTotal(a[1..], b[1..]);
    }
  }

  lemma {:induction false} NameLeTransitive(a: string, b: string, c: string)
    requires NameLe(a, b) && NameLe(b, c)
    ensures NameLe(a, c)
  {
    if a != [] && b != [] && c != [] && a[0] == b[0] && b[0] == c[0] {
      NameLeTransitive(a[1..], b[1..], c[1..]);
    }
  }

  /** A listing stays newest first when a recipe no older than its head is put in front. */
  lemma ConsNewest(r: Recipe, rs: seq<Recipe>)
    requires NewestFirst(rs) && (rs == [] || r.pubDate >= rs[0].pubDate)
    ensures NewestFirst([r] + rs)
  {
  }

  /** Places `r` into a listing that is already newest first. */
  function InsertRecipe(r: Recipe, rs: seq<Recipe>): (out: seq<Recipe>)
    requires NewestFirst(rs)
    ensures NewestFirst(out)
    ensures multiset(out) == multiset(rs) + multiset{r}
    ensures out[0] == r || (rs != [] && out[0] == rs[0])
  {
    if rs == [] || r.pubDate >= rs[0].pubDate then
      ConsNewest(r, rs);
      [r] + rs
    else
      var rest := InsertRecipe(r, rs[1..]);
      assert rs == [rs[0]] + rs[1..];
      ConsNewest(rs[0], rest);
      [rs[0]] + rest
  }

  /** The recipe listing: every recipe of the input once, newest first. */
  function ListRecipes(rs: seq<Recipe>): (out: seq<Recipe>)
    ensures NewestFirst(out)
    ensures multiset(out) == multiset(rs)
  {
    if rs == [] then []
    else
      assert rs == [rs[0]] + rs[1..];
      InsertRecipe(rs[0], ListRecipes(rs[1..]))
  }

  /** A listing by name stays one when an element that sorts no later than its
      head is put in front. */
  lemma ConsByName(x: Ingredient, items: seq<Ingredient>)
    requires ByName(items) && (items == [] || NameLe(x.name, items[0].name))
    ensures ByName([x] + items)
  {
    forall k | 0 < k <= |items| ensures NameLe(x.name, ([x] + items)[k].name) {
      if k > 1 { NameLeTransitive(x.name, items[0].name, items[k - 1].name); }
    }
  }

  /** Places `i` into a listing that is already sorted by name. */
  function InsertIngredient(i: Ingredient, items: seq<Ingredient>): (out: seq<Ingredient>)
    requires ByName(items)
    ensures ByName(out)
    ensures multiset(out) == multiset(items) + multiset{i}
    ensures out[0] == i || (items != [] && out[0] == items[0])
  {
    if items == [] || NameLe(i.name, items[0].name) then
      ConsByName(i, items);
      [i] + items
    else
      NameLeTotal(i.name, items[0].name);
      var rest := InsertIngredient(i, items[1..]);
      assert items == [items[0]] + items[1..];
      ConsByName(items[0], rest);
      [items[0]] + rest
  }

  /** The ingredient listing: every ingredient of the input once, by name. */
  function ListIngredients(items: seq<Ingredient>): (out: seq<Ingredient>)
    ensures ByName(out)
    ensures multiset(out) == multiset(items)
  {
    if items == [] then []
    else
      assert items == [items[0]] + items[1..];
      InsertIngredient(items[0], ListIngredients(items[1..]))
  }
}

/**
 * The shopping-list download: a reduce-by-key over the ingredient rows of the
 * recipes in a user's grocery list, followed by a text rendering.
 *
 * The key is the ingredient NAME alone. The first row seen with a name opens
 * an entry carrying that row's unit and amount; every later row with the same
 * name adds its amount to that entry, whatever its unit. Entries come out in
 * the order their names were first seen (the insertion order of a dict), one
 * line `name (unit) - amount` each.
 *
 * `Aggregate` is the specification of the reduction; `DownloadShoppingCart`
 * is the nested loop with its in-place dict update, proved to compute it.
 */
module ShoppingList {
  import opened Wrappers
  import opened Seqs
  import opened Decimal
  import opened Schema

  /** A row read by the loop, and also an entry of the dict: a name, a unit, an amount. */
  datatype Item = Item(name: string, unit: string, amount: int)

  // ---- The reduction ----

  /** The position of the first item called `name`, or `|items|` when none is. */
  function IndexOfName(items: seq<Item>, name: string): (k: nat)
    ensures k <= |items|
    ensures k < |items| ==> items[k].name == name
  {
    if items == [] then 0
    else if items[0].name == name then 0
    else 1 + IndexOfName(items[1..], name)
  }

  /** No item before the one `IndexOfName` finds has the name; so when it
      finds none, no item has the name. */
  lemma {:induction false} IndexOfNameFirst(items: seq<Item>, name: string)
    ensures forall j :: 0 <= j < IndexOfName(items, name) ==> items[j].name != name
  {
    if items != [] && items[0].name != name {
      IndexOfNameFirst(items[1..], name);
      assert forall j :: 1 <= j < |items| ==> items[j] == items[1..][j - 1];
    }
  }

  /** `entry['amount'] += amount`. */
  function AddAmount(entry: Item, amount: int): (e: Item)
    ensures e.name == entry.name && e.unit == entry.unit
  {
    entry.(amount := entry.amount + amount)
  }

  /** The entries of the dict after the loop has read `rows`, in insertion
      order: each row adds to the entry with its name, or opens a new entry at
      the end. */
  function Aggregate(rows: seq<Item>): seq<Item> {
    if rows == [] then []
    else
      var list, x := Aggregate(rows[..|rows| - 1]), rows[|rows| - 1];
      var k := IndexOfName(list, x.name);
      if k < |list| then list[k := AddAmount(list[k], x.amount)] else list + [x]
  }

  /** The reduction of one more row whose name already has an entry adds to that entry. */
  lemma AggregateSnocFound(rows: seq<Item>, x: Item, k: nat)
    requires k == IndexOfName(Aggregate(rows), x.name) && k < |Aggregate(rows)|
    ensures Aggregate(rows + [x]) == Aggregate(rows)[k := AddAmount(Aggregate(rows)[k], x.amount)]
  {
    assert (rows + [x])[..|rows|] == rows;
  }

  /** The reduction of one more row with a new name opens an entry at the end. */
  lemma AggregateSnocNew(rows: seq<Item>, x: Item)
    requires IndexOfName(Aggregate(rows), x.name) == |Aggregate(rows)|
    ensures Aggregate(rows + [x]) == Aggregate(rows) + [x]
  {
    assert (rows + [x])[..|rows|] == rows;
  }

  // ---- What the reduction means ----

  /** The sum of the amounts of the rows called `name`. */
  function SumFor(rows: seq<Item>, name: string): int {
    if rows == [] then 0
    else SumFor(rows[..|rows| - 1], name) + (if rows[|rows| - 1].name == name then rows[|rows| - 1].amount else 0)
  }

  /** The sum of all amounts. */
  function Total(items: seq<Item>): int {
    if items == [] then 0 else Total(items[..|items| - 1]) + items[|items| - 1].amount
  }

  ghost predicate DistinctNames(list: seq<Item>) {
    forall i, j :: 0 <= i < j < |list| ==> list[i].name != list[j].name
  }

  ghost function NameSet(items: seq<Item>): set<string> {
    set i | 0 <= i < |items| :: items[i].name
  }

  /** Every row's name has an entry. */
  ghost predicate Covers(rows: seq<Item>, list: seq<Item>) {
    forall i :: 0 <= i < |rows| ==> IndexOfName(list, rows[i].name) < |list|
  }

  /** Every entry is named after some row, carries the unit of the first row
      with its name, and holds the sum of the amounts of the rows with its name. */
  ghost predicate EntriesCorrect(rows: seq<Item>, list: seq<Item>) {
    forall k :: 0 <= k < |list| ==>
      && IndexOfName(rows, list[k].name) < |rows|
      && list[k].unit == rows[IndexOfName(rows, list[k].name)].unit
      && list[k].amount == SumFor(rows, list[k].name)
  }

  /** Entries are in order of the first occurrence of their names. */
  ghost predicate FirstSeenOrdered(rows: seq<Item>, list: seq<Item>) {
    forall k, l :: 0 <= k < l < |list| ==>
      IndexOfName(rows, list[k].name) < IndexOfName(rows, list[l].name)
  }

  /** `list` is the by-name summary of `rows`: one entry per name that occurs,
      holding the unit of the name's first row and the sum of its amounts,
      entries in order of first occurrence. */
  ghost predicate Summarizes(rows: seq<Item>, list: seq<Item>) {
    && DistinctNames(list)
    && Covers(rows, list)
    && EntriesCorrect(rows, list)
    && FirstSeenOrdered(rows, list)
  }

  /** Where a name first occurs does not move when a row is appended. */
  lemma IndexOfNameAppend(items: seq<Item>, x: Item, name: string)
    ensures IndexOfName(items + [x], name) ==
      if IndexOfName(items, name) < |items| then IndexOfName(items, name)
      else if x.name == name then |items| else |items| + 1
  {
    var k := IndexOfName(items, name);
    IndexOfNameFirst(items, name);
    IndexOfNameFirst(items + [x], name);
    assert forall j :: 0 <= j < |items| ==> (items + [x])[j] == items[j];
    if k < |items| {
      assert (items + [x])[k].name == name;
    } else if x.name == name {
      assert (items + [x])[|items|].name == name;
    }
  }

  /** Where a name first occurs in `rows`, given where it first occurs in
      all rows but the last. */
  lemma IndexOfNameLast(rows: seq<Item>, name: string)
    requires rows != []
    ensures var init, x := rows[..|rows| - 1], rows[|rows| - 1];
      IndexOfName(rows, name) ==
        if IndexOfName(init, name) < |init| then IndexOfName(init, name)
        else if x.name == name then |init| else |rows|
  {
    var init, x := rows[..|rows| - 1], rows[|rows| - 1];
    IndexOfNameAppend(init, x, name);
    assert rows == init + [x];
  }

  lemma {:induction false} SumForAbsent(rows: seq<Item>, name: string)
    requires forall j :: 0 <= j < |rows| ==> rows[j].name != name
    ensures SumFor(rows, name) == 0
  {
    if rows != [] {
      var init := rows[..|rows| - 1];
      assert forall j :: 0 <= j < |init| ==> init[j] == rows[j];
      SumForAbsent(init, name);
    }
  }

  /** The last row does not move the first occurrence of an entry's name. */
  lemma EntriesStayPut(rows: seq<Item>, list: seq<Item>)
    requires rows != []
    requires forall k :: 0 <= k < |list| ==> IndexOfName(rows[..|rows| - 1], list[k].name) < |rows| - 1
    ensures forall m :: 0 <= m < |list| ==>
      IndexOfName(rows, list[m].name) == IndexOfName(rows[..|rows| - 1], list[m].name)
  {
    forall m | 0 <= m < |list|
      ensures IndexOfName(rows, list[m].name) == IndexOfName(rows[..|rows| - 1], list[m].name)
    {
      IndexOfNameLast(rows, list[m].name);
    }
  }

  /** Entries that keep their names keep their order of first occurrence. */
  lemma OrderedFound(rows: seq<Item>, list: seq<Item>, list': seq<Item>)
    requires rows != []
    requires EntriesCorrect(rows[..|rows| - 1], list) && FirstSeenOrdered(rows[..|rows| - 1], list)
    requires |list'| == |list| && forall m :: 0 <= m < |list| ==> list'[m].name == list[m].name
    ensures FirstSeenOrdered(rows, list')
  {
    EntriesStayPut(rows, list);
  }

  /** Changing an item but not its name does not move where a name is found. */
  lemma {:induction false} IndexOfNameUpdate(list: seq<Item>, k: nat, e: Item, name: string)
    requires k < |list| && e.name == list[k].name
    ensures IndexOfName(list[k := e], name) == IndexOfName(list, name)
  {
    if list[0].name != name {
      if k == 0 {
        assert list[k := e][1..] == list[1..];
      } else {
        assert list[k := e][1..] == list[1..][k - 1 := e];
        IndexOfNameUpdate(list[1..], k - 1, e, name);
      }
    }
  }

  lemma CoversFound(rows: seq<Item>, list: seq<Item>, k: nat)
    requires rows != [] && k < |list| && list[k].name == rows[|rows| - 1].name
    requires Covers(rows[..|rows| - 1], list)
    ensures Covers(rows, list[k := AddAmount(list[k], rows[|rows| - 1].amount)])
  {
    var init, x := rows[..|rows| - 1], rows[|rows| - 1];
    var e := AddAmount(list[k], x.amount);
    forall i | 0 <= i < |rows| ensures IndexOfName(list[k := e], rows[i].name) < |list| {
      IndexOfNameUpdate(list, k, e, rows[i].name);
      if i < |init| {
        assert init[i] == rows[i];
      } else {
        IndexOfNameFirst(list, x.name);
      }
    }
  }

  lemma EntriesFound(rows: seq<Item>, list: seq<Item>, k: nat)
    requires rows != []
    requires EntriesCorrect(rows[..|rows| - 1], list) && DistinctNames(list)
    requires k < |list| && list[k].name == rows[|rows| - 1].name
    ensures EntriesCorrect(rows, list[k := AddAmount(list[k], rows[|rows| - 1].amount)])
  {
    var init, x := rows[..|rows| - 1], rows[|rows| - 1];
    var list' := list[k := AddAmount(list[k], x.amount)];
    forall m | 0 <= m < |list'|
      ensures IndexOfName(rows, list'[m].name) < |rows|
      ensures list'[m].unit == rows[IndexOfName(rows, list'[m].name)].unit
      ensures list'[m].amount == SumFor(rows, list'[m].name)
    {
      var j := IndexOfName(init, list[m].name);
      IndexOfNameLast(rows, list[m].name);
      assert rows[j] == init[j];
      if m != k {
        assert list[m].name != list[k].name;
      }
    }
  }

  lemma SameNamesAfterUpdate(list: seq<Item>, k: nat, d: int)
    requires k < |list|
    ensures var list' := list[k := AddAmount(list[k], d)];
      |list'| == |list| && forall m :: 0 <= m < |list| ==> list'[m].name == list[m].name
  {
  }

  lemma DistinctAfterUpdate(list: seq<Item>, k: nat, d: int)
    requires k < |list| && DistinctNames(list)
    ensures DistinctNames(list[k := AddAmount(list[k], d)])
  {
    SameNamesAfterUpdate(list, k, d);
  }

  /** The step for a last row whose name already has an entry: the entry's amount grows. */
  lemma StepFound(rows: seq<Item>, list: seq<Item>, k: nat)
    requires rows != [] && Summarizes(rows[..|rows| - 1], list)
    requires k < |list| && list[k].name == rows[|rows| - 1].name
    ensures Summarizes(rows, list[k := AddAmount(list[k], rows[|rows| - 1].amount)])
  {
    var x := rows[|rows| - 1];
    var list' := list[k := AddAmount(list[k], x.amount)];
    SameNamesAfterUpdate(list, k, x.amount);
    OrderedFound(rows, list, list');
    CoversFound(rows, list, k);
    EntriesFound(rows, list, k);
    DistinctAfterUpdate(list, k, x.amount);
  }

  /** A row whose name has no entry does not occur in the rows read so far. */
  lemma NewNameUnseen(rows: seq<Item>, list: seq<Item>, x: Item)
    requires Covers(rows, list) && IndexOfName(list, x.name) == |list|
    ensures IndexOfName(rows, x.name) == |rows|
  {
    forall i | 0 <= i < |rows| ensures rows[i].name != x.name {
      assert IndexOfName(list, rows[i].name) < |list|;
    }
  }

  lemma CoversNew(rows: seq<Item>, list: seq<Item>)
    requires rows != [] && Covers(rows[..|rows| - 1], list)
    ensures Covers(rows, list + [rows[|rows| - 1]])
  {
    var init, x := rows[..|rows| - 1], rows[|rows| - 1];
    forall i | 0 <= i < |rows| ensures IndexOfName(list + [x], rows[i].name) < |list| + 1 {
      IndexOfNameAppend(list, x, rows[i].name);
      if i < |init| { assert rows[i] == init[i]; }
    }
  }

  lemma EntriesNew(rows: seq<Item>, list: seq<Item>)
    requires rows != [] && EntriesCorrect(rows[..|rows| - 1], list)
    requires IndexOfName(rows[..|rows| - 1], rows[|rows| - 1].name) == |rows| - 1
    ensures EntriesCorrect(rows, list + [rows[|rows| - 1]])
  {
    var init, x := rows[..|rows| - 1], rows[|rows| - 1];
    var list' := list + [x];
    IndexOfNameLast(rows, x.name);
    forall m | 0 <= m < |list'|
      ensures IndexOfName(rows, list'[m].name) < |rows|
      ensures list'[m].unit == rows[IndexOfName(rows, list'[m].name)].unit
      ensures list'[m].amount == SumFor(rows, list'[m].name)
    {
      if m < |list| {
        var j := IndexOfName(init, list[m].name);
        IndexOfNameLast(rows, list[m].name);
        assert rows[j] == init[j];
        assert list[m].name != x.name;
      } else {
        IndexOfNameFirst(init, x.name);
        SumForAbsent(init, x.name);
      }
    }
  }

  lemma OrderedNew(rows: seq<Item>, list: seq<Item>)
    requires rows != []
    requires EntriesCorrect(rows[..|rows| - 1], list) && FirstSeenOrdered(rows[..|rows| - 1], list)
    requires IndexOfName(rows[..|rows| - 1], rows[|rows| - 1].name) == |rows| - 1
    ensures FirstSeenOrdered(rows, list + [rows[|rows| - 1]])
  {
    var x := rows[|rows| - 1];
    EntriesStayPut(rows, list);
    IndexOfNameLast(rows, x.name);
    var list' := list + [x];
    forall k, l | 0 <= k < l < |list'|
      ensures IndexOfName(rows, list'[k].name) < IndexOfName(rows, list'[l].name)
    {
      if l == |list| {
        assert list'[k] == list[k];
      } else {
        assert list'[k] == list[k] && list'[l] == list[l];
      }
    }
  }

  /** The step for a last row whose name is new: a new entry at the end. */
  lemma StepNew(rows: seq<Item>, list: seq<Item>)
    requires rows != [] && Summarizes(rows[..|rows| - 1], list)
    requires IndexOfName(list, rows[|rows| - 1].name) == |list|
    ensures Summarizes(rows, list + [rows[|rows| - 1]])
  {
    var x := rows[|rows| - 1];
    NewNameUnseen(rows[..|rows| - 1], list, x);
    assert DistinctNames(list + [x]) by {
      forall k | 0 <= k < |list| ensures list[k].name != x.name { }
    }
    CoversNew(rows, list);
    EntriesNew(rows, list);
    OrderedNew(rows, list);
  }

  /** The reduction computes the by-name summary of its rows. */
  lemma {:induction false} AggregateSummarizes(rows: seq<Item>)
    ensures Summarizes(rows, Aggregate(rows))
  {
    if rows != [] {
      var init, x := rows[..|rows| - 1], rows[|rows| - 1];
      AggregateSummarizes(init);
      var list, k := Aggregate(init), IndexOfName(Aggregate(init), x.name);
      if k < |list| {
        StepFound(rows, list, k);
      } else {
        StepNew(rows, list);
      }
    }
  }

  /** Exactly one entry per distinct name of the rows. */
  lemma OneEntryPerName(rows: seq<Item>)
    ensures DistinctNames(Aggregate(rows))
    ensures NameSet(Aggregate(rows)) == NameSet(rows)
  {
    AggregateSummarizes(rows);
    var list := Aggregate(rows);
    forall n | n in NameSet(list) ensures n in NameSet(rows) {
      var k :| 0 <= k < |list| && list[k].name == n;
      var i := IndexOfName(rows, n);
      assert rows[i].name == n;
    }
    forall n | n in NameSet(rows) ensures n in NameSet(list) {
      var i :| 0 <= i < |rows| && rows[i].name == n;
      var k := IndexOfName(list, n);
      assert list[k].name == n;
    }
  }

  /** The entry for a name holds the sum of the amounts of every row with that
      name, and the unit of the first such row: aggregation is by name only. */
  lemma EntryIsSumWithFirstUnit(rows: seq<Item>, name: string)
    requires IndexOfName(rows, name) < |rows|
    ensures IndexOfName(Aggregate(rows), name) < |Aggregate(rows)|
    ensures Aggregate(rows)[IndexOfName(Aggregate(rows), name)] ==
            Item(name, rows[IndexOfName(rows, name)].unit, SumFor(rows, name))
  {
    AggregateSummarizes(rows);
  }

  /** Entries are in order of the first occurrence of their names. */
  lemma FirstSeenOrder(rows: seq<Item>, k: nat, l: nat)
    requires k < l < |Aggregate(rows)|
    ensures IndexOfName(rows, Aggregate(rows)[k].name) < IndexOfName(rows, Aggregate(rows)[l].name)
  {
    AggregateSummarizes(rows);
  }

  lemma {:induction false} TotalUpdate(s: seq<Item>, k: nat, e: Item)
    requires k < |s|
    ensures Total(s[k := e]) == Total(s) - s[k].amount + e.amount
  {
    var init := s[..|s| - 1];
    if k == |s| - 1 {
      assert s[k := e][..|s| - 1] == init;
    } else {
      TotalUpdate(init, k, e);
      assert s[k := e][..|s| - 1] == init[k := e];
    }
  }

  /** Conservation: the entries' amounts add up to the rows' amounts. */
  lemma {:induction false} AggregateConserves(rows: seq<Item>)
    ensures Total(Aggregate(rows)) == Total(rows)
  {
    if rows != [] {
      var init, x := rows[..|rows| - 1], rows[|rows| - 1];
      AggregateConserves(init);
      var list := Aggregate(init);
      var k := IndexOfName(list, x.name);
      if k < |list| {
        TotalUpdate(list, k, AddAmount(list[k], x.amount));
        assert Total(Aggregate(rows)) == Total(list) + x.amount;
      } else {
        assert (list + [x])[..|list|] == list;
        assert Total(Aggregate(rows)) == Total(list) + x.amount;
      }
    }
  }

  /** Rows of at least 1 give entries of at least 1. */
  lemma {:induction false} AggregatePositive(rows: seq<Item>)
    requires forall i :: 0 <= i < |rows| ==> rows[i].amount >= 1
    ensures forall k :: 0 <= k < |Aggregate(rows)| ==> Aggregate(rows)[k].amount >= 1
  {
    if rows != [] {
      AggregatePositive(rows[..|rows| - 1]);
    }
  }

  // ---- Rendering ----

  /** One line of the downloaded file. */
  function Line(item: Item): string {
    item.name + " (" + item.unit + ") - " + IntToDecimal(item.amount) + "\n"
  }

  /** A line starts with the name, ends with a newline, and the text between
      `") - "` and the newline reads back as the amount. */
  lemma LineReadsBack(item: Item)
    ensures var line, p := Line(item), |item.name| + |item.unit| + 6;
      && |line| == p + |IntToDecimal(item.amount)| + 1
      && line[..|item.name|] == item.name
      && line[|item.name|..|item.name| + 2] == " ("
      && line[|item.name| + 2..|item.name| + 2 + |item.unit|] == item.unit
      && line[|item.name| + 2 + |item.unit|..p] == ") - "
      && line[|line| - 1] == '\n'
      && ParseInt(line[p..|line| - 1]) == Some(item.amount)
  {
    IntToDecimalRoundTrip(item.amount);
    var line, p := Line(item), |item.name| + |item.unit| + 6;
    var head := item.name + " (" + item.unit + ") - ";
    assert |head| == p;
    assert line == head + IntToDecimal(item.amount) + "\n";
    assert line[p..|line| - 1] == IntToDecimal(item.amount);
  }

  /** The file's lines, one per entry, in entry order. */
  function Render(list: seq<Item>): seq<string>
  {
    seq(|list|, k requires 0 <= k < |list| => Line(list[k]))
  }

  /** For every ingredient name that occurs in the rows, the file has a line
      for it, holding the unit of the name's first row and the sum of the
      name's amounts. */
  lemma LineOfName(rows: seq<Item>, name: string)
    requires IndexOfName(rows, name) < |rows|
    ensures var k := IndexOfName(Aggregate(rows), name);
      k < |Render(Aggregate(rows))| &&
      Render(Aggregate(rows))[k] == Line(Item(name, rows[IndexOfName(rows, name)].unit, SumFor(rows, name)))
  {
    EntryIsSumWithFirstUnit(rows, name);
  }

  /** Every line of the file is the line of an ingredient name that occurs in
      the rows, with that name's first unit and summed amount: there is no other line. */
  lemma NameOfLine(rows: seq<Item>, k: nat)
    requires k < |Render(Aggregate(rows))|
    ensures var name := Aggregate(rows)[k].name;
      IndexOfName(rows, name) < |rows| &&
      Render(Aggregate(rows))[k] == Line(Item(name, rows[IndexOfName(rows, name)].unit, SumFor(rows, name)))
  {
    AggregateSummarizes(rows);
    var name := Aggregate(rows)[k].name;
    assert Aggregate(rows)[k] == Item(name, rows[IndexOfName(rows, name)].unit, SumFor(rows, name));
  }

  // ---- Reading the tables ----

  /** The condition `user=user` on grocery rows. */
  function OwnedBy(user: nat): UserRecipe -> bool {
    (p: UserRecipe) => p.user == user
  }

  /** `GroceryList.objects.filter(user=user)`. */
  function UserPurchases(groceryList: seq<UserRecipe>, user: nat): (r: seq<UserRecipe>)
    ensures forall p :: p in r <==> p in groceryList && p.user == user
  {
    Filter(groceryList, OwnedBy(user))
  }

  /** `RecipeIngredients.objects.filter(recipe=recipe)`. */
  function RecipeRows(recipeIngredients: seq<RecipeIngredient>, recipe: nat): (r: seq<RecipeIngredient>)
    ensures forall ri :: ri in r <==> ri in recipeIngredients && ri.recipe == recipe
  {
    Filter(recipeIngredients, (ri: RecipeIngredient) => ri.recipe == recipe)
  }

  /** Every row names an ingredient that exists. */
  ghost predicate Resolves(rows: seq<RecipeIngredient>, ingredients: map<nat, Ingredient>) {
    forall ri :: ri in rows ==> ri.ingredient in ingredients
  }

  function ItemOf(ri: RecipeIngredient, ingredients: map<nat, Ingredient>): Item
    requires ri.ingredient in ingredients
  {
    Item(ingredients[ri.ingredient].name, ingredients[ri.ingredient].measurementUnit, ri.amount)
  }

  /** The items the inner loop reads from some recipe rows, in order. */
  function ItemsOf(rows: seq<RecipeIngredient>, ingredients: map<nat, Ingredient>): seq<Item>
    requires Resolves(rows, ingredients)
  {
    if rows == [] then []
    else
      var init := rows[..|rows| - 1];
      assert forall ri :: ri in init ==> ri in rows;
      ItemsOf(init, ingredients) + [ItemOf(rows[|rows| - 1], ingredients)]
  }

  /** The items both loops read for some purchases, in order. */
  function CartItems(
    purchases: seq<UserRecipe>, recipeIngredients: seq<RecipeIngredient>, ingredients: map<nat, Ingredient>)
    : seq<Item>
    requires Resolves(recipeIngredients, ingredients)
  {
    if purchases == [] then []
    else
      CartItems(purchases[..|purchases| - 1], recipeIngredients, ingredients)
      + ItemsOf(RecipeRows(recipeIngredients, purchases[|purchases| - 1].recipe), ingredients)
  }

  /** The lines of the file downloaded by `user`. */
  function ShoppingCart(
    groceryList: seq<UserRecipe>, recipeIngredients: seq<RecipeIngredient>,
    ingredients: map<nat, Ingredient>, user: nat): seq<string>
    requires Resolves(recipeIngredients, ingredients)
  {
    Render(Aggregate(CartItems(UserPurchases(groceryList, user), recipeIngredients, ingredients)))
  }

  /** A grocery row of another user is not among the user's purchases. */
  lemma PurchasesSkipOther(before: seq<UserRecipe>, other: UserRecipe, after: seq<UserRecipe>, user: nat)
    requires other.user != user
    ensures UserPurchases(before + [other] + after, user) == UserPurchases(before + after, user)
  {
    var keep := OwnedBy(user);
    assert !keep(other);
    FilterDropsAll([other], keep);
    FilterAppend(before, [other], keep);
    assert Filter(before + [other], keep) == Filter(before, keep);
    FilterAppend(before + [other], after, keep);
    FilterAppend(before, after, keep);
  }

  /** Only the requesting user's grocery rows count: a row of another user,
      wherever it stands, changes nothing. */
  lemma OtherUsersIgnored(
    before: seq<UserRecipe>, other: UserRecipe, after: seq<UserRecipe>,
    recipeIngredients: seq<RecipeIngredient>, ingredients: map<nat, Ingredient>, user: nat)
    requires Resolves(recipeIngredients, ingredients) && other.user != user
    ensures ShoppingCart(before + [other] + after, recipeIngredients, ingredients, user) ==
            ShoppingCart(before + after, recipeIngredients, ingredients, user)
  {
    PurchasesSkipOther(before, other, after, user);
  }

  /** A user with no grocery rows downloads an empty file, not an error. */
  lemma EmptyCartEmptyFile(
    groceryList: seq<UserRecipe>, recipeIngredients: seq<RecipeIngredient>,
    ingredients: map<nat, Ingredient>, user: nat)
    requires Resolves(recipeIngredients, ingredients)
    requires forall p :: p in groceryList ==> p.user != user
    ensures ShoppingCart(groceryList, recipeIngredients, ingredients, user) == []
  {
    FilterDropsAll(groceryList, OwnedBy(user));
  }

  /** The example of two recipes sharing sugar: 100 g and 250 g give one line of 350 g. */
  lemma SugarExample()
    ensures Aggregate([Item("Sugar", "g", 100), Item("flour", "g", 500), Item("Sugar", "g", 250)])
            == [Item("Sugar", "g", 350), Item("flour", "g", 500)]
  {
    var sugar, flour, more := Item("Sugar", "g", 100), Item("flour", "g", 500), Item("Sugar", "g", 250);
    var rows := [sugar, flour, more];
    assert rows[..2][..1] == [sugar];
    assert Aggregate([sugar]) == [sugar];
    assert IndexOfName([sugar], "flour") == 1;
    assert rows[..2] == [sugar, flour];
    assert Aggregate([sugar, flour]) == [sugar, flour];
    assert IndexOfName([sugar, flour], "Sugar") == 0;
  }

  /** Aggregation by name only: a later row with another unit is added to the
      first entry, which keeps the first unit. */
  lemma SameNameOtherUnitExample()
    ensures Aggregate([Item("Salt", "g", 5), Item("Salt", "tsp", 1)]) == [Item("Salt", "g", 6)]
  {
    var rows := [Item("Salt", "g", 5), Item("Salt", "tsp", 1)];
    assert rows[..1] == [Item("Salt", "g", 5)];
  }

  // ---- The view's loop ----

  /** The dict `shopping_list` (keys in insertion order `names`) holds exactly the entries `list`. */
  ghost predicate Mirrors(names: seq<string>, shoppingList: map<string, Item>, list: seq<Item>) {
    && |names| == |list|
    && (forall k :: 0 <= k < |list| ==>
          names[k] == list[k].name && names[k] in shoppingList && shoppingList[names[k]] == list[k])
    && (forall name :: name in shoppingList ==> IndexOfName(list, name) < |list|)
  }

  /** The download: for each of the user's grocery rows, for each ingredient
      row of its recipe, open or update the entry of the ingredient's name;
      then render one line per entry. */
  method DownloadShoppingCart(
    groceryList: seq<UserRecipe>, recipeIngredients: seq<RecipeIngredient>,
    ingredients: map<nat, Ingredient>, user: nat)
    returns (content: seq<string>)
    requires Resolves(recipeIngredients, ingredients)
    ensures content == ShoppingCart(groceryList, recipeIngredients, ingredients, user)
  {
    var purchases := UserPurchases(groceryList, user);
    var names: seq<string> := [];
    var shoppingList: map<string, Item> := map[];
    for i := 0 to |purchases|
      invariant Mirrors(names, shoppingList, Aggregate(CartItems(purchases[..i], recipeIngredients, ingredients)))
    {
      var rows := RecipeRows(recipeIngredients, purchases[i].recipe);
      names, shoppingList := AddRecipeRows(
        rows, ingredients, names, shoppingList, CartItems(purchases[..i], recipeIngredients, ingredients));
      CartItemsSnoc(purchases, i, recipeIngredients, ingredients);
    }
    assert purchases[..|purchases|] == purchases;
    MirrorsRender(names, shoppingList, Aggregate(CartItems(purchases, recipeIngredients, ingredients)));
    content := seq(|names|, k requires 0 <= k < |names| && names[k] in shoppingList => Line(shoppingList[names[k]]));
  }

  /** The inner loop of the download: reads the ingredient rows of one recipe
      into the dict `shoppingList`, whose keys in insertion order are `names`
      and which holds the reduction of the items `seen` read before. */
  method AddRecipeRows(
    rows: seq<RecipeIngredient>, ingredients: map<nat, Ingredient>,
    names: seq<string>, shoppingList: map<string, Item>, ghost seen: seq<Item>)
    returns (names': seq<string>, shoppingList': map<string, Item>)
    requires Resolves(rows, ingredients)
    requires Mirrors(names, shoppingList, Aggregate(seen))
    ensures Mirrors(names', shoppingList', Aggregate(seen + ItemsOf(rows, ingredients)))
  {
    names', shoppingList' := names, shoppingList;
    assert rows[..0] == [];
    assert seen + ItemsOf([], ingredients) == seen;
    for j := 0 to |rows|
      invariant Resolves(rows[..j], ingredients)
      invariant Mirrors(names', shoppingList', Aggregate(seen + ItemsOf(rows[..j], ingredients)))
    {
      var ing := rows[j];
      assert ing in rows;
      var name := ingredients[ing.ingredient].name;
      var measuringUnit := ingredients[ing.ingredient].measurementUnit;
      var amount := ing.amount;
      ghost var read := seen + ItemsOf(rows[..j], ingredients);
      ghost var row := Item(name, measuringUnit, amount);
      if name !in shoppingList' {
        StepNewMirrored(names', shoppingList', read, name, measuringUnit, amount);
        shoppingList' := shoppingList'[name := Item(name, measuringUnit, amount)];
        names' := names' + [name];
      } else {
        var entry := shoppingList'[name];
        StepFoundMirrored(names', shoppingList', read, name, measuringUnit, amount, entry);
        shoppingList' := shoppingList'[name := AddAmount(entry, amount)];
      }
      ItemsOfSnoc(rows, j, ingredients);
      assert ItemOf(rows[j], ingredients) == row;
      SnocAssociates(seen, ItemsOf(rows[..j], ingredients), row);
      assert read + [row] == seen + ItemsOf(rows[..j + 1], ingredients);
    }
    assert rows[..|rows|] == rows;
  }

  lemma SnocAssociates(a: seq<Item>, b: seq<Item>, x: Item)
    ensures (a + b) + [x] == a + (b + [x])
  {
  }

  /** The inner loop reads one more row. */
  lemma ItemsOfSnoc(rows: seq<RecipeIngredient>, j: nat, ingredients: map<nat, Ingredient>)
    requires j < |rows| && Resolves(rows, ingredients)
    ensures Resolves(rows[..j], ingredients) && Resolves(rows[..j + 1], ingredients)
    ensures ItemsOf(rows[..j + 1], ingredients) == ItemsOf(rows[..j], ingredients) + [ItemOf(rows[j], ingredients)]
  {
    assert forall ri :: ri in rows[..j + 1] ==> ri in rows;
    assert rows[..j + 1][..j] == rows[..j];
  }

  /** The outer loop reads one more grocery row. */
  lemma CartItemsSnoc(
    purchases: seq<UserRecipe>, i: nat, recipeIngredients: seq<RecipeIngredient>, ingredients: map<nat, Ingredient>)
    requires i < |purchases| && Resolves(recipeIngredients, ingredients)
    ensures CartItems(purchases[..i + 1], recipeIngredients, ingredients) ==
            CartItems(purchases[..i], recipeIngredients, ingredients)
            + ItemsOf(RecipeRows(recipeIngredients, purchases[i].recipe), ingredients)
  {
    assert purchases[..i + 1][..i] == purchases[..i];
  }

  /** A turn of the inner loop that opens an entry keeps the dict equal to
      the reduction of the rows read. */
  lemma StepNewMirrored(
    names: seq<string>, shoppingList: map<string, Item>, seen: seq<Item>,
    name: string, unit: string, amount: int)
    requires Mirrors(names, shoppingList, Aggregate(seen)) && name !in shoppingList
    ensures Mirrors(names + [name], shoppingList[name := Item(name, unit, amount)],
                    Aggregate(seen + [Item(name, unit, amount)]))
  {
    var row := Item(name, unit, amount);
    var list := Aggregate(seen);
    assert IndexOfName(list, name) == |list| by {
      forall k | 0 <= k < |list| ensures list[k].name != name {
        assert names[k] in shoppingList;
      }
    }
    AggregateSnocNew(seen, row);
    MirrorsNew(names, shoppingList, list, row);
  }

  /** A turn of the inner loop that adds to an entry keeps the dict equal to
      the reduction of the rows read. */
  lemma StepFoundMirrored(
    names: seq<string>, shoppingList: map<string, Item>, seen: seq<Item>,
    name: string, unit: string, amount: int, entry: Item)
    requires Mirrors(names, shoppingList, Aggregate(seen))
    requires name in shoppingList && entry == shoppingList[name]
    ensures Mirrors(names, shoppingList[name := AddAmount(entry, amount)],
                    Aggregate(seen + [Item(name, unit, amount)]))
  {
    var row := Item(name, unit, amount);
    var list := Aggregate(seen);
    AggregateSummarizes(seen);
    var k := IndexOfName(list, name);
    AggregateSnocFound(seen, row, k);
    MirrorsFound(names, shoppingList, list, k, amount);
  }

  /** Opening an entry at the end of the list and of the dict. */
  lemma MirrorsNew(names: seq<string>, shoppingList: map<string, Item>, list: seq<Item>, row: Item)
    requires Mirrors(names, shoppingList, list) && row.name !in shoppingList
    ensures Mirrors(names + [row.name], shoppingList[row.name := row], list + [row])
  {
    forall name | name in shoppingList[row.name := row]
      ensures IndexOfName(list + [row], name) < |list + [row]|
    {
      IndexOfNameAppend(list, row, name);
    }
  }

  /** Adding to the entry at position `k` of the list and under its name in the dict. */
  lemma MirrorsFound(names: seq<string>, shoppingList: map<string, Item>, list: seq<Item>, k: nat, amount: int)
    requires Mirrors(names, shoppingList, list) && DistinctNames(list) && k < |list|
    ensures var entry := shoppingList[list[k].name];
      Mirrors(
        names,
        shoppingList[list[k].name := AddAmount(entry, amount)],
        list[k := AddAmount(list[k], amount)])
  {
    var list' := list[k := AddAmount(list[k], amount)];
    SameNamesAfterUpdate(list, k, amount);
    forall m | 0 <= m < |list| && m != k ensures names[m] != list[k].name {
      assert list[m].name != list[k].name;
    }
    forall name | name in shoppingList
      ensures IndexOfName(list', name) < |list'|
    {
      IndexOfNameUpdate(list, k, AddAmount(list[k], amount), name);
    }
  }

  /** Writing one line per key of the dict, in insertion order, renders the entries it mirrors. */
  lemma MirrorsRender(names: seq<string>, shoppingList: map<string, Item>, list: seq<Item>)
    requires Mirrors(names, shoppingList, list)
    ensures seq(|names|, k requires 0 <= k < |names| && names[k] in shoppingList => Line(shoppingList[names[k]]))
            == Render(list)
  {
  }
}

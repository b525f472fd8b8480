/** `BatchRecipeGenerationService`: lists of recipe requests built from a
    menu theme, a cuisine theme or a custom list, and the sequential batch
    that generates them one by one, tags each result with its batch and
    position, and pauses between generations. */
module BatchGeneration {
  import opened Wrappers
  import opened JavaText
  import opened TextLaws

  /** `RecipeRequest`: the dish to generate and the user it is for. */
  datatype RecipeRequest = RecipeRequest(dishName: string, userName: string)

  /** `BatchGenerationRequest`. */
  datatype BatchRequest = BatchRequest(
    requests: seq<RecipeRequest>,
    batchType: string,
    batchId: int,
    delaySeconds: int)

  /** A batch tag: key, value and description. */
  datatype Tag = Tag(key: string, value: string, description: string)

  /** A generated recipe with the batch tags attached to it. */
  datatype TaggedRecipe<R> = TaggedRecipe(recipe: R, tags: seq<Tag>)

  const DefaultDelaySeconds := 20
  const MenuDelaySeconds := 30
  const ThemeDelaySeconds := 25
  const CustomDelaySeconds := 20
  const BatchFailedMessage := "Batch generation failed"

  /** The three tags of the recipe at position `i` (counted from 0). */
  function BatchTags(b: BatchRequest, i: nat): (tags: seq<Tag>)
    ensures |tags| == 3
    ensures tags[0] == Tag("tag1", b.batchType, "Type de batch")
    ensures tags[1].key == "tag2" && tags[1].value == "batch-" + IntToString(b.batchId)
    ensures tags[2].key == "tag3" && tags[2].value == NatToString(i + 1)
  {
    [ Tag("tag1", b.batchType, "Type de batch"),
      Tag("tag2", "batch-" + IntToString(b.batchId), "ID du batch"),
      Tag("tag3", NatToString(i + 1), "Position dans le batch") ]
  }

  /** Position `i` of the batch goes through: its generation succeeds, and
      the pause after it, if there is one, does not throw (`Thread.sleep`
      rejects a negative duration). */
  predicate Survives<R>(b: BatchRequest, outcome: nat -> Result<R>, i: nat) {
    outcome(i).Ok? && (i + 1 >= |b.requests| || b.delaySeconds >= 0)
  }

  /** `generateRecipeBatch`: generates the requests in order, `outcome(i)`
      being what generating the `i`-th one gives; tags each result with the
      batch type, the batch id and its 1-based position; pauses between two
      generations but not after the last. The first failure ends the batch
      with "Batch generation failed" and no partial list. `calls` counts the
      generations started and `pauses` the pauses taken. */
  method GenerateRecipeBatch<R>(b: BatchRequest, outcome: nat -> Result<R>)
    returns (r: Result<seq<TaggedRecipe<R>>>, calls: nat, pauses: nat)
    ensures r.Ok? <==> forall i :: 0 <= i < |b.requests| ==> Survives(b, outcome, i)
    ensures r.Ok? ==> |r.value| == |b.requests| && calls == |b.requests|
    ensures r.Ok? ==> forall i :: 0 <= i < |r.value| ==>
              outcome(i).Ok? && r.value[i] == TaggedRecipe(outcome(i).value, BatchTags(b, i))
    ensures r.Ok? ==> pauses == if |b.requests| == 0 then 0 else |b.requests| - 1
    ensures r.Err? ==> r.error == Thrown(Runtime, Some(BatchFailedMessage))
    ensures r.Err? ==> 0 < calls <= |b.requests| && pauses == calls - 1
                       && !Survives(b, outcome, calls - 1)
                       && forall i :: 0 <= i < calls - 1 ==> Survives(b, outcome, i)
  {
    var done: seq<TaggedRecipe<R>> := [];
    calls, pauses := 0, 0;
    var n := |b.requests|;
    while calls < n
      invariant calls <= n && |done| == calls
      invariant pauses == calls && (calls < n || n == 0)
      invariant forall i :: 0 <= i < calls ==> Survives(b, outcome, i)
      invariant forall i :: 0 <= i < calls ==>
                  outcome(i).Ok? && done[i] == TaggedRecipe(outcome(i).value, BatchTags(b, i))
    {
      var i := calls;
      calls := calls + 1;
      match outcome(i)
      case Err(_) =>
        assert !Survives(b, outcome, i);
        return Err(Thrown(Runtime, Some(BatchFailedMessage))), calls, pauses;
      case Ok(recipe) =>
        done := done + [TaggedRecipe(recipe, BatchTags(b, i))];
        if i < n - 1 {
          if b.delaySeconds < 0 {
            assert !Survives(b, outcome, i);
            return Err(Thrown(Runtime, Some(BatchFailedMessage))), calls, pauses;
          }
          pauses := pauses + 1;
        } else {
          return Ok(done), calls, pauses;
        }
    }
    return Ok(done), calls, pauses;
  }

  /* ---------------------------------------------------------- batch types */

  /** `theme.toLowerCase().replace(" ", "-")` after a prefix. */
  function Slug(prefix: string, theme: string): (r: string)
    ensures var lowered := ToLowerCase(theme);
      && |r| == |prefix| + |lowered| && r[..|prefix|] == prefix
      && forall k :: 0 <= k < |lowered| ==> r[|prefix| + k] == if lowered[k] == ' ' then '-' else lowered[k]
  {
    var lowered := ToLowerCase(theme);
    ReplaceChar(lowered, ' ', '-');
    prefix + Replace(lowered, " ", "-")
  }

  /** A theme without a dotted capital I keeps its length in the slug, each
      character lower-cased and each space turned into '-'. */
  lemma SlugOfTheme(prefix: string, theme: string)
    requires NoDottedI(theme)
    ensures var r := Slug(prefix, theme);
      && |r| == |prefix| + |theme|
      && forall k :: 0 <= k < |theme| ==>
           r[|prefix| + k] == if ToLowerChar(theme[k]) == ' ' then '-' else ToLowerChar(theme[k])
  {
  }

  /** A theme spelled with a capital ligature gives a lower-case slug. */
  lemma SlugExample()
    ensures Slug("menu-", "\U{0152}ufs") == "menu-\U{0153}ufs"
  {
    LowerCaseOeufs();
    var r := Slug("menu-", "\U{0152}ufs");
    assert r[5] == '\U{0153}' && r[6] == 'u' && r[7] == 'f' && r[8] == 's';
  }

  /** A theme's slug holds no space, whatever the theme. */
  lemma SlugHasNoSpace(prefix: string, theme: string)
    requires forall k :: 0 <= k < |prefix| ==> prefix[k] != ' '
    ensures forall k :: 0 <= k < |Slug(prefix, theme)| ==> Slug(prefix, theme)[k] != ' '
  {
    var r := Slug(prefix, theme);
    forall k | 0 <= k < |r|
      ensures r[k] != ' '
    {
      if k < |prefix| {
        assert r[k] == r[..|prefix|][k];
      } else {
        var j := k - |prefix|;
        var c := ToLowerCase(theme)[j];
        assert r[|prefix| + j] == if c == ' ' then '-' else c;
      }
    }
  }

  /** `generateCompleteMenu`: a starter, a main course and a dessert of the
      theme, in that order, for the same user, 30 seconds apart. */
  function CompleteMenuBatch(userName: string, theme: string, batchId: int): (b: BatchRequest)
    ensures |b.requests| == 3 && forall i :: 0 <= i < 3 ==> b.requests[i].userName == userName
    ensures b.requests[0].dishName == "Entrée " + theme
    ensures b.requests[1].dishName == "Plat principal " + theme
    ensures b.requests[2].dishName == "Dessert " + theme
    ensures b.batchType == Slug("menu-", theme) && b.batchId == batchId && b.delaySeconds == MenuDelaySeconds
  {
    BatchRequest(
      [RecipeRequest("Entrée " + theme, userName),
       RecipeRequest("Plat principal " + theme, userName),
       RecipeRequest("Dessert " + theme, userName)],
      Slug("menu-", theme), batchId, MenuDelaySeconds)
  }

  /** The dishes `getThemeDishes` knows for a theme, compared lower-cased:
      four fixed ones for the three known cuisines, three named after the
      theme for any other. */
  function ThemeDishList(theme: string): (r: seq<string>)
    ensures IsKnownTheme(theme) <==> |r| == 4
    ensures !IsKnownTheme(theme) ==>
              r == ["Plat traditionnel " + theme, "Spécialité " + theme, "Dessert " + theme]
  {
    var key := ToLowerCase(theme);
    if key == "italien" then
      ["Pasta carbonara", "Pizza margherita", "Risotto aux champignons", "Tiramisu"]
    else if key == "français" then
      ["Coq au vin", "Ratatouille", "Crème brûlée", "Bouillabaisse"]
    else if key == "asiatique" then
      ["Pad Thai", "Sushi", "Curry vert", "Ramen"]
    else
      ["Plat traditionnel " + theme, "Spécialité " + theme, "Dessert " + theme]
  }

  predicate IsKnownTheme(theme: string) {
    var key := ToLowerCase(theme);
    key == "italien" || key == "français" || key == "asiatique"
  }

  /** A known cuisine is recognised whatever the case it is written in. */
  lemma KnownThemeIgnoresCase(theme1: string, theme2: string)
    requires ToLowerCase(theme1) == ToLowerCase(theme2) && IsKnownTheme(theme1)
    ensures ThemeDishList(theme1) == ThemeDishList(theme2)
  {
  }

  /** `getThemeDishes(theme, count)`: the first `min(count, size)` dishes of
      the theme; a negative count makes `subList` throw. */
  function ThemeDishes(theme: string, count: int): (r: Result<seq<string>>)
    ensures r.Err? <==> count < 0
    ensures r.Err? ==> r.error == Thrown(IllegalArgument, Some("fromIndex(0) > toIndex(" + IntToString(count) + ")"))
    ensures r.Ok? ==>
              && |r.value| == (if count < |ThemeDishList(theme)| then count else |ThemeDishList(theme)|)
              && r.value == ThemeDishList(theme)[..|r.value|]
  {
    var dishes := ThemeDishList(theme);
    if count < 0 then Err(Thrown(IllegalArgument, Some("fromIndex(0) > toIndex(" + IntToString(count) + ")")))
    else Ok(dishes[..if count < |dishes| then count else |dishes|])
  }

  /** `generateThemeRecipes`: one request per theme dish, 25 seconds apart. */
  function ThemeBatch(userName: string, theme: string, count: int, batchId: int): (r: Result<BatchRequest>)
    ensures r.Err? <==> count < 0
    ensures r.Ok? ==>
              && r.value.batchType == Slug("theme-", theme) && r.value.delaySeconds == ThemeDelaySeconds
              && |r.value.requests| == |ThemeDishes(theme, count).value|
              && forall i :: 0 <= i < |r.value.requests| ==>
                   r.value.requests[i] == RecipeRequest(ThemeDishes(theme, count).value[i], userName)
  {
    match ThemeDishes(theme, count)
    case Err(e) => Err(e)
    case Ok(dishes) =>
      Ok(BatchRequest(ForUser(dishes, userName), Slug("theme-", theme), batchId, ThemeDelaySeconds))
  }

  /** One request per dish, all for `userName`, in order. */
  function ForUser(dishes: seq<string>, userName: string): (r: seq<RecipeRequest>)
    ensures |r| == |dishes| && forall i :: 0 <= i < |r| ==> r[i] == RecipeRequest(dishes[i], userName)
  {
    seq(|dishes|, i requires 0 <= i < |dishes| => RecipeRequest(dishes[i], userName))
  }

  /** A custom dish that is kept: present and not blank. */
  predicate KeptDish(dish: Option<string>) {
    dish.Some? && Trim(dish.value) != []
  }

  /** The filtering loop of `generateCustomRecipes`: the present, non-blank
      dishes, trimmed, in their order. */
  function CustomDishes(dishes: seq<Option<string>>): (r: seq<string>)
    ensures |r| <= |dishes|
    ensures forall i :: 0 <= i < |r| ==> r[i] != [] && Trimmed(r[i])
    decreases |dishes|
  {
    if dishes == [] then []
    else
      var rest := CustomDishes(dishes[1..]);
      if KeptDish(dishes[0]) then [Trim(dishes[0].value)] + rest else rest
  }

  /** Filtering a concatenation filters each part. */
  lemma {:induction false} CustomDishesAppend(xs: seq<Option<string>>, ys: seq<Option<string>>)
    ensures CustomDishes(xs + ys) == CustomDishes(xs) + CustomDishes(ys)
    decreases |xs|
  {
    if xs != [] {
      var zs := xs + ys;
      assert zs[0] == xs[0] && zs[1..] == xs[1..] + ys;
      CustomDishesAppend(xs[1..], ys);
      var head := if KeptDish(xs[0]) then [Trim(xs[0].value)] else [];
      assert CustomDishes(xs) == head + CustomDishes(xs[1..]);
      assert CustomDishes(zs) == head + CustomDishes(zs[1..]);
    } else {
      assert xs + ys == ys;
    }
  }

  /** A single dish is kept, trimmed, exactly when present and not blank. */
  lemma CustomDishesSingle(dish: Option<string>)
    ensures CustomDishes([dish]) == if KeptDish(dish) then [Trim(dish.value)] else []
  {
    assert [dish][1..] == [];
  }

  /** Every dish the filter keeps comes, trimmed, from a kept entry, and the
      kept entries come out in order. */
  lemma {:induction false} CustomDishesAreKeptDishes(dishes: seq<Option<string>>)
    ensures |CustomDishes(dishes)| == KeptCount(dishes)
    ensures forall d :: d in CustomDishes(dishes) ==>
              exists i :: 0 <= i < |dishes| && KeptDish(dishes[i]) && Trim(dishes[i].value) == d
    decreases |dishes|
  {
    if dishes != [] {
      CustomDishesAreKeptDishes(dishes[1..]);
      forall d | d in CustomDishes(dishes[1..])
        ensures exists i :: 0 <= i < |dishes| && KeptDish(dishes[i]) && Trim(dishes[i].value) == d
      {
        var j :| 0 <= j < |dishes[1..]| && KeptDish(dishes[1..][j]) && Trim(dishes[1..][j].value) == d;
        assert dishes[j + 1] == dishes[1..][j];
      }
    }
  }

  /** How many entries the filter keeps. */
  function KeptCount(dishes: seq<Option<string>>): nat
    decreases |dishes|
  {
    if dishes == [] then 0 else (if KeptDish(dishes[0]) then 1 else 0) + KeptCount(dishes[1..])
  }

  /** `generateCustomRecipes`: the kept dishes, all for `userName`, 20 seconds
      apart, with the batch type "custom". */
  function CustomBatch(userName: string, dishes: seq<Option<string>>, batchId: int): (b: BatchRequest)
    ensures b.batchType == "custom" && b.delaySeconds == CustomDelaySeconds && b.batchId == batchId
    ensures |b.requests| == |CustomDishes(dishes)|
    ensures forall i :: 0 <= i < |b.requests| ==> b.requests[i] == RecipeRequest(CustomDishes(dishes)[i], userName)
  {
    BatchRequest(ForUser(CustomDishes(dishes), userName), "custom", batchId, CustomDelaySeconds)
  }
}

/** The recipe life cycle of `RecipeService` in `RecaipesApplication.java`:
    generating a recipe (or reusing one just made), reading, deleting with
    its stored files, and updating. The repositories are maps from ids, the
    generator, the image service and the PDF service are oracles, and the
    clock is a parameter. */
module RecipeService {
  import opened Wrappers
  import opened JavaText
  import RecipeParser
  import RecipeLabels
  import LocalStorage

  /** `Recipe`; `createdAt` is a point in time in nanoseconds. */
  datatype Recipe = Recipe(
    id: Option<int>,
    title: Option<string>,
    description: Option<string>,
    ingredients: Option<string>,
    instructions: Option<string>,
    imageUrl: Option<string>,
    pdfUrl: Option<string>,
    createdBy: Option<string>,
    createdAt: Option<int>)

  /** `RecipeRequest`: the dish and the user, either possibly null. */
  datatype RecipeRequest = RecipeRequest(dishName: Option<string>, userName: Option<string>)

  /** `PdfMetadata` as far as deletion reads it. */
  datatype PdfMetadata = PdfMetadata(id: int, s3Url: Option<string>, localPath: Option<string>)

  const NanosPerSecond := 1_000_000_000
  const ReuseWindowSeconds := 60
  /** The width of the `description` column. */
  const DescriptionColumn := 1000
  const GenerateFailedPrefix := "Failed to generate recipe: "
  const NotFoundPrefix := "Recipe not found with id: "
  const DeleteFailedPrefix := "Could not delete recipe: "

  /** A non-null, non-empty value. */
  predicate Present(v: Option<string>) {
    v.Some? && v.value != []
  }

  /* ----------------------------------------------------------- reuse */

  /** `ChronoUnit.SECONDS.between(from, to)`: the whole seconds between two
      instants, truncated toward zero. */
  function ElapsedWholeSeconds(from: int, to: int): (s: int)
    ensures to >= from ==> 0 <= s && s * NanosPerSecond <= to - from < (s + 1) * NanosPerSecond
    ensures to < from ==> s <= 0 && (s - 1) * NanosPerSecond < to - from <= s * NanosPerSecond
  {
    var d := to - from;
    if d >= 0 then d / NanosPerSecond else -((-d) / NanosPerSecond)
  }

  /** Fewer than 60 whole seconds have passed exactly when less than a minute
      separates the two instants (or the first lies in the future). */
  lemma WithinReuseWindow(from: int, to: int)
    ensures ElapsedWholeSeconds(from, to) < ReuseWindowSeconds <==> to - from < ReuseWindowSeconds * NanosPerSecond
  {
  }

  /** The reuse test of `generateRecipe` on the user's recipes, newest first:
      only the newest one is looked at. A null creation time, title or dish
      name that the test reaches throws. */
  function ReuseCheck(history: seq<Recipe>, dishName: Option<string>, now: int): (r: Result<bool>)
    ensures r == Ok(true) <==>
              && history != []
              && history[0].createdAt.Some?
              && ElapsedWholeSeconds(history[0].createdAt.value, now) < ReuseWindowSeconds
              && history[0].title.Some? && dishName.Some?
              && Contains(ToLowerCase(history[0].title.value), ToLowerCase(dishName.value))
    ensures r.Err? ==> history != [] && r.error.kind == NullPointer
    ensures r.Err? <==>
              && history != []
              && (|| history[0].createdAt.None?
                  || (&& ElapsedWholeSeconds(history[0].createdAt.value, now) < ReuseWindowSeconds
                      && (history[0].title.None? || dishName.None?)))
    ensures history == [] ==> r == Ok(false)
  {
    if history == [] then Ok(false)
    else
      var newest := history[0];
      if newest.createdAt.None? then Err(Thrown(NullPointer, None))
      else if ElapsedWholeSeconds(newest.createdAt.value, now) >= ReuseWindowSeconds then Ok(false)
      else if newest.title.None? || dishName.None? then Err(Thrown(NullPointer, None))
      else Ok(Contains(ToLowerCase(newest.title.value), ToLowerCase(dishName.value)))
  }

  /** A fresh recipe is reused for the same dish whatever the case of its
      letters, ligatures included. */
  lemma ReuseIgnoresCase(now: int)
    ensures var newest := Recipe(None, Some("\U{0152}ufs"), None, None, None, None, None, None, Some(now));
      ReuseCheck([newest], Some("\U{0153}ufs"), now) == Ok(true)
  {
    LowerCaseOeufs();
    ContainsAt("\U{0153}ufs", "\U{0153}ufs", 0);
  }

  /** Older recipes never influence the reuse decision. */
  lemma OnlyNewestExamined(newest: Recipe, older1: seq<Recipe>, older2: seq<Recipe>,
                           dishName: Option<string>, now: int)
    ensures ReuseCheck([newest] + older1, dishName, now) == ReuseCheck([newest] + older2, dishName, now)
  {
  }

  /* ------------------------------------------------------- generation */

  /** A call made to an outside service while generating. */
  datatype Call =
    | GenerateText(dishName: Option<string>)
    | GenerateImage(title: string)
    | GeneratePdf(recipe: Recipe)

  /** The outcome of `generateRecipe` and the calls it made, in order. */
  datatype Generation = Generation(result: Result<Recipe>, calls: seq<Call>)

  /** A freshly generated recipe: its text fields are the parsed ones, it
      belongs to the user, and it carries the image, the saved id and time
      and the PDF's URL. */
  predicate GeneratedFrom(r: Recipe, p: RecipeParser.ParsedRecipe, userName: Option<string>, newId: int,
                          savedAt: int, imageUrl: Option<string>, pdfUrl: Option<string>) {
    r == Recipe(Some(newId), Some(p.title), Some(p.description), Some(p.ingredients), Some(p.instructions),
                imageUrl, pdfUrl, userName, Some(savedAt))
  }

  /** The steps of `generateRecipe` after parsing: an image for the title,
      the first save (which gives the recipe `newId` and stamps it with
      `savedAt`), the PDF, and the second save, which keeps both. */
  function Complete(p: RecipeParser.ParsedRecipe, userName: Option<string>, newId: int, savedAt: int,
                    image: string -> Result<Option<string>>,
                    pdf: Recipe -> Result<Option<string>>): (g: Generation)
    ensures 1 <= |g.calls| <= 2 && g.calls[0] == GenerateImage(p.title)
    ensures image(p.title).Err? ==> g == Generation(Err(image(p.title).error), [GenerateImage(p.title)])
    ensures g.result.Ok? ==>
              && |g.calls| == 2
              && image(p.title).Ok?
              && g.calls[1].GeneratePdf?
              && GeneratedFrom(g.calls[1].recipe, p, userName, newId, savedAt, image(p.title).value, None)
              && pdf(g.calls[1].recipe).Ok?
              && GeneratedFrom(g.result.value, p, userName, newId, savedAt, image(p.title).value,
                               pdf(g.calls[1].recipe).value)
  {
    match image(p.title)
    case Err(e) => Generation(Err(e), [GenerateImage(p.title)])
    case Ok(url) =>
      var saved := Recipe(Some(newId), Some(p.title), Some(p.description), Some(p.ingredients),
                          Some(p.instructions), url, None, userName, Some(savedAt));
      var calls := [GenerateImage(p.title), GeneratePdf(saved)];
      match pdf(saved)
      case Err(e) => Generation(Err(e), calls)
      case Ok(s3Url) => Generation(Ok(saved.(pdfUrl := s3Url)), calls)
  }

  /** The work inside the `try` of `generateRecipe`, before exceptions are
      wrapped: the reuse test, then the text, its parse and the rest. */
  function Attempt(req: RecipeRequest, history: seq<Recipe>, now: int, newId: int, savedAt: int,
                   text: Option<string> -> Result<string>,
                   image: string -> Result<Option<string>>,
                   pdf: Recipe -> Result<Option<string>>): (g: Generation)
    ensures (g.result.Ok? && g.calls == []) <==> ReuseCheck(history, req.dishName, now) == Ok(true)
    ensures g.result.Ok? && g.calls == [] ==> history != [] && g.result.value == history[0]
    ensures ReuseCheck(history, req.dishName, now) == Ok(false) ==>
              g.calls != [] && g.calls[0] == GenerateText(req.dishName)
    ensures g.result.Ok? && g.calls != [] ==>
              && text(req.dishName).Ok?
              && g.calls[1..] == Complete(RecipeParser.ParseRecipeText(text(req.dishName).value), req.userName,
                                          newId, savedAt, image, pdf).calls
              && g.result == Complete(RecipeParser.ParseRecipeText(text(req.dishName).value), req.userName,
                                      newId, savedAt, image, pdf).result
  {
    match ReuseCheck(history, req.dishName, now)
    case Err(e) => Generation(Err(e), [])
    case Ok(true) => Generation(Ok(history[0]), [])
    case Ok(false) =>
      match text(req.dishName)
      case Err(e) => Generation(Err(e), [GenerateText(req.dishName)])
      case Ok(t) =>
        var rest := Complete(RecipeParser.ParseRecipeText(t), req.userName, newId, savedAt, image, pdf);
        Generation(rest.result, [GenerateText(req.dishName)] + rest.calls)
  }

  /** `generateRecipe`. A null user name fails on the lock map, outside the
      `try`, and is not wrapped. Otherwise the newest recipe is returned
      untouched, with no call made, exactly when the reuse test holds;
      else the text is generated and parsed, an image is made for the
      title, the recipe is saved, its PDF made, and every exception on the
      way becomes a `RuntimeException` naming the cause. */
  function GenerateRecipe(req: RecipeRequest, history: seq<Recipe>, now: int, newId: int, savedAt: int,
                          text: Option<string> -> Result<string>,
                          image: string -> Result<Option<string>>,
                          pdf: Recipe -> Result<Option<string>>): (g: Generation)
    ensures req.userName.None? ==> g == Generation(Err(Thrown(NullPointer, None)), [])
    ensures (g.result.Ok? && g.calls == [])
              <==> (req.userName.Some? && ReuseCheck(history, req.dishName, now) == Ok(true))
    ensures g.result.Ok? && g.calls == [] ==> history != [] && g.result.value == history[0]
    ensures req.userName.Some? && ReuseCheck(history, req.dishName, now) == Ok(false) ==>
              g.calls != [] && g.calls[0] == GenerateText(req.dishName)
    ensures g.result.Ok? && g.calls != [] ==>
              && |g.calls| == 3
              && text(req.dishName).Ok?
              && var p := RecipeParser.ParseRecipeText(text(req.dishName).value);
                 && g.calls[1] == GenerateImage(p.title)
                 && g.calls[2].GeneratePdf?
                 && image(p.title).Ok? && pdf(g.calls[2].recipe).Ok?
                 && GeneratedFrom(g.result.value, p, req.userName, newId, savedAt,
                                  image(p.title).value, pdf(g.calls[2].recipe).value)
    ensures g.result.Err? && req.userName.Some? ==>
              && g.result.error.kind == Runtime
              && g.result.error.message.Some?
              && StartsWith(g.result.error.message.value, GenerateFailedPrefix)
  {
    if req.userName.None? then Generation(Err(Thrown(NullPointer, None)), [])
    else
      var run := Attempt(req, history, now, newId, savedAt, text, image, pdf);
      match run.result
      case Ok(_) => run
      case Err(e) => Generation(Err(Thrown(Runtime, Some(GenerateFailedPrefix + e.MessageText()))), run.calls)
  }

  /** A recipe generated fresh always fits the 1000-character description
      column and has a cleaned title. */
  lemma GeneratedDescriptionFits(req: RecipeRequest, history: seq<Recipe>, now: int, newId: int, savedAt: int,
                                 text: Option<string> -> Result<string>,
                                 image: string -> Result<Option<string>>,
                                 pdf: Recipe -> Result<Option<string>>)
    ensures var g := GenerateRecipe(req, history, now, newId, savedAt, text, image, pdf);
      g.result.Ok? && g.calls != [] ==>
        && g.result.value.description.Some?
        && 0 < |g.result.value.description.value| <= DescriptionColumn
        && g.result.value.title.Some?
        && g.result.value.title.value != []
  {
    var g := GenerateRecipe(req, history, now, newId, savedAt, text, image, pdf);
    if g.result.Ok? && g.calls != [] {
      var p := RecipeParser.ParseRecipeText(text(req.dishName).value);
      assert g.result.value.description == Some(p.description);
    }
  }

  /** Asking again for the same dish within the minute, when the recipe just
      made names it, returns that recipe without calling anything. */
  lemma RepeatedRequestReused(req: RecipeRequest, saved: Recipe, older: seq<Recipe>, now: int, newId: int,
                              savedAt: int, text: Option<string> -> Result<string>,
                              image: string -> Result<Option<string>>,
                              pdf: Recipe -> Result<Option<string>>)
    requires req.userName.Some? && req.dishName.Some?
    requires saved.createdAt == Some(savedAt) && saved.title.Some?
    requires savedAt <= now < savedAt + ReuseWindowSeconds * NanosPerSecond
    requires Contains(ToLowerCase(saved.title.value), ToLowerCase(req.dishName.value))
    ensures GenerateRecipe(req, [saved] + older, now, newId, savedAt, text, image, pdf)
              == Generation(Ok(saved), [])
  {
    WithinReuseWindow(savedAt, now);
    assert ReuseCheck([saved] + older, req.dishName, now) == Ok(true);
  }

  /* ---------------------------------------------------------- reading */

  /** `getRecipeById`. */
  function GetRecipeById(recipes: map<int, Recipe>, id: int): (r: Result<Recipe>)
    ensures r.Ok? <==> id in recipes
    ensures r.Ok? ==> r.value == recipes[id]
    ensures r.Err? ==> r.error == Thrown(Runtime, Some(NotFoundPrefix + IntToString(id)))
  {
    if id in recipes then Ok(recipes[id]) else Err(Thrown(Runtime, Some(NotFoundPrefix + IntToString(id))))
  }

  /* --------------------------------------------------------- deletion */

  const FileScheme := "file://"

  /** The locators `deleteRecipe` collects: the recipe's image and PDF URLs,
      the metadata's S3 URL, and its local path as a "file://" locator,
      each only when present and non-empty; a set, so repeats collapse. */
  function FilesToDelete(r: Recipe, m: Option<PdfMetadata>): (fs: set<string>)
    ensures forall x :: x in fs <==>
              || (r.imageUrl == Some(x) && x != [])
              || (r.pdfUrl == Some(x) && x != [])
              || (m.Some? && m.value.s3Url == Some(x) && x != [])
              || (m.Some? && Present(m.value.localPath) && x == FileScheme + m.value.localPath.value)
  {
    (if Present(r.imageUrl) then {r.imageUrl.value} else {})
    + (if Present(r.pdfUrl) then {r.pdfUrl.value} else {})
    + (if m.Some? && Present(m.value.s3Url) then {m.value.s3Url.value} else {})
    + (if m.Some? && Present(m.value.localPath) then {FileScheme + m.value.localPath.value} else {})
  }

  /** A repository or storage step of a deletion. */
  datatype Step = DeleteMetadata(metadataId: int) | DeleteRecipeRow(recipeId: int) | DeleteFiles(locators: set<string>)

  /** The outcome of `deleteRecipe`, the repositories after it and the steps
      taken, in order. Metadata is keyed by the id of its recipe. */
  datatype Deletion = Deletion(result: Result<()>, recipes: map<int, Recipe>, metadata: map<int, PdfMetadata>,
                               steps: seq<Step>)

  /** `deleteRecipe`. An unknown id fails with the lookup's message wrapped;
      otherwise the metadata (if any) is deleted before the recipe, and the
      collected locators, when there are any, are handed to storage last. */
  function DeleteRecipe(recipes: map<int, Recipe>, metadata: map<int, PdfMetadata>, id: int): (d: Deletion)
    ensures id !in recipes ==>
              d == Deletion(Err(Thrown(Runtime, Some(DeleteFailedPrefix + NotFoundPrefix + IntToString(id)))),
                            recipes, metadata, [])
    ensures id in recipes ==>
              && d.result.Ok?
              && d.recipes == recipes - {id}
              && d.metadata == metadata - {id}
              && DeleteRecipeRow(id) in d.steps
              && (id in metadata ==> d.steps[0] == DeleteMetadata(metadata[id].id))
    ensures forall i, j ::
              (0 <= i < |d.steps| && 0 <= j < |d.steps| && d.steps[i].DeleteMetadata? && d.steps[j].DeleteRecipeRow?)
              ==> i < j
    ensures forall i :: 0 <= i < |d.steps| && d.steps[i].DeleteFiles? ==>
              && i == |d.steps| - 1
              && d.steps[i].locators != {}
              && d.steps[i].locators == FilesToDelete(recipes[id], if id in metadata then Some(metadata[id]) else None)
    ensures id in recipes && FilesToDelete(recipes[id], if id in metadata then Some(metadata[id]) else None) != {} ==>
              d.steps[|d.steps| - 1].DeleteFiles?
    ensures id in recipes ==>
              |d.steps| == (if id in metadata then 1 else 0) + 1
                           + (if FilesToDelete(recipes[id], if id in metadata then Some(metadata[id]) else None) != {}
                              then 1 else 0)
    ensures forall i :: 0 <= i < |d.steps| ==>
              && (d.steps[i].DeleteRecipeRow? ==> d.steps[i].recipeId == id)
              && (d.steps[i].DeleteMetadata? ==> id in metadata && d.steps[i].metadataId == metadata[id].id)
  {
    if id !in recipes then
      Deletion(Err(Thrown(Runtime, Some(DeleteFailedPrefix + NotFoundPrefix + IntToString(id)))), recipes, metadata, [])
    else
      var m := if id in metadata then Some(metadata[id]) else None;
      var fs := FilesToDelete(recipes[id], m);
      var before: seq<Step> := if m.Some? then [DeleteMetadata(m.value.id)] else [];
      var after: seq<Step> := if fs == {} then [] else [DeleteFiles(fs)];
      Deletion(Ok(()), recipes - {id}, metadata - {id}, before + [DeleteRecipeRow(id)] + after)
  }

  /** The local-path locator of a recipe's PDF is one the local provider
      deletes the file through, as long as the path holds no "||". */
  lemma LocalPathLocatorDeletes(files: set<string>, path: string)
    requires path in files && !Contains(path, "||")
    ensures LocalStorage.DeleteFile(files, FileScheme + path) == LocalStorage.LocalDelete(Ok(true), files - {path})
  {
    var loc := FileScheme + path;
    assert StartsWith(loc, LocalStorage.FileScheme);
    assert loc[|LocalStorage.FileScheme|..] == path;
  }

  /* ----------------------------------------------------------- update */

  /** The outcome of `updateRecipe` and the recipes after it. */
  datatype Update = Update(result: Result<Recipe>, recipes: map<int, Recipe>)

  /** `updateRecipe`: the title is replaced only by a non-empty dish name and
      the author only by a non-empty user name; nothing else changes. */
  function UpdateRecipe(recipes: map<int, Recipe>, id: int, req: RecipeRequest): (u: Update)
    ensures id !in recipes ==> u == Update(Err(Thrown(Runtime, Some(NotFoundPrefix + IntToString(id)))), recipes)
    ensures id in recipes ==>
              && u.result.Ok?
              && u.recipes == recipes[id := u.result.value]
              && u.result.value.(title := recipes[id].title, createdBy := recipes[id].createdBy) == recipes[id]
              && u.result.value.title == (if Present(req.dishName) then req.dishName else recipes[id].title)
              && u.result.value.createdBy == (if Present(req.userName) then req.userName else recipes[id].createdBy)
  {
    match GetRecipeById(recipes, id)
    case Err(e) => Update(Err(e), recipes)
    case Ok(existing) =>
      var titled := if Present(req.dishName) then existing.(title := req.dishName) else existing;
      var updated := if Present(req.userName) then titled.(createdBy := req.userName) else titled;
      Update(Ok(updated), recipes[id := updated])
  }

  /** Repeating an update changes nothing more. */
  lemma UpdateIsIdempotent(recipes: map<int, Recipe>, id: int, req: RecipeRequest)
    ensures var once := UpdateRecipe(recipes, id, req);
      UpdateRecipe(once.recipes, id, req) == once
  {
  }

  /** An update with neither a dish name nor a user name leaves the recipe
      as it was. */
  lemma EmptyUpdateKeepsRecipe(recipes: map<int, Recipe>, id: int, dishName: Option<string>, userName: Option<string>)
    requires id in recipes && !Present(dishName) && !Present(userName)
    ensures UpdateRecipe(recipes, id, RecipeRequest(dishName, userName)) == Update(Ok(recipes[id]), recipes)
  {
  }
}

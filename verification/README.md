# RecAIpes core in Dafny

RecAIpes turns a dish name into a recipe. It asks a language model for the text, parses that text into title, ingredients, instructions and description, and generates an image. It renders the recipe as a PDF, and stores the PDF on S3, in a student file bucket or on local disk. Every stored file is handed back as a string *locator*. Deleting a recipe collects its locators and passes them to storage.

This project models the decision logic around those steps as pure Dafny functions. It proves what each step promises.

- **Parser.** `RecipeParser.ParseRecipeText` is the live parser. It strips a byte-order mark, extracts the title, cuts out the sections and fills placeholders. `LegacyParser.LegacyParse` is the earlier, simpler revision.
- **Regular expressions.** `java.util.regex` is not available, so each pattern the parser compiles has a hand-written recogniser that follows the engine's backtracking order. These are in `JavaRegex`, `TitleExtraction` and `Sections`.
- **Title.** `TitleCleaning.CleanTitle` is `cleanTitle`. `TitleExtraction.ExtractTitle` is the ordered pattern search of `extractTitle`.
- **Service.** `RecipeService` covers the 60-second reuse rule, generation with outside calls as parameters, deletion, and update.
- **Storage.** `ExternalBucket` covers the student bucket's locator encoding, URL construction, delete-candidate ids and id extraction. `LocalStorage` covers the `file://…||local` locators over a file system modelled as a set of paths. `StorageService` covers the S3-or-local upload rule.
- **Batches.** `BatchGeneration` covers batch requests, tags and delays. `BatchStatus` is the job-status registry.
- **API.** `ApiKeyFilter` is the API-key gate.
- **Java library behaviour.** `JavaText` and `TextLaws` model `trim`, `split`, `replace`, `indexOf`, the case mappings of the Latin letters up to U+017F, lengths in UTF-16 code units and `String.valueOf`, together with their laws.

Behaviour of the code worth knowing:

- **No fail-closed parsing.** The parser does not reject thin content. It substitutes "- Ingredients not specified", "1. Instructions not specified" and "No description available." for sections it cannot find.
- **End-bounded sections are one line long.** `extractSection` compiles with MULTILINE, so the lookahead `$` holds before every line terminator. A section with an end label therefore never spans two lines (`Sections.EndBoundedSectionIsOneLine`). A label followed directly by a line break yields a section that cleans to nothing (`RecipeParser.IngredientsLabelAloneOnItsLine`).
- **The title is cleaned twice.** A blank text is titled "Recipe Without Name" by `extractTitle`. The final `cleanTitle` then takes "Recipe" for a label, so the stored title is "Without Name" (`RecipeParser.BlankTextParse`).
- **The bucket's "||" locator round-trips only in exact cases.** It gives back the URL and id only when the URL holds no "||" and does not end with '|', and the id is non-empty and free of "||" (`ExternalBucket.LocatorRoundTrip`, `ExternalBucket.LocatorRecovered`). The local locator has the same rule for its path (`LocalStorage.UploadedPathRecovered`).
- **Exceptions that escape.** A locator whose path is nothing but "||" makes the local delete throw an index error, which its `catch (IOException)` does not catch. A null user name makes `generateRecipe` throw a `NullPointerException` from the lock map, outside the `try` that would have wrapped it. A configured S3 client with a null bucket name makes the `StorageService` constructor throw.
- **Batch tags.** `Recipe` has no `addTag` method, and `StorageProvider` declares neither `deleteFile` nor the three-argument upload that the providers mark `@Override`. `StorageService` has no `deleteFiles`, although `deleteRecipe` calls it: the model records the locators handed to it as a step (`RecipeService.DeleteRecipe`). The model takes the tags the batch loop evidently attaches (`BatchGeneration.BatchTags`) and models each provider on its own.

## Model

| member | source | states |
|---|---|---|
| `ApiKeyFilter.DoFilterInternal` | src/main/java/com/ynov/recaipes/config/ApiKeyAuthFilter.java:20-34 | The request reaches the chain if and only if a key is configured and the X-API-Key header equals it exactly; every other request is answered 401 with the fixed body |
| `ApiKeyFilter.Filter` | src/main/java/com/ynov/recaipes/config/ApiKeyAuthFilter.java:36-41 | A URI outside "/api/" always passes; an API URI passes if and only if the key check does; a rejection is always 401 with the fixed body |
| `ApiKeyFilter.NoKeyRejectsApi` | src/main/java/com/ynov/recaipes/config/ApiKeyAuthFilter.java:26 | Without a configured key every API request is refused, whatever header it carries |
| `ApiKeyFilter.AtMostOneKeyAccepted` | src/main/java/com/ynov/recaipes/config/ApiKeyAuthFilter.java:26-33 | Two different header values are never both let through on an API route |
| `BatchStatus.CreateNewJob` | src/main/java/com/ynov/recaipes/controller/BatchStatusController.java:42-46 | The new id is registered as running, progress 0, the start message and no error; the set of jobs grows by exactly that id and every other job is unchanged |
| `BatchStatus.UpdateJobProgress` | src/main/java/com/ynov/recaipes/controller/BatchStatusController.java:51-57 | Only the progress and message of a known job change; the set of jobs and every other job are unchanged; an unknown id changes nothing |
| `BatchStatus.CompleteJob` | src/main/java/com/ynov/recaipes/controller/BatchStatusController.java:62-69 | A known job becomes completed at 100 with the message and keeps its error; nothing else changes; an unknown id changes nothing |
| `BatchStatus.FailJob` | src/main/java/com/ynov/recaipes/controller/BatchStatusController.java:74-80 | A known job gets status "error" and the error and keeps progress and message; nothing else changes; an unknown id changes nothing |
| `BatchStatus.GetJobStatus` | src/main/java/com/ynov/recaipes/controller/BatchStatusController.java:23-37 | An unknown id is not found; a job with a null message makes `Map.of` throw; a view returned carries the job's fields, with a null error shown as "" |
| `BatchStatus.RegistryInvariant` | src/main/java/com/ynov/recaipes/controller/BatchStatusController.java:42-80 | Over any sequence of calls no job is ever removed, every job keeps one of the three status words, and an id nobody created stays unknown |
| `BatchStatus.CompleteAfterFail` | src/main/java/com/ynov/recaipes/controller/BatchStatusController.java:62-80 | A job completed after failing reports completed, 100 and the new message while still showing the earlier error |
| `BatchGeneration.BatchTags` | src/main/java/com/ynov/recaipes/service/BatchRecipeGenerationService.java:42-44 | The recipe at position i gets exactly three tags: the batch type, "batch-" with the batch id, and its 1-based position |
| `BatchGeneration.GenerateRecipeBatch` | src/main/java/com/ynov/recaipes/service/BatchRecipeGenerationService.java:24-63 | The batch succeeds if and only if every generation does, giving one tagged recipe per request in order after n-1 pauses; otherwise it stops at the first failure with "Batch generation failed" and no partial list |
| `BatchGeneration.Slug` | src/main/java/com/ynov/recaipes/service/BatchRecipeGenerationService.java:79 | The prefix followed by the theme's `toLowerCase`, character for character, with each space turned into '-'; a capital ligature such as Œ comes out lower-case (`SlugExample`) |
| `BatchGeneration.SlugOfTheme` | src/main/java/com/ynov/recaipes/service/BatchRecipeGenerationService.java:79 | Without a dotted capital I the slug keeps the theme's length, each character lower-cased on its own and each space turned into '-' |
| `BatchGeneration.SlugExample` | src/main/java/com/ynov/recaipes/service/BatchRecipeGenerationService.java:79 | The theme "Œufs" gives the batch type "menu-œufs" |
| `BatchGeneration.SlugHasNoSpace` | src/main/java/com/ynov/recaipes/service/BatchRecipeGenerationService.java:102 | A batch type built from a theme never holds a space, whatever the theme |
| `BatchGeneration.CompleteMenuBatch` | src/main/java/com/ynov/recaipes/service/BatchRecipeGenerationService.java:69-83 | Exactly three requests for the user, starter, main course and dessert of the theme in that order, as a "menu-" batch 30 seconds apart |
| `BatchGeneration.ThemeDishList` | src/main/java/com/ynov/recaipes/service/BatchRecipeGenerationService.java:131-157 | Four fixed dishes exactly for the three known cuisines; any other theme gets the three dishes named after it |
| `BatchGeneration.KnownThemeIgnoresCase` | src/main/java/com/ynov/recaipes/service/BatchRecipeGenerationService.java:134 | A known cuisine gets the same dishes however its name is capitalised |
| `BatchGeneration.ThemeDishes` | src/main/java/com/ynov/recaipes/service/BatchRecipeGenerationService.java:159 | A negative count throws the `subList` exception; otherwise the first min(count, size) dishes in order |
| `BatchGeneration.ThemeBatch` | src/main/java/com/ynov/recaipes/service/BatchRecipeGenerationService.java:90-106 | One request per theme dish for the user, in order, as a "theme-" batch 25 seconds apart; fails exactly when the count is negative |
| `BatchGeneration.CustomDishes` | src/main/java/com/ynov/recaipes/service/BatchRecipeGenerationService.java:116-120 | Every dish kept is non-empty and trimmed, and there are never more than were given |
| `BatchGeneration.CustomDishesAppend` | src/main/java/com/ynov/recaipes/service/BatchRecipeGenerationService.java:116-120 | Filtering a concatenation filters each part in turn, so kept dishes keep their order |
| `BatchGeneration.CustomDishesSingle` | src/main/java/com/ynov/recaipes/service/BatchRecipeGenerationService.java:117-118 | One entry is kept, trimmed, exactly when it is present and not blank |
| `BatchGeneration.CustomDishesAreKeptDishes` | src/main/java/com/ynov/recaipes/service/BatchRecipeGenerationService.java:116-120 | As many dishes as kept entries come out, and each is the trimmed text of a kept entry |
| `BatchGeneration.CustomBatch` | src/main/java/com/ynov/recaipes/service/BatchRecipeGenerationService.java:113-128 | One request per kept dish for the user, in order, as a "custom" batch 20 seconds apart |
| `ExternalBucket.GetProviderInfo` | src/main/java/com/ynov/recaipes/service/ExternalBucketProvider.java:368-378 | Upload, private search and delete are advertised exactly when the provider is available and has a token; public search exactly when it is available |
| `ExternalBucket.CastToString` | src/main/java/com/ynov/recaipes/service/ExternalBucketProvider.java:400 | A string passes unchanged, null passes, and exactly a number or a boolean throws `ClassCastException` |
| `ExternalBucket.PublicFileUrl` | src/main/java/com/ynov/recaipes/service/ExternalBucketProvider.java:97-100 | The base URL followed by "/public/file/" and the name |
| `ExternalBucket.ConstructPublicUrl` | src/main/java/com/ynov/recaipes/service/ExternalBucketProvider.java:395-439 | The first of url, fileUrl, idExterne, fileName, id the body holds decides: url and fileUrl are returned as given (null stays null, another type throws); idExterne and id give base + "/public/file/" + their rendering; fileName does the same when it is a string or null ("null") and throws for another type; with none of them the file is "unknown" |
| `ExternalBucket.FirstUrlKeyDecides` | src/main/java/com/ynov/recaipes/service/ExternalBucketProvider.java:395-439 | Only the first of url, fileUrl, idExterne, fileName, id the body holds decides the URL; with none of them it names the public file "unknown" |
| `ExternalBucket.ExtractRecipeType` | src/main/java/com/ynov/recaipes/service/ExternalBucketProvider.java:384-389 | "dessert", "main-course", "starter" or "general", each exactly when the earlier words are absent and its own is present |
| `ExternalBucket.UploadFile` | src/main/java/com/ynov/recaipes/service/ExternalBucketProvider.java:36-95 | No request unless available with a token, with the matching `IllegalStateException`; the request goes to base + "/student/upload" with the token, the numeric external id of the clock, the tags "recipe", the recipe type and today's date; any failure after it is a wrapped `RuntimeException`; a 200 answer with a body whose URL can be built always succeeds, and success is the public URL, "\|\|" and the server id |
| `ExternalBucket.CanUploadMatchesUpload` | src/main/java/com/ynov/recaipes/service/ExternalBucketProvider.java:36-43 | The advertised upload capability holds exactly when an upload gets as far as sending its request |
| `ExternalBucket.ParseLocator` | src/main/java/com/ynov/recaipes/service/ExternalBucketProvider.java:133-137 | A locator without "\|\|" is all URL and no id; a locator that splits into nothing throws an index error |
| `ExternalBucket.LocatorRoundTrip` | src/main/java/com/ynov/recaipes/service/ExternalBucketProvider.java:133-137 | A URL whose "\|\|" can only come first and a non-empty id free of "\|\|" are recovered exactly from their locator |
| `ExternalBucket.LocatorRecovered` | src/main/java/com/ynov/recaipes/service/ExternalBucketProvider.java:133-137 | A locator is recovered exactly only under those conditions |
| `ExternalBucket.AfterLastSlash` | src/main/java/com/ynov/recaipes/service/ExternalBucketProvider.java:155 | The slash-free tail of the URL, directly preceded by a slash unless it is the whole URL |
| `ExternalBucket.ExtractFileIdFromUrl` | src/main/java/com/ynov/recaipes/service/ExternalBucketProvider.java:245-293 | An empty URL gives no id, and no id comes back otherwise unless the URL splits into no segment at all |
| `ExternalBucket.PublicFileIdRoundTrip` | src/main/java/com/ynov/recaipes/service/ExternalBucketProvider.java:252-260 | The id of a public-file URL is read back from it |
| `ExternalBucket.StudentBucketRecipeId` | src/main/java/com/ynov/recaipes/service/ExternalBucketProvider.java:262-281 | A student-bucket URL ending in "uuid-recipe_N.pdf" gives back N |
| `ExternalBucket.StudentBucketBranch` | src/main/java/com/ynov/recaipes/service/ExternalBucketProvider.java:263-277 | A student-bucket URL that is not a public-file URL gives the recipe number of its last segment |
| `ExternalBucket.RecipeNumberOfPdfName` | src/main/java/com/ynov/recaipes/service/ExternalBucketProvider.java:269-276 | The recipe number is read back from the name a recipe PDF is stored under |
| `ExternalBucket.LastSegmentId` | src/main/java/com/ynov/recaipes/service/ExternalBucketProvider.java:283-289 | Any other URL gives its last "/"-segment |
| `ExternalBucket.ConstructedUrlNamesServerId` | src/main/java/com/ynov/recaipes/service/ExternalBucketProvider.java:412-418 | A public URL built from the server's numeric id gives that id back on extraction |
| `ExternalBucket.AddNew` | src/main/java/com/ynov/recaipes/service/ExternalBucketProvider.java:174-176 | The id is present afterwards, nothing else is added, the earlier ids keep their places, and a duplicate-free list stays duplicate-free |
| `ExternalBucket.AddAll` | src/main/java/com/ynov/recaipes/service/ExternalBucketProvider.java:180-185 | Exactly the old and the new ids, the old ones first and in place, without duplicates |
| `ExternalBucket.CandidateIds` | src/main/java/com/ynov/recaipes/service/ExternalBucketProvider.java:140-185 | Duplicate-free; holds exactly the stored id, the search hits, the URL id and "1".."5"; the stored id comes first and each id sits in the order of the step that first proposes it |
| `ExternalBucket.SearchHits` | src/main/java/com/ynov/recaipes/service/ExternalBucketProvider.java:149-170 | Every id found belongs to an entry whose fileName is the URL's file name |
| `ExternalBucket.SearchFindsEveryNamedEntry` | src/main/java/com/ynov/recaipes/service/ExternalBucketProvider.java:158-166 | Without entries of null file name, the id of every entry with that file name is found |
| `ExternalBucket.TryInOrder` | src/main/java/com/ynov/recaipes/service/ExternalBucketProvider.java:191-212 | Ids are tried as a prefix of the list; all but the last tried are refused; the last is accepted if and only if some id would be; with none accepted all are tried |
| `ExternalBucket.DeleteFile` | src/main/java/com/ynov/recaipes/service/ExternalBucketProvider.java:122-240 | No token means false with no calls; the ids tried are, in order, a prefix of the candidate list (stored id, search hits, URL id, fallbacks); the result is true exactly when the bucket accepts some candidate, and the loop stops at the first it accepts; no id is tried twice; a failed delete has tried, and been refused by, every candidate, the fallback ids included |
| `ExternalBucket.DeleteCandidates` | src/main/java/com/ynov/recaipes/service/ExternalBucketProvider.java:140-185 | The candidate list of a parsed locator is duplicate-free, holds every fallback id, and starts with the stored id when there is one |
| `ExternalBucket.DeleteLoop` | src/main/java/com/ynov/recaipes/service/ExternalBucketProvider.java:187-235 | The ids tried are a prefix of the list; the result is true exactly when some id is accepted, and then the last id tried is the first accepted; every earlier one was refused; a false result tried all ids |
| `ExternalBucket.DeleteTriesStoredIdFirst` | src/main/java/com/ynov/recaipes/service/ExternalBucketProvider.java:133-146 | Deleting through a locator the upload returned tries the server's id first, and stops there when it is accepted |
| `LegacyParser.FirstLine` | src/main/java/com/ynov/recaipes/service/RecipeService.java:67-69 | `(?m)^(.+?)$` finds the first line start where the group matches, and no earlier one matches |
| `LegacyParser.RestOfLineIsLine` | src/main/java/com/ynov/recaipes/service/RecipeService.java:67 | The group matches exactly at a character that is not a line terminator, and then spans the rest of that line |
| `LegacyParser.LegacyTitle` | src/main/java/com/ynov/recaipes/service/RecipeService.java:67-69 | The title is trimmed and never spans two lines |
| `LegacyParser.LegacyTitleIsFirstLine` | src/main/java/com/ynov/recaipes/service/RecipeService.java:67-69 | The title is the first non-empty line, trimmed |
| `LegacyParser.LegacyTitleWithoutLines` | src/main/java/com/ynov/recaipes/service/RecipeService.java:69 | Without a non-empty line the title is "Recipe" |
| `LegacyParser.LegacySection` | src/main/java/com/ynov/recaipes/service/RecipeService.java:71-81 | A section is trimmed, and empty when its label is absent |
| `LegacyParser.LegacySectionReachesEndLabel` | src/main/java/com/ynov/recaipes/service/RecipeService.java:71-77 | Without MULTILINE a section runs across lines up to the next end label |
| `LegacyParser.LegacySectionBeginsWithLabel` | src/main/java/com/ynov/recaipes/service/RecipeService.java:71-81 | A section found begins with the label found |
| `LegacyParser.LegacyParse` | src/main/java/com/ynov/recaipes/service/RecipeService.java:66-89 | All four values are trimmed, and a section whose label is absent is empty: no placeholders in this revision |
| `LocalStorage.UploadFile` | src/main/java/com/ynov/recaipes/service/LocalStorageProvider.java:26-44 | An I/O failure is rethrown with the fixed message and changes nothing; otherwise the file lands at directory/uuid-name and the locator is "file://" + that path + "\|\|local" |
| `LocalStorage.UploadFileUntagged` | src/main/java/com/ynov/recaipes/service/LocalStorageProvider.java:21-24 | The two-argument upload is the tagged one, whatever the tags |
| `LocalStorage.RecoveredPath` | src/main/java/com/ynov/recaipes/service/LocalStorageProvider.java:60-64 | No path without "file://"; the rest of the locator when it holds no "\|\|"; otherwise the text before the first "\|\|", and an index error only when that text is empty and nothing but separators follows |
| `LocalStorage.DeleteFile` | src/main/java/com/ynov/recaipes/service/LocalStorageProvider.java:56-83 | Not "file://" means false and nothing changes; a recovered path that names a file gives true and removes exactly that file, one that names none gives false and changes nothing; files are only ever removed |
| `LocalStorage.UploadedPathRecovered` | src/main/java/com/ynov/recaipes/service/LocalStorageProvider.java:40-64 | The locator of an upload leads back to its path exactly when a "\|\|" can only come after the path |
| `LocalStorage.UploadThenDeleteTwice` | src/main/java/com/ynov/recaipes/service/LocalStorageProvider.java:40-74 | Deleting through a fresh locator removes the file and answers true; deleting again answers false and changes nothing |
| `LocalStorage.DeleteIsIdempotent` | src/main/java/com/ynov/recaipes/service/LocalStorageProvider.java:65-74 | After one delete a second through the same locator answers false and changes nothing |
| `RecipeLabels.StripLabelPrefix` | src/main/java/com/ynov/recaipes/RecaipesApplication.java:252 | The result is a tail of the text, and the text is left whole unless a label starts it |
| `RecipeLabels.StripColons` | src/main/java/com/ynov/recaipes/RecaipesApplication.java:271 | The result is a tail of the text and does not start with a colon unless nothing was removed |
| `RecipeParser.StripBom` | src/main/java/com/ynov/recaipes/RecaipesApplication.java:157-160 | Exactly one leading U+FEFF is removed and nothing else changes |
| `RecipeParser.ParsedTitle` | src/main/java/com/ynov/recaipes/RecaipesApplication.java:168-192 | The stored title always has the shape of a cleaned title |
| `RecipeParser.ParsedIngredients` | src/main/java/com/ynov/recaipes/RecaipesApplication.java:164-193 | Trimmed, and exactly the placeholder when no ingredients label occurs |
| `RecipeParser.ParsedInstructions` | src/main/java/com/ynov/recaipes/RecaipesApplication.java:165-194 | Trimmed, and exactly the placeholder when no instructions label occurs |
| `RecipeParser.ParsedDescription` | src/main/java/com/ynov/recaipes/RecaipesApplication.java:166-195 | Non-empty, trimmed, at most 950 UTF-16 units, and the placeholder when "DESCRIPTION" occurs nowhere |
| `RecipeParser.ParseRecipeText` | src/main/java/com/ynov/recaipes/RecaipesApplication.java:150-197 | A cleaned-shape title, trimmed sections, a description of 1 to 950 UTF-16 units, and each section's placeholder when its label is absent |
| `RecipeParser.IngredientsPlaceholderSurvives` | src/main/java/com/ynov/recaipes/RecaipesApplication.java:172-182 | Cleaning leaves the ingredients placeholder as it is |
| `RecipeParser.InstructionsPlaceholderSurvives` | src/main/java/com/ynov/recaipes/RecaipesApplication.java:175-183 | Cleaning leaves the instructions placeholder as it is |
| `RecipeParser.DescriptionPlaceholderSurvives` | src/main/java/com/ynov/recaipes/RecaipesApplication.java:178-184 | Cleaning leaves the description placeholder as it is |
| `RecipeParser.BomIsIgnored` | src/main/java/com/ynov/recaipes/RecaipesApplication.java:157-160 | A leading byte-order mark makes no difference to the parse |
| `RecipeParser.NamelessTitleRecleaned` | src/main/java/com/ynov/recaipes/RecaipesApplication.java:246-260 | Cleaning "Recipe Without Name" again gives "Without Name" |
| `RecipeParser.BlankTextParse` | src/main/java/com/ynov/recaipes/RecaipesApplication.java:163-196 | A blank text parses to "Without Name" and the three placeholders |
| `RecipeParser.IngredientsLabelAloneOnItsLine` | src/main/java/com/ynov/recaipes/RecaipesApplication.java:164-182 | An ingredients label directly followed by a line break leaves the ingredients empty, not the placeholder |
| `RecipeParser.TitleCleanedTwice` | src/main/java/com/ynov/recaipes/RecaipesApplication.java:192 | A title already in cleaned form without a leading label survives the second cleaning unchanged |
| `RecipeService.ElapsedWholeSeconds` | src/main/java/com/ynov/recaipes/RecaipesApplication.java:39 | The whole seconds between two instants, truncated toward zero in both directions |
| `RecipeService.WithinReuseWindow` | src/main/java/com/ynov/recaipes/RecaipesApplication.java:39 | Fewer than 60 whole seconds have passed exactly when less than a minute separates the instants |
| `RecipeService.ReuseCheck` | src/main/java/com/ynov/recaipes/RecaipesApplication.java:35-44 | Reuse holds exactly when there is a newest recipe, under 60 whole seconds old, whose lower-cased title contains the lower-cased dish name; an empty history never reuses; a null creation time, or a null title or dish name inside the window, throws, and nothing else does |
| `RecipeService.ReuseIgnoresCase` | src/main/java/com/ynov/recaipes/RecaipesApplication.java:35-44 | A fresh recipe titled "Œufs" is reused for the dish "œufs": the comparison ignores case beyond Latin-1 too |
| `RecipeService.OnlyNewestExamined` | src/main/java/com/ynov/recaipes/RecaipesApplication.java:37-38 | Older recipes never influence the reuse decision |
| `RecipeService.Complete` | src/main/java/com/ynov/recaipes/RecaipesApplication.java:58-69 | The image is asked for the parsed title first; its failure stops everything; success went through the PDF call with the saved recipe and carries its URL |
| `RecipeService.Attempt` | src/main/java/com/ynov/recaipes/RecaipesApplication.java:35-69 | Reuse answers the newest recipe with no call at all, and only then; otherwise the text is asked for first and the rest works on its parse |
| `RecipeService.GenerateRecipe` | src/main/java/com/ynov/recaipes/RecaipesApplication.java:30-74 | A null user throws unwrapped; reuse happens exactly when the reuse test holds and makes no call; a fresh recipe takes text, image and PDF calls in that order and carries the parse, the user, the image and the PDF; every other failure is wrapped with "Failed to generate recipe: " |
| `RecipeService.GeneratedDescriptionFits` | src/main/java/com/ynov/recaipes/RecaipesApplication.java:49-61 | A freshly generated recipe has a non-empty title and a description of 1 to 1000 characters, the width of its column |
| `RecipeService.RepeatedRequestReused` | src/main/java/com/ynov/recaipes/RecaipesApplication.java:35-44 | Asking again within the minute for a dish the newest recipe names returns that recipe with no call |
| `RecipeService.GetRecipeById` | src/main/java/com/ynov/recaipes/RecaipesApplication.java:80-83 | The stored recipe when the id is known; otherwise "Recipe not found with id: " and the id |
| `RecipeService.FilesToDelete` | src/main/java/com/ynov/recaipes/RecaipesApplication.java:88-104 | Exactly the non-empty image URL, PDF URL and metadata S3 URL, and "file://" + a non-empty local path |
| `RecipeService.DeleteRecipe` | src/main/java/com/ynov/recaipes/RecaipesApplication.java:85-119 | An unknown id fails with the wrapped not-found message and changes nothing; otherwise recipe and metadata are gone, and the steps are exactly: the metadata delete when there is metadata, the recipe delete, then the locators handed to storage, only when there are any |
| `RecipeService.LocalPathLocatorDeletes` | src/main/java/com/ynov/recaipes/RecaipesApplication.java:102-104 | The "file://" locator built from a local path deletes that file through the local provider |
| `RecipeService.UpdateRecipe` | src/main/java/com/ynov/recaipes/RecaipesApplication.java:135-144 | An unknown id fails; otherwise the title is replaced only by a non-empty dish name and the author only by a non-empty user name, every other field is unchanged, and the result is stored |
| `RecipeService.UpdateIsIdempotent` | src/main/java/com/ynov/recaipes/RecaipesApplication.java:135-144 | Repeating an update changes nothing more |
| `RecipeService.EmptyUpdateKeepsRecipe` | src/main/java/com/ynov/recaipes/RecaipesApplication.java:137-142 | An update with neither name leaves the recipe as it was |
| `Sections.SectionStop` | src/main/java/com/ynov/recaipes/RecaipesApplication.java:290-292 | The lazy `.*?` stops at the first position where the end label or a MULTILINE `$` holds |
| `Sections.ExtractSection` | src/main/java/com/ynov/recaipes/RecaipesApplication.java:283-308 | The section is trimmed, and empty when its label occurs nowhere |
| `Sections.SectionBeginsWithLabel` | src/main/java/com/ynov/recaipes/RecaipesApplication.java:300-302 | A section found begins with the label found |
| `Sections.EndBoundedSectionIsOneLine` | src/main/java/com/ynov/recaipes/RecaipesApplication.java:289-293 | A section with an end label holds no line terminator |
| `Sections.LabelAloneOnItsLine` | src/main/java/com/ynov/recaipes/RecaipesApplication.java:289-293 | A label followed by a line end makes the section just the label |
| `Sections.StripSectionLabel` | src/main/java/com/ynov/recaipes/RecaipesApplication.java:319-320 | The result is a tail of the text, and the text is left whole unless a label starts it |
| `Sections.CleanSectionText` | src/main/java/com/ynov/recaipes/RecaipesApplication.java:313-328 | The result is trimmed and no longer than the text |
| `Sections.CleanSectionTextKeepsPlainText` | src/main/java/com/ynov/recaipes/RecaipesApplication.java:313-328 | Trimmed text starting with neither label nor colon comes through unchanged |
| `Sections.CleanSectionTextOfLabel` | src/main/java/com/ynov/recaipes/RecaipesApplication.java:317-327 | A text that is nothing but its label cleans to the empty string |
| `Sections.LabelOnlySectionCleansToNothing` | src/main/java/com/ynov/recaipes/RecaipesApplication.java:289-328 | A section that is just its label is not blank, so no placeholder replaces it, yet it cleans to nothing |
| `Sections.LimitDescription` | src/main/java/com/ynov/recaipes/RecaipesApplication.java:273-277 | Lengths in UTF-16 units: blank gives the placeholder; up to 950 units pass; a longer body keeps the whole characters of its first 947 units, a prefix of it, and adds "...", 949 or 950 units in all |
| `Sections.LimitDescriptionBmp` | src/main/java/com/ynov/recaipes/RecaipesApplication.java:273-277 | For text inside the Basic Multilingual Plane the long case is exactly the first 947 characters and "...", 950 in all |
| `Sections.CleanDescription` | src/main/java/com/ynov/recaipes/RecaipesApplication.java:265-278 | Never empty, trimmed, at most 950 UTF-16 units, and the limit applied to the trimmed, unlabelled body |
| `Sections.CleanDescriptionKeepsPlainText` | src/main/java/com/ynov/recaipes/RecaipesApplication.java:265-278 | A trimmed description of at most 950 UTF-16 units starting with neither label nor colon comes through unchanged |
| `StorageService.NewStorage` | src/main/java/com/ynov/recaipes/service/StorageService.java:28-33 | S3 is enabled exactly when a client is present and the bucket name is non-empty; a client with a null bucket name throws |
| `StorageService.UploadFile` | src/main/java/com/ynov/recaipes/service/StorageService.java:36-65 | A directory failure throws first; otherwise a put is made exactly when S3 is enabled, under uuid-name; its URL is the result when it succeeds, and "file://" + the absolute path otherwise |
| `StorageService.DisabledIgnoresS3` | src/main/java/com/ynov/recaipes/service/StorageService.java:47-64 | Without S3 the result is the local URL whatever S3 would have answered |
| `StorageService.RecipePdfKey` | src/main/java/com/ynov/recaipes/service/StorageService.java:49 | A recipe PDF's key is the bucket's recipe-PDF name, and a student-bucket URL ending in that key yields the recipe id on extraction |
| `TitleCleaning.StripLeadingMarkup` | src/main/java/com/ynov/recaipes/RecaipesApplication.java:253 | A tail of the text that does not start with markup |
| `TitleCleaning.CollapseSpaces` | src/main/java/com/ynov/recaipes/RecaipesApplication.java:255 | Empty exactly for empty text, no two adjacent spaces, and only plain spaces remain; non-space ends are kept |
| `TitleCleaning.CollapseSpacesOfCollapsed` | src/main/java/com/ynov/recaipes/RecaipesApplication.java:255 | Collapsing leaves already collapsed text alone |
| `TitleCleaning.Capitalize` | src/main/java/com/ynov/recaipes/RecaipesApplication.java:256-258 | The first character's upper-case text followed by the rest unchanged: the same length except for ß ("SS") and ŉ ("ʼN"), and a first character that upper-casing leaves alone |
| `TitleCleaning.CapitalizeExamples` | src/main/java/com/ynov/recaipes/RecaipesApplication.java:256-258 | "œufs" becomes "Œufs", and a leading ß becomes "SS" |
| `TitleCleaning.CleanTitle` | src/main/java/com/ynov/recaipes/RecaipesApplication.java:246-260 | Never empty, no markup at either end, single spaces only, a first character that upper-casing leaves alone |
| `TitleCleaning.CleanTitleOfCleanTitle` | src/main/java/com/ynov/recaipes/RecaipesApplication.java:246-260 | A title already in that form and starting with no label is its own cleaning |
| `TitleCleaning.CleanTitleCapitalizes` | src/main/java/com/ynov/recaipes/RecaipesApplication.java:246-260 | A title with clean ends, single spaces and no leading label is cleaned by capitalising its first character and nothing else |
| `TitleCleaning.CleanTitleOfLigature` | src/main/java/com/ynov/recaipes/RecaipesApplication.java:246-260 | A title such as "œufs brouillés", otherwise clean, comes out starting with Œ |
| `TitleCleaning.NoTitleLabelBeforeNonLetter` | src/main/java/com/ynov/recaipes/RecaipesApplication.java:252 | No title label matches at a character that is not an ASCII letter |
| `TitleCleaning.CleanTitleDropsOneLabel` | src/main/java/com/ynov/recaipes/RecaipesApplication.java:251-252 | One leading label and the space after it are removed, and nothing more |
| `TitleExtraction.ChoosePattern` | src/main/java/com/ynov/recaipes/RecaipesApplication.java:214-227 | The first pattern whose candidate passes the checks (non-empty, at most 200 UTF-16 units, no section word in its lower case), and none when no pattern's does |
| `TitleExtraction.ChooseLine` | src/main/java/com/ynov/recaipes/RecaipesApplication.java:228-238 | The first line whose trimmed text passes the line checks (4 to 200 UTF-16 units, no filler opening in its lower case), and none when no line's does |
| `TitleExtraction.ExtractTitle` | src/main/java/com/ynov/recaipes/RecaipesApplication.java:202-241 | The title has the shape of a cleaned title; a blank text gives "Recipe Without Name" |
| `TitleExtraction.ExtractTitleByPattern` | src/main/java/com/ynov/recaipes/RecaipesApplication.java:214-225 | The first pattern whose candidate passes decides the title |
| `TitleExtraction.ExtractTitleByLine` | src/main/java/com/ynov/recaipes/RecaipesApplication.java:228-237 | When no pattern's candidate passes, the first acceptable line decides |
| `TitleExtraction.ExtractTitleFallback` | src/main/java/com/ynov/recaipes/RecaipesApplication.java:239-240 | With neither, the title is "Delicious Recipe" |

## Left out

- Outside services are parameters: OpenAI, the bucket's REST exchanges, S3 puts and the clock and UUIDs. They are passed in as outcomes, functions or values.
- The HTTP plumbing, the JPA repositories, and PDF rendering with iText are not modelled. Only the "recipe_<id>.pdf" naming of `PdfService` is used.
- Logging is left out: every `System.out` and `System.err` line.
- Concurrency is left out: the per-user lock map, `synchronized`, `@Async`, `CompletableFuture` and `ConcurrentHashMap`. Everything runs sequentially.
- Pauses: `Thread.sleep` is counted as a pause rather than timed.
- The bucket's post-delete HEAD check only logs, so it is left out.
- The local provider's `getFileUrl` depends on path resolution by the file system, so it is left out.
- Image download: `StorageService.downloadImage` is I/O, so it is left out.
- Repository reads: `getAllRecipes`, `getRecipesByUser` and `getRecipeStats` are repository reads with nothing to decide, so they are left out.
- Repository `save` and `delete` failures are not modelled. A failing `deleteFiles` step is not modelled either, since `StorageService` defines no such method, nor a `findByRecipeId` that finds several rows.
- A null id, a null request list, a null theme, a null request URI and a null job id are not modelled, because nothing passes them.
- The text of Java's exception messages is not modelled: helpful `NullPointerException` texts and `ClassCastException` texts. Their messages are left unset.
- Delete errors: `Files.delete` failing with an `IOException` after the existence check is not modelled.
- Path errors: `Paths.get` rejecting a path is not modelled.
- Decoded JSON numbers are integers only. Floating-point values in a bucket response are not modelled.
- ExternalBucket.JsonValue has no object or array case. A nested map or list in a bucket response is not modelled: neither `String.valueOf` of one (as an `idExterne` or `id`) nor the `(String)` cast of one (as a `url`, `fileUrl` or `fileName`), which would throw.
- The legacy parser's `NullPointerException` on a null text is not modelled.
- OncePerRequestFilter re-entry and dispatch types are not modelled.
- RecipeService.GenerateRecipe: it does not model a failing repository save, or an id that the first save assigns differently from `newId`.
- JavaText.ToLowerChar and JavaText.ToUpperChar: these cover Basic Latin, Latin-1 Supplement and Latin Extended-A (up to U+017F), with µ, ı, ſ and İ, and `UpperText` adds ß and ŉ. Letters above U+017F (Greek, Cyrillic, Latin Extended-B and beyond) are left as they are, because French and English text uses none of them. The locale is taken to be neither Turkish, Azeri nor Lithuanian, and the Greek final-sigma rule is not modelled.
- BatchGeneration.Slug: inherits the case-mapping range of `ToLowerChar`; a theme with a letter above U+017F keeps that letter's case.
- RecipeService.ReuseCheck: inherits the case-mapping range of `ToLowerChar`; a title and dish name that differ only in the case of a letter above U+017F are not matched, where Java matches them.
- TitleCleaning.Capitalize: inherits the case-mapping range of `ToUpperChar`; a first letter above U+017F is left as it is.
- TitleCleaning.CleanTitle: inherits the case-mapping range of `ToUpperChar` through `Capitalize`.
- Sections.LimitDescription: Dafny strings hold whole characters, so a cut at 947 units that falls inside a surrogate pair drops the whole character and yields 949 units, where Java keeps the lone high surrogate and yields 950.
- Sections.CleanDescription: the same surrogate-pair cut as `LimitDescription`.
- JavaText.Split: its contract states only the case without a separator. The rest is stated by the lemmas in `TextLaws`.
- ExternalBucket.ExtractFileIdFromUrl: its own contract covers only when no id comes back. The three URL shapes are stated by `PublicFileIdRoundTrip`, `StudentBucketRecipeId` and `LastSegmentId` for the URLs the system builds.
- ExternalBucket.SearchHits: it states only that every id found is named by an entry. Completeness is stated by `SearchFindsEveryNamedEntry` when no entry has a null file name; such an entry makes `equals` throw and ends the search early.
- LegacyParser.LegacySection: its contract covers trimming and the absent label. The extent of a found section is stated by `LegacySectionReachesEndLabel` and `LegacySectionBeginsWithLabel`.
- Sections.ExtractSection: its contract covers trimming and the absent label. A found section's start, end and one-line extent are stated by `SectionBeginsWithLabel`, `LabelAloneOnItsLine` and `EndBoundedSectionIsOneLine`.
- TitleExtraction.ExtractTitle: the spans matched by the six title recognisers are not characterised by a contract of their own. The title is stated in terms of the candidate the recognisers compute.

# Recipe app core in Dafny

This project models the two pieces of the Recipe app that hold its data rules:

- **The client-side normaliser of TheMealDB records.** `MealAPI.transformMealData` turns a raw catalog record into the recipe the screens render. It builds ingredient lines from the twenty numbered `strIngredientN` / `strMeasureN` slots, splits the instructions into steps and derives the description, cooking time, servings and category. The null filter that ends `MealAPI.getRandomMeals` is modelled alongside it.
- **The favorites store behind the three Express handlers.** `addToFavorite`, `deletefav` and `getUserfav` work over the `favorites` table. The table is a class whose rows the handlers append to, delete from and read.

Modules:

| file | module | what it holds |
|---|---|---|
| `wrappers.dfy` | `Wrappers` | `Option` (JavaScript `null`/`undefined`) and string truthiness |
| `seqs.dfy` | `Seqs` | order-preserving `Filter` (shared by `Array.prototype.filter` and SQL `WHERE`), and `Collect`/`Selected` over the numbered positions 1..n |
| `text.dfy` | `Text` | `String.prototype.trim` over JavaScript's WhiteSpace and LineTerminator set, `split(/\r?\n/)`, and the decimal rendering of a number in a template literal |
| `meal_api.dfy` | `MealApi` | the record, the recipe, the ingredient loop, the instruction split, `transformMealData`, the null filter |
| `favorites.dfy` | `Favorites` | the table row, the handler responses, the `FavoriteTable` class and its three handlers |

A raw record is a map from field name to `Option<string>`. A key that is absent is `undefined`; a key mapped to `None` holds JSON `null`. `Math.random()` is passed in as a real `random` in [0, 1), so the cooking time is a function of that draw.

Two behaviours of the code are worth stating outright, since a reader might expect otherwise:

- `transformMealData` checks no field. Any non-null record gives a recipe, even one without `idMeal` or `strMeal`; only a falsy record gives `null`.
- The store has no uniqueness on (user, recipe). Saving the same recipe twice leaves two rows. `Favorites.SaveTwice` and `Favorites.AppendedRowsMatch` state this as the code behaves.

## Model

| member | source | states |
|---|---|---|
| MealApi.Lookup | mobile/services/mealApi.ts:86-87 | a present key reads its stored value (a string, or `None` for JSON null); a missing key reads as `None` (undefined) |
| MealApi.IngredientKey | mobile/services/mealApi.ts:86 | the field name `strIngredient` followed by the decimal slot number |
| MealApi.MeasureKey | mobile/services/mealApi.ts:87 | the field name `strMeasure` followed by the decimal slot number |
| MealApi.HasIngredient | mobile/services/mealApi.ts:88 | the guard `ingredient && ingredient.trim()`: the slot's ingredient is a non-empty string that is not blank after trim |
| MealApi.SlotLine | mobile/services/mealApi.ts:89-90 | the line built from one slot's ingredient and measure |
| MealApi.SlotKeysDistinct | mobile/services/mealApi.ts:86-87 | `strIngredientN` never equals a `strMeasureM` name, and different slot numbers give different names, so each slot reads its own two fields |
| MealApi.IngredientLine | mobile/services/mealApi.ts:89-90 | with a non-blank measure the line is the trimmed measure, one space, then the trimmed name; otherwise it is the trimmed name alone |
| MealApi.IngredientLineIsTrimmed | mobile/services/mealApi.ts:88-90 | for a non-blank ingredient the line is non-empty and is its own trim, whatever the measure (no empty or dangling measure prefix) |
| MealApi.IngredientsThrough | mobile/services/mealApi.ts:84-92 | slots 1..n give at most n lines |
| MealApi.ContributingSlots | mobile/services/mealApi.ts:85-88 | a slot contributes exactly when it lies in 1..n and its ingredient is truthy and non-blank after trim; the slots come in strictly ascending order |
| MealApi.IngredientsFollowSlots | mobile/services/mealApi.ts:84-92 | one line per contributing slot and no other: line k is the line of the k-th contributing slot |
| MealApi.IngredientLinesTrimmed | mobile/services/mealApi.ts:88-90 | every ingredient line is non-empty and already trimmed |
| MealApi.ExtractIngredients | mobile/services/mealApi.ts:84-92 | the loop over slots 1..20 produces exactly the specified lines, at most 20, line k from the k-th contributing slot |
| MealApi.Steps | mobile/services/mealApi.ts:94 | there are never more steps than split segments |
| MealApi.Instructions | mobile/services/mealApi.ts:93-95 | falsy instructions give no steps; otherwise there are at most as many steps as segments |
| MealApi.NonBlank | mobile/services/mealApi.ts:94 | the filter test `step.trim()`: the trimmed step is not empty |
| MealApi.StepsAreNonBlankSegments | mobile/services/mealApi.ts:94 | a string is a step exactly when it is a split segment that is not blank after trim (both directions) |
| MealApi.InstructionStepsAreLines | mobile/services/mealApi.ts:93-95 | no step holds a line feed and no step is blank |
| MealApi.StepsOfFirstLine | mobile/services/mealApi.ts:94 | the first line, without a CR before its LF, is a step unless blank, and the steps of the rest follow in order |
| MealApi.StepsOfPlainFirstLine | mobile/services/mealApi.ts:94 | a first line without CR is a step unless blank, and the steps of the rest follow in order |
| MealApi.StepsOfLastLine | mobile/services/mealApi.ts:94 | a final line without LF is one step unless blank |
| MealApi.StepsOfCrLfLine | mobile/services/mealApi.ts:94 | a line ended by CR LF becomes a step without the CR |
| MealApi.StepsSkipEmptyLine | mobile/services/mealApi.ts:94 | an empty line contributes no step |
| MealApi.StepsOfEmptyText | mobile/services/mealApi.ts:94 | empty instructions text gives no step |
| MealApi.StepsAfterEmptyLine | mobile/services/mealApi.ts:94 | an empty line before a last non-blank line leaves that line as the only step |
| MealApi.StepsJoinLines | mobile/services/mealApi.ts:94 | for LF-joined lines without CR, the steps are exactly the non-blank lines, in order |
| MealApi.StepsJoinLinesStep | mobile/services/mealApi.ts:94 | a line without CR put before LF-joined lines adds itself as the first step unless blank, and the other steps follow unchanged |
| MealApi.StepsAroundEmptyLine | mobile/services/mealApi.ts:94 | a line, an empty line and a last line give those two lines as steps |
| MealApi.StepsOfThreeLines | mobile/services/mealApi.ts:94 | mixed CR LF / LF endings with an empty line give exactly the three non-blank lines |
| MealApi.InstructionsExample | mobile/services/mealApi.ts:93-95 | `"Step one\r\nStep two\n\nStep three"` gives exactly `["Step one", "Step two", "Step three"]` |
| MealApi.Description | mobile/services/mealApi.ts:100 | falsy instructions give the fallback text; otherwise the first min(length, 120) characters followed by "..." (always appended), at most 123 characters |
| MealApi.CookingMinutes | mobile/services/mealApi.ts:102 | for every draw in [0, 1) the estimate lies between 20 and 90 minutes |
| MealApi.Category | mobile/services/mealApi.ts:104 | a truthy category is kept; otherwise "Main Course" |
| MealApi.TransformMealData | mobile/services/mealApi.ts:82-110 | no recipe exactly when the record is null or undefined; otherwise every field as specified: copied fields, four servings, default category, description, steps, ingredient lines, and "N minutes" |
| MealApi.NonNullMeals | mobile/services/mealApi.ts:42 | a record is kept exactly when a fetch returned it (both directions); never more records than fetches |
| MealApi.NonNullMealsConcat | mobile/services/mealApi.ts:42 | the filter keeps the fetch order |
| MealApi.NonNullMealsAllKept | mobile/services/mealApi.ts:42 | every fetched record is kept exactly when no fetch came back null |
| Wrappers.Truthy | mobile/services/mealApi.ts:88-89 | JavaScript truthiness of a string-or-null value: present and not the empty string |
| Text.IsWhitespace | mobile/services/mealApi.ts:88 | the characters `trim` strips: JavaScript's WhiteSpace and LineTerminator code points |
| Text.TrimStart | mobile/services/mealApi.ts:88 | the result is a suffix of the input and does not start with whitespace |
| Text.TrimEnd | mobile/services/mealApi.ts:88 | the result is a prefix of the input and does not end with whitespace |
| Text.Trim | mobile/services/mealApi.ts:88 | neither end of a non-empty result is whitespace |
| Text.TrimEmptyIffBlank | mobile/services/mealApi.ts:88 | `s.trim()` is empty exactly when `s` is whitespace only (both directions) |
| Text.TrimKeepsVisibleStart | mobile/services/mealApi.ts:94 | text that starts with a visible character does not trim to nothing |
| Text.TrimOfTrimmed | mobile/services/mealApi.ts:89-90 | text with no whitespace at either end is its own trim |
| Text.TrimIdempotent | mobile/services/mealApi.ts:89-90 | trimming twice is trimming once |
| Text.TrimSpaceJoin | mobile/services/mealApi.ts:89-90 | two trimmed, non-empty pieces joined by one space are still trimmed |
| Text.SplitLines | mobile/services/mealApi.ts:94 | the split gives at least one segment and no segment holds an LF |
| Text.DropTrailingCR | mobile/services/mealApi.ts:94 | the result is the input, or the input without one final CR |
| Text.NoTrailingCR | mobile/services/mealApi.ts:94 | a line without CR loses nothing to the optional CR of the separator |
| Text.DropTrailingCRAfterFirst | mobile/services/mealApi.ts:94 | the optional CR of the separator never takes the first character of a longer line |
| Text.SplitFirstCharacter | mobile/services/mealApi.ts:94 | a first character that starts no separator joins the first segment |
| Text.SplitWithoutLineFeed | mobile/services/mealApi.ts:94 | text without LF is a single segment |
| Text.SplitAtFirstLineFeed | mobile/services/mealApi.ts:94 | the first LF ends the first segment, and a CR right before it belongs to the separator |
| Text.JoinSplitLines | mobile/services/mealApi.ts:94 | for text without CR, joining the segments with LF gives the text back |
| Text.DecimalString | mobile/services/mealApi.ts:102 | `${n}` is a non-empty string of digits with no leading zero |
| Text.DecimalRoundTrip | mobile/services/mealApi.ts:102 | reading the rendered digits back gives the number |
| Text.DecimalStringInjective | mobile/services/mealApi.ts:86-87 | different slot numbers render differently |
| Seqs.Filter | mobile/services/mealApi.ts:94 | the filter never lengthens the sequence |
| Seqs.FilterMembers | mobile/services/mealApi.ts:94 | an element is kept exactly when it is present and passes (both directions) |
| Seqs.FilterConcat | mobile/services/mealApi.ts:94 | filtering keeps relative order: it distributes over concatenation |
| Seqs.FilterKeepsAll | mobile/services/mealApi.ts:94 | when everything passes, nothing is removed |
| Seqs.FilterIdempotent | mobile/services/mealApi.ts:94 | filtering twice is filtering once |
| Seqs.FilterPartition | backend/src/controllers/user.controller.ts:30-32 | what passes and what fails together account for the whole sequence |
| Seqs.Collect | mobile/services/mealApi.ts:85-91 | positions 1..n give at most n values |
| Seqs.Selected | mobile/services/mealApi.ts:85-88 | a position is selected exactly when it lies in 1..n and passes; selected positions are strictly ascending |
| Seqs.CollectFollowsSelected | mobile/services/mealApi.ts:85-91 | value k of what is collected comes from the k-th selected position |
| Favorites.Response.Status | backend/src/controllers/user.controller.ts:9-52 | 400 exactly for a rejected request, 201 exactly for a created row, 200 exactly for a removal or a listing |
| Favorites.TruthyNumber | backend/src/controllers/user.controller.ts:9 | JavaScript truthiness of a number: present and not zero |
| Favorites.HasRequiredFields | backend/src/controllers/user.controller.ts:9 | the guard of `addToFavorite`: `userId`, `recipeId` and `title` are all truthy |
| Favorites.MatchesPair | backend/src/controllers/user.controller.ts:31 | the `WHERE` condition of the delete: the row has that user and that recipe |
| Favorites.Matching | backend/src/controllers/user.controller.ts:30-32 | a row is targeted exactly when it is in the table and has that user and that recipe |
| Favorites.Deleted | backend/src/controllers/user.controller.ts:30-32 | a row survives the delete exactly when it was in the table and does not match the pair |
| Favorites.OfUser | backend/src/controllers/user.controller.ts:48-51 | a row is selected exactly when it is in the table and belongs to that user |
| Favorites.FilterKeepsIdsIncreasing | backend/src/controllers/user.controller.ts:30-32 | removing rows keeps the serial ids increasing along the table |
| Favorites.DeletedSize | backend/src/controllers/user.controller.ts:30-32 | a delete removes exactly as many rows as match the pair |
| Favorites.DeletedKeepsOrder | backend/src/controllers/user.controller.ts:30-32 | the rows that remain keep their order |
| Favorites.DeletedNothingMatches | backend/src/controllers/user.controller.ts:30-33 | with no matching row the delete changes nothing (and still reports success) |
| Favorites.DeletedIdempotent | backend/src/controllers/user.controller.ts:30-33 | deleting the same pair twice is deleting it once |
| Favorites.AppendedRowListed | backend/src/controllers/user.controller.ts:12-14 | an inserted row is listed for its user, after that user's earlier rows |
| Favorites.AppendedRowsMatch | backend/src/controllers/user.controller.ts:12-14 | rows inserted for a pair are all kept: nothing makes (user, recipe) unique |
| Favorites.DeletedPairNotListed | backend/src/controllers/user.controller.ts:30-32 | after a delete of (user, recipe), that user's listing holds no row for that recipe |
| Favorites.FavoriteTable.constructor | backend/src/db/schema.ts:7-17 | a new table is empty and its serial counter starts at 1 |
| Favorites.FavoriteTable.AddToFavorite | backend/src/controllers/user.controller.ts:6-15 | 400 and no change unless userId, recipeId and title are truthy; otherwise exactly one row with the next serial id is appended and returned with 201, its id above every earlier id; the serial invariant is kept |
| Favorites.FavoriteTable.DeleteFav | backend/src/controllers/user.controller.ts:24-33 | 400 and no change when a path parameter is missing; otherwise exactly the matching rows are removed and 200 is returned, even if nothing matched |
| Favorites.FavoriteTable.GetUserFav | backend/src/controllers/user.controller.ts:42-52 | 400 when the user is missing; otherwise exactly that user's rows in table order, with the table unchanged |
| Favorites.SaveTwice | backend/src/controllers/user.controller.ts:6-15 | two saves of one pair leave two more rows for that pair, with different ids |
| Favorites.SaveThenUnsave | backend/src/controllers/user.controller.ts:6-52 | a save of one pair gives a row for that pair, the listing that follows contains it, and after the unsave the user's rows hold no row for that recipe |

## Left out

- The catalog calls (`searchMealsByName`, `getMealById`, `getRandomMeal`, `getCategories`, `filterByIngredient`, `filterByCategory`) are HTTP fetches and JSON decoding: network I/O, not modelled. Their results enter the model as records.
- `getRandomMeals`: the `Promise.all` fan-out of `count` concurrent fetches and its error path are not modelled. Only the null filter over the fetched results is.
- `transformMealData`'s `originalData` field is left out: it is the input record itself.
- MealApi.TransformMealData: every record value is a string or null. Numbers and other JSON values in a record are not modelled. Copied fields (`id`, `title`, `image`, `area`) cannot tell `null` from `undefined`.
- MealApi.NonNullMeals: `undefined` results are not modelled. `meal !== null` keeps them, but a fetch here yields a record or `null`.
- MealApi.CookingMinutes: the draw and the arithmetic are exact reals, not IEEE 754 doubles. For draws in [0, 1) both give 20..90.
- MealApi.Description: lengths count characters (code points), not the UTF-16 code units JavaScript's `substring` counts. The two differ only for text outside the Basic Multilingual Plane.
- Text.Trim: the whitespace set is JavaScript's WhiteSpace and LineTerminator code points as listed in `Text.IsWhitespace`. Unicode versions that change the space separator category are not modelled.
- The database layer: the Drizzle query builder, the Postgres connection and every 500 error path are not modelled. A handler either rejects with 400 or succeeds.
- Column widths: `recipe_id` is a 32-bit Postgres `integer` and `id` a 32-bit `serial`, but the model's `int` and `nat` are unbounded. A recipe id out of that range, or a counter past 2^31 - 1, makes Postgres fail with a 500; the model does not capture this.
- `createdAt` (set by the database clock) is not part of the row.
- Result order: SQL gives no order without `ORDER BY`. The model lists and keeps rows in insertion order.
- Favorites.FavoriteTable.DeleteFav: `parseInt` on the path parameter is not modelled. The recipe id arrives already parsed, and a non-numeric segment (NaN) is not covered.
- Favorites.FavoriteTable.AddToFavorite: `recipeId` is modelled as a number. A JSON string in the body (where `"0"` would be truthy) is not covered.
- Routing, authentication and the mobile screens that call these handlers are not part of this model.

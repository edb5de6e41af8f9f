/** The client-side normaliser of TheMealDB records (`MealAPI.transformMealData`)
    and the null filter that ends `MealAPI.getRandomMeals`. */
module MealApi {
  import opened Wrappers
  import opened Seqs
  import opened Text

  /** A raw catalog record as decoded JSON: field name to string value. A field
      mapped to `None` holds JSON `null`; a name that is not a key is `undefined`. */
  type MealRecord = map<string, Option<string>>

  /** The canonical recipe the screens render. */
  datatype Recipe = Recipe(
    id: Option<string>,
    title: Option<string>,
    description: string,
    image: Option<string>,
    cookingTime: string,
    servings: nat,
    category: string,
    area: Option<string>,
    ingredients: seq<string>,
    instructions: seq<string>)

  /** Number of positional `strIngredientN` / `strMeasureN` slots in a record. */
  const MaxSlots: nat := 20
  const DefaultServings: nat := 4
  const DefaultCategory: string := "Main Course"
  const FallbackDescription: string := "Delicious Meal from TheMealDB"
  const DescriptionLength: nat := 120
  const Ellipsis: string := "..."
  const MinCookingMinutes: int := 20
  const MaxCookingMinutes: int := 90

  /** `meal[key]`: the string stored under `key`, or `None` for null and undefined. */
  function Lookup(meal: MealRecord, key: string): (v: Option<string>)
    ensures key in meal ==> v == meal[key]
    ensures key !in meal ==> v == None
  {
    if key in meal then meal[key] else None
  }

  function IngredientKey(slot: nat): string {
    "strIngredient" + DecimalString(slot)
  }

  function MeasureKey(slot: nat): string {
    "strMeasure" + DecimalString(slot)
  }

  /** Each slot reads its own pair of fields, and no slot reads another's. */
  lemma {:induction false} SlotKeysDistinct(i: nat, j: nat)
    ensures IngredientKey(i) != MeasureKey(j)
    ensures i != j ==> IngredientKey(i) != IngredientKey(j) && MeasureKey(i) != MeasureKey(j)
  {
    assert IngredientKey(i)[3] == 'I' && MeasureKey(j)[3] == 'M';
    if IngredientKey(i) == IngredientKey(j) {
      assert IngredientKey(i)[13..] == DecimalString(i) && IngredientKey(j)[13..] == DecimalString(j);
      DecimalStringInjective(i, j);
    }
    if MeasureKey(i) == MeasureKey(j) {
      assert MeasureKey(i)[10..] == DecimalString(i) && MeasureKey(j)[10..] == DecimalString(j);
      DecimalStringInjective(i, j);
    }
  }

  /** The guard `ingredient && ingredient.trim()`: slot `slot` names an ingredient
      that is not blank. */
  predicate HasIngredient(meal: MealRecord, slot: nat) {
    var ingredient := Lookup(meal, IngredientKey(slot));
    Truthy(ingredient) && Trim(ingredient.value) != ""
  }

  /** One ingredient line: the trimmed measure and a space, when the measure is
      present and not blank, then the trimmed ingredient name. */
  function IngredientLine(ingredient: string, measure: Option<string>): (line: string)
    ensures Truthy(measure) && Trim(measure.value) != "" ==>
              line == Trim(measure.value) + " " + Trim(ingredient)
    ensures !(Truthy(measure) && Trim(measure.value) != "") ==> line == Trim(ingredient)
  {
    var measureText := if Truthy(measure) && Trim(measure.value) != "" then Trim(measure.value) + " " else "";
    measureText + Trim(ingredient)
  }

  /** A line for a non-blank ingredient is not empty and has no whitespace at either
      end, whatever the measure: no empty or "null" measure prefix is left over. */
  lemma {:induction false} IngredientLineIsTrimmed(ingredient: string, measure: Option<string>)
    requires Trim(ingredient) != ""
    ensures IngredientLine(ingredient, measure) != []
    ensures Trim(IngredientLine(ingredient, measure)) == IngredientLine(ingredient, measure)
  {
    var line := IngredientLine(ingredient, measure);
    if Truthy(measure) && Trim(measure.value) != "" {
      assert line == Trim(measure.value) + " " + Trim(ingredient);
      assert Trim(line) == line by {
        TrimIdempotent(measure.value);
        TrimIdempotent(ingredient);
        TrimSpaceJoin(Trim(measure.value), Trim(ingredient));
      }
    } else {
      assert line == Trim(ingredient);
      assert Trim(line) == line by {
        TrimIdempotent(ingredient);
      }
    }
  }

  /** The line slot `slot` contributes when it names an ingredient. */
  function SlotLine(meal: MealRecord, slot: nat): string {
    var ingredient := Lookup(meal, IngredientKey(slot));
    IngredientLine(if ingredient.Some? then ingredient.value else "", Lookup(meal, MeasureKey(slot)))
  }

  /** `HasIngredient` and `SlotLine` as functions of the slot number. */
  function Present(meal: MealRecord): nat -> bool {
    (slot: nat) => HasIngredient(meal, slot)
  }

  function LineOf(meal: MealRecord): nat -> string {
    (slot: nat) => SlotLine(meal, slot)
  }

  /** The ingredient lines of slots 1..n, in slot order. */
  function IngredientsThrough(meal: MealRecord, n: nat): (lines: seq<string>)
    ensures |lines| <= n
  {
    Collect(n, Present(meal), LineOf(meal))
  }

  /** The slots among 1..n that contribute a line, in ascending order. */
  function ContributingSlots(meal: MealRecord, n: nat): (slots: seq<nat>)
    ensures forall slot :: slot in slots <==> 1 <= slot <= n && HasIngredient(meal, slot)
    ensures forall k :: 0 <= k < |slots| ==> 1 <= slots[k] <= n
    ensures forall j, k :: 0 <= j < k < |slots| ==> slots[j] < slots[k]
  {
    Selected(n, Present(meal))
  }

  /** Line k of the ingredient list comes from the k-th contributing slot: one line
      per slot with a non-blank ingredient, none for any other slot, in slot order. */
  lemma {:induction false} IngredientsFollowSlots(meal: MealRecord, n: nat)
    ensures |IngredientsThrough(meal, n)| == |ContributingSlots(meal, n)|
    ensures forall k :: 0 <= k < |ContributingSlots(meal, n)| ==>
              IngredientsThrough(meal, n)[k] == SlotLine(meal, ContributingSlots(meal, n)[k])
  {
    CollectFollowsSelected(n, Present(meal), LineOf(meal));
  }

  /** Every ingredient line is non-empty and already trimmed. */
  lemma {:induction false} IngredientLinesTrimmed(meal: MealRecord, n: nat)
    ensures forall k :: 0 <= k < |IngredientsThrough(meal, n)| ==>
              IngredientsThrough(meal, n)[k] != [] &&
              Trim(IngredientsThrough(meal, n)[k]) == IngredientsThrough(meal, n)[k]
  {
    IngredientsFollowSlots(meal, n);
    var lines, slots := IngredientsThrough(meal, n), ContributingSlots(meal, n);
    forall k | 0 <= k < |lines| ensures lines[k] != [] && Trim(lines[k]) == lines[k] {
      var slot := slots[k];
      assert slot in slots && lines[k] == SlotLine(meal, slot);
      IngredientLineIsTrimmed(Lookup(meal, IngredientKey(slot)).value, Lookup(meal, MeasureKey(slot)));
    }
  }

  /** The ingredient loop of `transformMealData`: walks slots 1..20 and appends a
      line for every slot whose ingredient is present and not blank. */
  method ExtractIngredients(meal: MealRecord) returns (ingredients: seq<string>)
    ensures ingredients == IngredientsThrough(meal, MaxSlots)
    ensures |ingredients| == |ContributingSlots(meal, MaxSlots)| <= MaxSlots
    ensures forall k :: 0 <= k < |ingredients| ==>
              ingredients[k] == SlotLine(meal, ContributingSlots(meal, MaxSlots)[k])
  {
    ingredients := [];
    for slot := 1 to MaxSlots + 1
      invariant ingredients == IngredientsThrough(meal, slot - 1)
    {
      assert IngredientsThrough(meal, slot) ==
               IngredientsThrough(meal, slot - 1) + (if HasIngredient(meal, slot) then [SlotLine(meal, slot)] else []);
      var ingredient := Lookup(meal, IngredientKey(slot));
      var measure := Lookup(meal, MeasureKey(slot));
      if Truthy(ingredient) && Trim(ingredient.value) != "" {
        var measureText := if Truthy(measure) && Trim(measure.value) != "" then Trim(measure.value) + " " else "";
        ingredients := ingredients + [measureText + Trim(ingredient.value)];
      }
    }
    IngredientsFollowSlots(meal, MaxSlots);
  }

  /** The filter test `step.trim()` is truthy exactly for the steps that are not
      blank (`StepsAreNonBlankSegments` states the equivalence). */
  predicate NonBlank(step: string) {
    Trim(step) != ""
  }

  /** `text.split(/\r?\n/).filter(step => step.trim())`. */
  function Steps(text: string): (steps: seq<string>)
    ensures |steps| <= |SplitLines(text)|
  {
    Filter(SplitLines(text), NonBlank)
  }

  /** The instruction steps: none when `strInstructions` is falsy. */
  function Instructions(strInstructions: Option<string>): (steps: seq<string>)
    ensures !Truthy(strInstructions) ==> steps == []
    ensures Truthy(strInstructions) ==> |steps| <= |SplitLines(strInstructions.value)|
  {
    if Truthy(strInstructions) then Steps(strInstructions.value) else []
  }

  /** A kept step is exactly a split segment that is not blank. */
  lemma {:induction false} StepsAreNonBlankSegments(text: string, step: string)
    ensures step in Steps(text) <==> step in SplitLines(text) && Trim(step) != ""
  {
    FilterMembers(SplitLines(text), NonBlank);
  }

  /** No instruction step holds a line feed, and none is blank. */
  lemma {:induction false} InstructionStepsAreLines(strInstructions: Option<string>)
    ensures forall step :: step in Instructions(strInstructions) ==> '\n' !in step && !Blank(step)
  {
    if Truthy(strInstructions) {
      FilterMembers(SplitLines(strInstructions.value), NonBlank);
      forall step | step in Instructions(strInstructions) ensures !Blank(step) {
        TrimEmptyIffBlank(step);
      }
    }
  }

  /** Steps come out line by line: the first line (a CR before its LF dropped) is
      kept when it is not blank, and the rest follows in order. */
  lemma {:induction false} StepsOfFirstLine(line: string, rest: string)
    requires '\n' !in line
    ensures Steps(line + "\n" + rest) ==
              (if NonBlank(DropTrailingCR(line)) then [DropTrailingCR(line)] else []) + Steps(rest)
  {
    SplitAtFirstLineFeed(line, rest);
    FilterConcat([DropTrailingCR(line)], SplitLines(rest), NonBlank);
  }

  /** A first line without CR is a step of its own unless blank. */
  lemma {:induction false} StepsOfPlainFirstLine(line: string, rest: string)
    requires '\n' !in line && '\r' !in line
    ensures Steps(line + "\n" + rest) == (if NonBlank(line) then [line] else []) + Steps(rest)
  {
    StepsOfFirstLine(line, rest);
    NoTrailingCR(line);
  }

  /** The last line of the text, which has no LF, is a step of its own unless blank. */
  lemma {:induction false} StepsOfLastLine(line: string)
    requires '\n' !in line
    ensures Steps(line) == if NonBlank(line) then [line] else []
  {
    SplitWithoutLineFeed(line);
  }

  /** Text of LF-separated lines without CR: the steps are the non-blank lines. */
  lemma {:induction false} StepsJoinLines(lines: seq<string>)
    requires forall line :: line in lines ==> '\n' !in line && '\r' !in line
    ensures Steps(JoinLines(lines)) == Filter(lines, NonBlank)
    decreases |lines|
  {
    if |lines| == 0 {
      StepsOfEmptyText();
    } else if |lines| == 1 {
      var line := lines[0];
      assert line in lines;
      assert lines == [line] && JoinLines(lines) == line;
      StepsOfLastLine(line);
      FilterSingle(line, NonBlank);
    } else {
      var first, others := lines[0], lines[1..];
      assert lines == [first] + others;
      assert Steps(JoinLines(lines)) == Filter(lines, NonBlank) by {
        assert first in lines;
        StepsJoinLinesStep(first, others);
        assert Steps(JoinLines(others)) == Filter(others, NonBlank) by {
          assert forall line :: line in others ==> line in lines;
          StepsJoinLines(others);
        }
        FilterConcat([first], others, NonBlank);
        FilterSingle(first, NonBlank);
      }
    }
  }

  /** Empty text has no steps. */
  lemma {:induction false} StepsOfEmptyText()
    ensures Steps("") == []
  {
    assert SplitLines("") == [""];
    EmptyLineIsBlank();
  }

  /** One more line without CR in front of LF-joined lines adds that line as a
      step unless it is blank. */
  lemma {:induction false} StepsJoinLinesStep(first: string, others: seq<string>)
    requires others != [] && '\n' !in first && '\r' !in first
    ensures Steps(JoinLines([first] + others)) ==
              (if NonBlank(first) then [first] else []) + Steps(JoinLines(others))
  {
    var lines := [first] + others;
    var rest := JoinLines(others);
    assert lines[0] == first && lines[1..] == others;
    assert JoinLines(lines) == first + "\n" + rest;
    StepsOfPlainFirstLine(first, rest);
  }

  /** A line ended by CR LF is a step (the CR is not part of it) unless blank. */
  lemma {:induction false} StepsOfCrLfLine(line: string, rest: string)
    requires '\n' !in line
    ensures Steps(line + "\r\n" + rest) == (if NonBlank(line) then [line] else []) + Steps(rest)
  {
    assert line + "\r\n" + rest == (line + "\r") + "\n" + rest;
    StepsOfFirstLine(line + "\r", rest);
    assert (line + "\r")[..|line|] == line;
  }

  /** An empty line contributes no step. */
  lemma {:induction false} StepsSkipEmptyLine(rest: string)
    ensures Steps("\n" + rest) == Steps(rest)
  {
    var text := "\n" + rest;
    assert text[0] == '\n' && text[1..] == rest;
    assert SplitLines(text) == [""] + SplitLines(rest);
    FilterConcat([""], SplitLines(rest), NonBlank);
    FilterSingle("", NonBlank);
    EmptyLineIsBlank();
  }

  lemma {:induction false} EmptyLineIsBlank()
    ensures !NonBlank("")
  {
  }

  /** A non-blank line, an empty line and a last non-blank line give two steps. */
  lemma {:induction false} StepsAroundEmptyLine(b: string, c: string)
    requires '\n' !in b && '\n' !in c && '\r' !in b
    requires NonBlank(b) && NonBlank(c)
    ensures Steps(b + "\n" + ("\n" + c)) == [b, c]
  {
    var tail := "\n" + c;
    StepsAfterEmptyLine(c);
    StepsOfPlainFirstLine(b, tail);
    assert [b] + [c] == [b, c];
  }

  /** An empty line before a last non-blank line leaves that line as the only step. */
  lemma {:induction false} StepsAfterEmptyLine(c: string)
    requires '\n' !in c && NonBlank(c)
    ensures Steps("\n" + c) == [c]
  {
    StepsSkipEmptyLine(c);
    StepsOfLastLine(c);
  }

  /** Three non-blank lines, the first ended by CR LF and the second followed by an
      empty line, give exactly those three steps. */
  lemma {:induction false} StepsOfThreeLines(a: string, b: string, c: string)
    requires '\n' !in a && '\n' !in b && '\n' !in c && '\r' !in b
    requires NonBlank(a) && NonBlank(b) && NonBlank(c)
    ensures Steps(a + "\r\n" + (b + "\n" + ("\n" + c))) == [a, b, c]
  {
    var rest := b + "\n" + ("\n" + c);
    assert Steps(a + "\r\n" + rest) == [a, b, c] by {
      StepsAroundEmptyLine(b, c);
      StepsOfCrLfLine(a, rest);
      assert [a] + [b, c] == [a, b, c];
    }
  }

  /** An example: mixed CR LF and LF line ends, an empty line dropped. */
  lemma {:induction false} InstructionsExample(text: string, a: string, b: string, c: string)
    requires text == "Step one\r\nStep two\n\nStep three"
    requires a == "Step one" && b == "Step two" && c == "Step three"
    ensures Instructions(Some(text)) == [a, b, c]
  {
    ExampleLayout(text, a, b, c);
    ExampleLinesUnbroken(a, b, c);
    ExampleLinesVisible(a, b, c);
    StepsOfThreeLines(a, b, c);
  }

  /** The example text is its three lines joined by CR LF, LF and LF LF. */
  lemma {:induction false} ExampleLayout(text: string, a: string, b: string, c: string)
    requires text == "Step one\r\nStep two\n\nStep three"
    requires a == "Step one" && b == "Step two" && c == "Step three"
    ensures text == a + "\r\n" + (b + "\n" + ("\n" + c))
  {
  }

  /** None of the example lines holds an LF; the middle one holds no CR either. */
  lemma {:induction false} ExampleLinesUnbroken(a: string, b: string, c: string)
    requires a == "Step one" && b == "Step two" && c == "Step three"
    ensures '\n' !in a && '\n' !in b && '\n' !in c && '\r' !in b
  {
  }

  /** Each example line starts with a visible character. */
  lemma {:induction false} ExampleLinesVisible(a: string, b: string, c: string)
    requires a == "Step one" && b == "Step two" && c == "Step three"
    ensures NonBlank(a) && NonBlank(b) && NonBlank(c)
  {
    TrimKeepsVisibleStart(a);
    TrimKeepsVisibleStart(b);
    TrimKeepsVisibleStart(c);
  }

  /** The first 120 characters of the instructions followed by "...", or the
      fallback text when the instructions are falsy. */
  function Description(strInstructions: Option<string>): (d: string)
    ensures !Truthy(strInstructions) ==> d == FallbackDescription
    ensures Truthy(strInstructions) ==>
              var text := strInstructions.value;
              && |d| == (if |text| < DescriptionLength then |text| else DescriptionLength) + |Ellipsis|
              && text[..|d| - |Ellipsis|] + Ellipsis == d
    ensures |d| <= DescriptionLength + |Ellipsis|
  {
    if Truthy(strInstructions) then
      var text := strInstructions.value;
      text[..if |text| < DescriptionLength then |text| else DescriptionLength] + Ellipsis
    else FallbackDescription
  }

  /** `Math.floor(Math.random() * (90 - 20 + 1) + 20)` for a draw `random` in [0, 1). */
  function CookingMinutes(random: real): (minutes: int)
    requires 0.0 <= random < 1.0
    ensures MinCookingMinutes <= minutes <= MaxCookingMinutes
  {
    (random * (MaxCookingMinutes - MinCookingMinutes + 1) as real + MinCookingMinutes as real).Floor
  }

  /** `meal.strCategory || "Main Course"`. */
  function Category(strCategory: Option<string>): (category: string)
    ensures Truthy(strCategory) ==> category == strCategory.value
    ensures !Truthy(strCategory) ==> category == DefaultCategory
  {
    if Truthy(strCategory) then strCategory.value else DefaultCategory
  }

  /** `transformMealData`: no recipe for a null or undefined record, and for every
      other record (no field is checked) a recipe built field by field. `random`
      is the draw of `Math.random()`. */
  method TransformMealData(meal: Option<MealRecord>, random: real) returns (recipe: Option<Recipe>)
    requires 0.0 <= random < 1.0
    ensures recipe.None? <==> meal.None?
    ensures recipe.Some? ==>
              var m, r := meal.value, recipe.value;
              && r.id == Lookup(m, "idMeal")
              && r.title == Lookup(m, "strMeal")
              && r.image == Lookup(m, "strMealThumb")
              && r.area == Lookup(m, "strArea")
              && r.servings == DefaultServings
              && r.category == Category(Lookup(m, "strCategory"))
              && r.description == Description(Lookup(m, "strInstructions"))
              && r.instructions == Instructions(Lookup(m, "strInstructions"))
              && r.ingredients == IngredientsThrough(m, MaxSlots)
              && r.cookingTime == DecimalString(CookingMinutes(random)) + " minutes"
  {
    if meal.None? {
      return None;
    }
    var m := meal.value;
    var ingredients := ExtractIngredients(m);
    var strInstructions := Lookup(m, "strInstructions");
    var instructions := if Truthy(strInstructions) then Filter(SplitLines(strInstructions.value), NonBlank) else [];
    recipe := Some(Recipe(
      id := Lookup(m, "idMeal"),
      title := Lookup(m, "strMeal"),
      description := Description(strInstructions),
      image := Lookup(m, "strMealThumb"),
      cookingTime := DecimalString(CookingMinutes(random)) + " minutes",
      servings := DefaultServings,
      category := Category(Lookup(m, "strCategory")),
      area := Lookup(m, "strArea"),
      ingredients := ingredients,
      instructions := instructions));
  }

  /** `meals.filter(meal => meal !== null)`: the fetched records that are not null. */
  function NonNullMeals(fetched: seq<Option<MealRecord>>): (meals: seq<MealRecord>)
    ensures |meals| <= |fetched|
    ensures forall m :: m in meals <==> Some(m) in fetched
  {
    if fetched == [] then []
    else (if fetched[0].Some? then [fetched[0].value] else []) + NonNullMeals(fetched[1..])
  }

  /** The filter keeps the records in the order of the fetches. */
  lemma {:induction false} NonNullMealsConcat(a: seq<Option<MealRecord>>, b: seq<Option<MealRecord>>)
    ensures NonNullMeals(a + b) == NonNullMeals(a) + NonNullMeals(b)
  {
    if a == [] {
      assert a + b == b;
    } else {
      assert (a + b)[1..] == a[1..] + b;
      NonNullMealsConcat(a[1..], b);
    }
  }

  /** Nothing is lost unless some fetch came back null. */
  lemma {:induction false} NonNullMealsAllKept(fetched: seq<Option<MealRecord>>)
    ensures |NonNullMeals(fetched)| == |fetched| <==> None !in fetched
  {
    if fetched != [] {
      NonNullMealsAllKept(fetched[1..]);
      assert fetched == [fetched[0]] + fetched[1..];
    }
  }
}

/** The live recipe-text parser, `parseRecipeText` of the class
    `RecipeService` declared in `RecaipesApplication.java`. It turns the
    generator's free text into a title, ingredients, instructions and a
    description, substituting fixed placeholders instead of failing. */
module RecipeParser {
  import opened Wrappers
  import opened JavaText
  import opened JavaRegex
  import opened RecipeLabels
  import opened TitleCleaning
  import opened TitleExtraction
  import opened Sections

  datatype ParsedRecipe = ParsedRecipe(
    title: string,
    ingredients: string,
    instructions: string,
    description: string)

  /** One leading byte-order mark is removed before anything else. */
  function StripBom(raw: string): (t: string)
    ensures raw != [] && raw[0] == '\U{FEFF}' ==> t == raw[1..]
    ensures (raw == [] || raw[0] != '\U{FEFF}') ==> t == raw
  {
    if raw != [] && raw[0] == '\U{FEFF}' then raw[1..] else raw
  }

  /** No position of `t` starts one of `labels`. */
  predicate LabelAbsent(t: string, labels: seq<Word>) {
    forall k :: 0 <= k <= |t| ==> AnyAt(t, k, labels).None?
  }

  /** The fallback `parseRecipeText` applies to a blank value. */
  function OrPlaceholder(v: string, placeholder: string): string {
    if Trim(v) == [] then placeholder else v
  }

  /** The title: the extracted one, or "Generated Recipe" when it is blank,
      through `cleanTitle` once more. */
  function ParsedTitle(t: string): (r: string)
    ensures TitleShape(r)
  {
    CleanTitle(OrPlaceholder(ExtractTitle(t), GeneratedTitle))
  }

  /** The ingredients: the section up to the next section label or line end,
      its placeholder when blank, then cleaned of its label and trimmed. */
  function ParsedIngredients(t: string): (r: string)
    ensures Trimmed(r)
    ensures LabelAbsent(t, IngredientsStart) ==> r == IngredientsPlaceholder
  {
    var s := ExtractSection(t, IngredientsStart, Some(IngredientsEnd));
    IngredientsPlaceholderSurvives();
    Trim(CleanSectionText(OrPlaceholder(s, IngredientsPlaceholder), IngredientsStart))
  }

  /** The instructions: the section up to "DESCRIPTION" or line end, its
      placeholder when blank, then cleaned of its label and trimmed. */
  function ParsedInstructions(t: string): (r: string)
    ensures Trimmed(r)
    ensures LabelAbsent(t, InstructionsStart) ==> r == InstructionsPlaceholder
  {
    var s := ExtractSection(t, InstructionsStart, Some(DescriptionLabel));
    InstructionsPlaceholderSurvives();
    Trim(CleanSectionText(OrPlaceholder(s, InstructionsPlaceholder), InstructionsStart))
  }

  /** The description: everything from "DESCRIPTION" to the end of the text,
      its placeholder when blank, then `cleanDescription` and trimmed. */
  function ParsedDescription(t: string): (r: string)
    ensures r != [] && Utf16Length(r) <= DescriptionLimit && Trimmed(r)
    ensures LabelAbsent(t, DescriptionLabel) ==> r == DescriptionPlaceholder
  {
    var s := ExtractSection(t, DescriptionLabel, None);
    var c := CleanDescription(OrPlaceholder(s, DescriptionPlaceholder));
    assert LabelAbsent(t, DescriptionLabel) ==> c == CleanDescription(DescriptionPlaceholder);
    DescriptionPlaceholderSurvives();
    Trim(c)
  }

  /** `parseRecipeText` once the byte-order mark is gone. */
  function ParseText(t: string): ParsedRecipe {
    ParsedRecipe(ParsedTitle(t), ParsedIngredients(t), ParsedInstructions(t), ParsedDescription(t))
  }

  /** `parseRecipeText` (a `null` text behaves as the empty one): the title
      always has the shape of a cleaned title, the description is never empty
      and at most 950 UTF-16 units, every field is trimmed, and a section whose
      label appears nowhere comes out as its placeholder. */
  function ParseRecipeText(raw: string): (p: ParsedRecipe)
    ensures TitleShape(p.title)
    ensures p.description != [] && Utf16Length(p.description) <= DescriptionLimit
    ensures Trimmed(p.ingredients) && Trimmed(p.instructions) && Trimmed(p.description)
    ensures LabelAbsent(StripBom(raw), IngredientsStart) ==> p.ingredients == IngredientsPlaceholder
    ensures LabelAbsent(StripBom(raw), InstructionsStart) ==> p.instructions == InstructionsPlaceholder
    ensures LabelAbsent(StripBom(raw), DescriptionLabel) ==> p.description == DescriptionPlaceholder
  {
    ParseText(StripBom(raw))
  }

  /** The placeholders are left alone by the cleaning applied after them. */
  lemma IngredientsPlaceholderSurvives()
    ensures Trim(CleanSectionText(IngredientsPlaceholder, IngredientsStart)) == IngredientsPlaceholder
  {
    var x := IngredientsPlaceholder;
    assert x[0] == '-' && x[|x| - 1] == 'd';
    assert !FoldsAt(x, 0, "INGR");
    assert WordAt(x, 0, IngredientsStart[0]).None?;
    CleanSectionTextKeepsPlainText(x, IngredientsStart);
  }

  lemma InstructionsPlaceholderSurvives()
    ensures Trim(CleanSectionText(InstructionsPlaceholder, InstructionsStart)) == InstructionsPlaceholder
  {
    var x := InstructionsPlaceholder;
    assert x[0] == '1' && x[|x| - 1] == 'd';
    assert !FoldsAt(x, 0, "INSTRUCTION");
    assert !FoldsAt(x, 0, "PREPARATION");
    assert !FoldsAt(x, 0, "ÉTAPES");
    assert AnyAt(x, 0, InstructionsStart).None?;
    CleanSectionTextKeepsPlainText(x, InstructionsStart);
  }

  lemma DescriptionPlaceholderSurvives()
    ensures Trim(CleanDescription(DescriptionPlaceholder)) == DescriptionPlaceholder
  {
    var x := DescriptionPlaceholder;
    assert x[0] == 'N' && x[|x| - 1] == '.';
    assert !FoldsAt(x, 0, "DESCRIPTION");
    assert !FoldsAt(x, 0, "DESC");
    assert AnyAt(x, 0, DescriptionPrefixes).None?;
    PlaceholderFits();
    CleanDescriptionKeepsPlainText(x);
  }

  /** A leading byte-order mark makes no difference to the result. */
  lemma BomIsIgnored(raw: string)
    requires raw == [] || raw[0] != '\U{FEFF}'
    ensures ParseRecipeText(['\U{FEFF}'] + raw) == ParseRecipeText(raw)
  {
    assert StripBom(['\U{FEFF}'] + raw) == raw;
  }

  /** A text of nothing but spaces and control characters holds no label. */
  lemma BlankHoldsNoLabel(t: string, labels: seq<Word>)
    requires LabelSet(labels)
    requires forall k :: 0 <= k < |t| ==> IsTrimmable(t[k])
    ensures LabelAbsent(t, labels)
  {
    forall k | 0 <= k <= |t|
      ensures AnyAt(t, k, labels).None?
    {
      if AnyAt(t, k, labels).Some? {
        AnyAtSolid(t, k, labels);
        AnyAtDemanding(t, k, labels);
      }
    }
  }

  /** The nameless title goes through `cleanTitle` a second time, which takes
      its leading word for a label. */
  lemma NamelessTitleRecleaned()
    ensures CleanTitle(NamelessTitle) == "Without Name"
  {
    NamelessTitleLabel();
    NamelessTitleTail();
    WithoutNameShape();
    CleanTitleDropsOneLabel(NamelessTitle, 6, "Without Name");
  }

  lemma NamelessTitleTail()
    ensures NamelessTitle[6] == ' ' && NamelessTitle[7..] == "Without Name"
  {
  }

  lemma NamelessTitleLabel()
    ensures AnyAt(NamelessTitle, 0, TitlePrefixes) == Some(6)
  {
    NotLabelledTitle();
    RecipeLabelled();
  }

  lemma NotLabelledTitle()
    ensures WordAt(NamelessTitle, 0, TitlePrefixes[0]).None?
    ensures WordAt(NamelessTitle, 0, TitlePrefixes[1]).None?
  {
    var x := NamelessTitle;
    assert x[0] == 'R';
  }

  lemma RecipeLabelled()
    ensures WordAt(NamelessTitle, 0, TitlePrefixes[2]) == Some(6)
  {
    var x := NamelessTitle;
    assert FoldsAt(x, 0, "RECIPE") by {
      RecipeFolds();
    }
    assert TitlePrefixes[2] == [Text("RECIPE")];
    assert WordAt(x, 6, []) == Some(0);
  }

  lemma RecipeFolds()
    ensures FoldsAt(NamelessTitle, 0, "RECIPE")
  {
    var x := NamelessTitle;
    assert x[0] == 'R' && x[1] == 'e' && x[2] == 'c' && x[3] == 'i' && x[4] == 'p' && x[5] == 'e';
    FoldsAtEach(x, 0, "RECIPE");
  }

  lemma WithoutNameShape()
    ensures TitleShape("Without Name")
  {
    var s := "Without Name";
    assert forall i :: 0 <= i < |s| ==> s[i] == ' ' || !IsSpace(s[i]);
    forall i | 0 <= i < |s| - 1
      ensures !SpacePair(s, i)
    {
      assert i == 7 || !IsSpace(s[i]);
    }
  }

  /** A blank text (after the byte-order mark) yields every placeholder, and
      the title "Without Name": `extractTitle` answers "Recipe Without Name"
      and the final `cleanTitle` strips "Recipe" from it. */
  lemma BlankTextParse(raw: string)
    requires Trim(StripBom(raw)) == []
    ensures ParseRecipeText(raw)
              == ParsedRecipe("Without Name", IngredientsPlaceholder, InstructionsPlaceholder, DescriptionPlaceholder)
  {
    var t := StripBom(raw);
    BlankSections(t);
    BlankTitle(t);
  }

  lemma BlankSections(t: string)
    requires Trim(t) == []
    ensures ParsedIngredients(t) == IngredientsPlaceholder
    ensures ParsedInstructions(t) == InstructionsPlaceholder
    ensures ParsedDescription(t) == DescriptionPlaceholder
  {
    IngredientsLabelSet();
    InstructionsLabelSet();
    DescriptionLabelSet();
    BlankHoldsNoLabel(t, IngredientsStart);
    BlankHoldsNoLabel(t, InstructionsStart);
    BlankHoldsNoLabel(t, DescriptionLabel);
  }

  lemma BlankTitle(t: string)
    requires Trim(t) == []
    ensures ParsedTitle(t) == "Without Name"
  {
    assert ExtractTitle(t) == NamelessTitle;
    NamelessTitleRecleaned();
  }

  /** Under MULTILINE the ingredients section stops at the end of the line its
      label is on: when the label is directly followed by a line break, the
      section is the bare label and the parsed ingredients are empty, not the
      placeholder. */
  lemma IngredientsLabelAloneOnItsLine(t: string, i: nat, n: nat)
    requires FindAny(t, IngredientsStart, 0) == Some(i) && AnyAt(t, i, IngredientsStart) == Some(n)
    requires LineEndAnchor(t, i + n)
    ensures ParsedIngredients(t) == []
  {
    IngredientsLabelSet();
    LabelOnlySectionCleansToNothing(t, IngredientsStart, IngredientsEnd, i, n);
  }

  /** When the extracted title is already in cleaned form and starts with no
      label, the second `cleanTitle` leaves it as it is. */
  lemma TitleCleanedTwice(raw: string)
    requires var x := ExtractTitle(StripBom(raw));
      Trimmed(x) && !IsLineTerminator(x[|x| - 1]) && AnyAt(x, 0, TitlePrefixes).None?
    ensures ParseRecipeText(raw).title == ExtractTitle(StripBom(raw))
  {
    var x := ExtractTitle(StripBom(raw));
    CleanTitleOfCleanTitle(x);
  }
}

/** The labels the recipe parser looks for, the placeholders it substitutes,
    and the two prefix patterns shared by the title and section cleaners. */
module RecipeLabels {
  import opened Wrappers
  import opened JavaText
  import opened JavaRegex

  /** `INGR[EÉ]DIENTS?` */
  const IngredientsStart: seq<Word> :=
    [[Text("INGR"), Either('E', 'É'), Text("DIENT"), Maybe('S')]]

  /** `INSTRUCTIONS|PREPARATION|ÉTAPES`, the end of the ingredients section. */
  const IngredientsEnd: seq<Word> :=
    [[Text("INSTRUCTIONS")], [Text("PREPARATION")], [Text("ÉTAPES")]]

  /** `INSTRUCTIONS?|PREPARATION|ÉTAPES` */
  const InstructionsStart: seq<Word> :=
    [[Text("INSTRUCTION"), Maybe('S')], [Text("PREPARATION")], [Text("ÉTAPES")]]

  /** `DESCRIPTION`, which both ends the instructions and starts the description. */
  const DescriptionLabel: seq<Word> := [[Text("DESCRIPTION")]]

  /** The prefixes `cleanTitle` removes: `TITLE|TITRE|RECIPE|RECETTE|NOM`. */
  const TitlePrefixes: seq<Word> :=
    [[Text("TITLE")], [Text("TITRE")], [Text("RECIPE")], [Text("RECETTE")], [Text("NOM")]]

  /** The prefixes `cleanDescription` removes: `DESCRIPTION|DESC`. */
  const DescriptionPrefixes: seq<Word> := [[Text("DESCRIPTION")], [Text("DESC")]]

  const IngredientsPlaceholder := "- Ingredients not specified"
  const InstructionsPlaceholder := "1. Instructions not specified"
  const DescriptionPlaceholder := "No description available."
  const NamelessTitle := "Recipe Without Name"
  const FallbackTitle := "Delicious Recipe"
  const GeneratedTitle := "Generated Recipe"
  const TitleLimit := 200
  const DescriptionLimit := 950

  /* ---------------------------------------------------- prefix patterns */

  /** `^(L1|L2|...)\s*:?\s*` removed from the start of `s`, if a label is there. */
  function StripLabelPrefix(s: string, labels: seq<Word>): (r: string)
    ensures |r| <= |s| && r == s[|s| - |r|..]
    ensures AnyAt(s, 0, labels).None? ==> r == s
  {
    match AnyAt(s, 0, labels)
    case None => s
    case Some(n) =>
      var a := n + SpaceRun(s, n);
      var b := if a < |s| && s[a] == ':' then a + 1 else a;
      s[b + SpaceRun(s, b)..]
  }

  /** `replaceAll("^:+\\s*", "")` */
  function StripColons(s: string): (r: string)
    ensures |r| <= |s| && r == s[|s| - |r|..]
    ensures r != [] ==> r[0] != ':' || |r| < |s|
  {
    if s != [] && s[0] == ':' then
      var c := ColonRun(s, 0);
      s[c + SpaceRun(s, c)..]
    else s
  }

  /** Where the run of colons starting at `i` ends. */
  function ColonRun(s: string, i: nat): (j: nat)
    requires i <= |s|
    ensures i <= j <= |s|
    decreases |s| - i
  {
    if i < |s| && s[i] == ':' then ColonRun(s, i + 1) else i
  }
}

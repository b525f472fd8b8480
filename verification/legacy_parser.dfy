/** The earlier `parseRecipeText` of `service/RecipeService.java`: the first
    non-empty line is the title, and each section runs from its label to the
    next label or the end of the input. Without MULTILINE, `$` only holds at
    the end of the input, so these sections may span several lines; nothing
    is substituted for a missing section. */
module LegacyParser {
  import opened Wrappers
  import opened JavaText
  import opened JavaRegex
  import opened RecipeLabels
  import opened Sections
  import opened TitleExtraction
  import opened RecipeParser

  /** `INGREDIENTS`, the only ingredients label of this revision. */
  const LegacyIngredients: seq<Word> := [[Text("INGREDIENTS")]]

  /** `INSTRUCTIONS`, which ends the ingredients and starts the instructions. */
  const LegacyInstructions: seq<Word> := [[Text("INSTRUCTIONS")]]

  /** The title used when the text has no line to take one from. */
  const LegacyFallbackTitle := "Recipe"

  /* ----------------------------------------------------------- title */

  /** `(?m)^(.+?)$` found from `k`: the first line start at which the lazy
      group matches. */
  function FirstLine(t: string, k: nat): (r: Option<Span>)
    requires k <= |t|
    ensures r.Some? ==> k <= r.value.start < r.value.end <= |t|
    ensures r.Some? ==> LineStart(t, r.value.start) && RestOfLine(t, r.value.start) == r
    ensures r.Some? ==> forall j :: k <= j < r.value.start ==> !LineStart(t, j) || RestOfLine(t, j).None?
    ensures r.None? ==> forall j :: k <= j < |t| ==> !LineStart(t, j) || RestOfLine(t, j).None?
    decreases |t| - k
  {
    if k == |t| then None
    else if LineStart(t, k) && RestOfLine(t, k).Some? then
      LazyToLineEndSpan(t, k, k + 1);
      RestOfLine(t, k)
    else FirstLine(t, k + 1)
  }

  /** Where the line holding `k` ends: the first line terminator at or after
      `k`, or the end of the text. */
  function LineEnd(t: string, k: nat): (e: nat)
    requires k <= |t|
    ensures k <= e <= |t|
    ensures forall j :: k <= j < e ==> !IsLineTerminator(t[j])
    ensures e == |t| || IsLineTerminator(t[e])
    decreases |t| - k
  {
    if k < |t| && !IsLineTerminator(t[k]) then LineEnd(t, k + 1) else k
  }

  /** The lazy `(.+?)$` stops exactly where the line ends. */
  lemma LazyToLineEndSpan(t: string, s: nat, e: nat)
    requires s < e <= |t| && forall j :: s <= j < e ==> !IsLineTerminator(t[j])
    ensures LazyToLineEnd(t, s, e) == Some(Span(s, LineEnd(t, e)))
    decreases |t| - e
  {
    if !LineEndAnchor(t, e) && e < |t| && !IsLineTerminator(t[e]) {
      LazyToLineEndSpan(t, s, e + 1);
    }
  }

  /** The group `(.+?)$` at a character that is not a line terminator is the
      rest of its line; at a line terminator the group cannot start. */
  lemma RestOfLineIsLine(t: string, k: nat)
    requires k <= |t|
    ensures RestOfLine(t, k).Some? <==> k < |t| && !IsLineTerminator(t[k])
    ensures RestOfLine(t, k).Some? ==> RestOfLine(t, k) == Some(Span(k, LineEnd(t, k)))
  {
    if k < |t| && !IsLineTerminator(t[k]) {
      LazyToLineEndSpan(t, k, k + 1);
    }
  }

  /** The title: the first line that has at least one character, trimmed (it
      may trim to nothing), or "Recipe" when every line is empty. */
  function LegacyTitle(t: string): (r: string)
    ensures Trimmed(r)
    ensures forall j :: 0 <= j < |r| ==> !IsLineTerminator(r[j])
  {
    match FirstLine(t, 0)
    case None => LegacyFallbackTitle
    case Some(sp) =>
      RestOfLineIsLine(t, sp.start);
      var line := t[sp.start..sp.end];
      TrimOfLine(line);
      Trim(line)
  }

  lemma TrimOfLine(s: string)
    requires forall j :: 0 <= j < |s| ==> !IsLineTerminator(s[j])
    ensures forall j :: 0 <= j < |Trim(s)| ==> !IsLineTerminator(Trim(s)[j])
  {
    TrimNoTerminator(s);
  }

  /** The title is the trimmed first line that is not empty. */
  lemma LegacyTitleIsFirstLine(t: string, k: nat)
    requires k < |t| && LineStart(t, k) && !IsLineTerminator(t[k])
    requires forall j :: 0 <= j < k ==> !LineStart(t, j) || IsLineTerminator(t[j])
    ensures LegacyTitle(t) == Trim(t[k..LineEnd(t, k)])
  {
    forall j | 0 <= j < k
      ensures !LineStart(t, j) || RestOfLine(t, j).None?
    {
      RestOfLineIsLine(t, j);
    }
    RestOfLineIsLine(t, k);
    var r := FirstLine(t, 0);
    assert r.Some? && r.value.start == k;
  }

  /** Without any non-empty line the title is "Recipe". */
  lemma LegacyTitleWithoutLines(t: string)
    requires forall j :: 0 <= j < |t| ==> !LineStart(t, j) || IsLineTerminator(t[j])
    ensures LegacyTitle(t) == LegacyFallbackTitle
  {
    forall j | 0 <= j < |t|
      ensures !LineStart(t, j) || RestOfLine(t, j).None?
    {
      RestOfLineIsLine(t, j);
    }
  }

  /* -------------------------------------------------------- sections */

  lemma LegacyLabelSets()
    ensures LabelSet(LegacyIngredients) && LabelSet(LegacyInstructions)
  {
    assert Needed(LegacyIngredients[0][0]) && SolidAtom(LegacyIngredients[0][0]);
    assert Needed(LegacyInstructions[0][0]) && SolidAtom(LegacyInstructions[0][0]);
  }

  /** `(?si)START.*?(?=END|$)` once the label ends at `e`: the lazy `.*?`
      (which crosses lines under DOTALL) stops at the first end label or at
      the end of the input, `$` holding there or before a final line
      terminator. */
  function LegacyStop(t: string, stop: seq<Word>, e: nat): (r: nat)
    requires e <= |t|
    ensures e <= r <= |t|
    ensures AnyAt(t, r, stop).Some? || InputEndAnchor(t, r)
    ensures forall k :: e <= k < r ==> AnyAt(t, k, stop).None? && !InputEndAnchor(t, k)
    decreases |t| - e
  {
    if AnyAt(t, e, stop).Some? || InputEndAnchor(t, e) then e else LegacyStop(t, stop, e + 1)
  }

  /** Where a section that starts at `i` with a label of length `n` ends. */
  function LegacyEnd(t: string, end: Option<seq<Word>>, i: nat, n: nat): (e: nat)
    requires i + n <= |t|
    ensures i + n <= e <= |t|
  {
    match end
    case Some(stop) => LegacyStop(t, stop, i + n)
    case None => |t|
  }

  /** One section of the earlier revision, trimmed, or "" when its label is
      absent; `end == None` is `(?si)DESCRIPTION.*$`, which runs to the end. */
  function LegacySection(t: string, start: seq<Word>, end: Option<seq<Word>>): (r: string)
    ensures Trimmed(r)
    ensures LabelAbsent(t, start) ==> r == []
  {
    match FindAny(t, start, 0)
    case None => []
    case Some(i) => Trim(t[i..LegacyEnd(t, end, i, AnyAt(t, i, start).value)])
  }

  /** A section reaches across line breaks up to the next end label, as long
      as that label is not at the very end of the input. */
  lemma LegacySectionReachesEndLabel(t: string, start: seq<Word>, stop: seq<Word>, i: nat, n: nat, j: nat)
    requires FindAny(t, start, 0) == Some(i) && AnyAt(t, i, start) == Some(n)
    requires i + n <= j && j + 1 < |t| && AnyAt(t, j, stop).Some?
    requires forall k :: i + n <= k < j ==> AnyAt(t, k, stop).None?
    ensures LegacySection(t, start, Some(stop)) == Trim(t[i..j])
  {
    var r := LegacyStop(t, stop, i + n);
    assert forall k :: i + n <= k < j ==> !InputEndAnchor(t, k);
    assert r == j;
    assert LegacyEnd(t, Some(stop), i, n) == j;
  }

  /** A found section begins with its label. */
  lemma LegacySectionBeginsWithLabel(t: string, start: seq<Word>, end: Option<seq<Word>>, i: nat, n: nat)
    requires LabelSet(start) && FindAny(t, start, 0) == Some(i) && AnyAt(t, i, start) == Some(n)
    ensures var r := LegacySection(t, start, end);
      0 < n <= |r| && r[..n] == t[i..i + n]
  {
    AnyAtSolid(t, i, start);
    AnyAtDemanding(t, i, start);
    var s := t[i..LegacyEnd(t, end, i, n)];
    assert LegacySection(t, start, end) == Trim(s);
    assert s[0] == t[i] && s[n - 1] == t[i + n - 1];
    TrimKeepsPrefix(s, n);
    assert s[..n] == t[i..i + n];
  }

  /* ---------------------------------------------------------- parse */

  /** The earlier `parseRecipeText`: no byte-order mark handling, no
      cleaning of labels and no placeholders; an absent section is "". */
  function LegacyParse(t: string): (p: ParsedRecipe)
    ensures Trimmed(p.title) && Trimmed(p.ingredients) && Trimmed(p.instructions) && Trimmed(p.description)
    ensures LabelAbsent(t, LegacyIngredients) ==> p.ingredients == []
    ensures LabelAbsent(t, LegacyInstructions) ==> p.instructions == []
    ensures LabelAbsent(t, DescriptionLabel) ==> p.description == []
  {
    ParsedRecipe(
      LegacyTitle(t),
      LegacySection(t, LegacyIngredients, Some(LegacyInstructions)),
      LegacySection(t, LegacyInstructions, Some(DescriptionLabel)),
      LegacySection(t, DescriptionLabel, None))
  }
}

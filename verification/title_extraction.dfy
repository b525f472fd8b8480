/** `extractTitle`: the six title patterns, tried in order, then a line-based
    fallback. Each regular expression is modelled by a recogniser that tries
    the same alternatives in the same order as `java.util.regex`: a greedy
    `\s*` is tried from its longest extent down, a lazy `.+?` from its
    shortest up. */
module TitleExtraction {
  import opened Wrappers
  import opened JavaText
  import opened JavaRegex
  import opened RecipeLabels
  import opened TitleCleaning

  /* ================================================= title recognisers */

  datatype Span = Span(start: nat, end: nat)

  predicate SpanIn(t: string, r: Option<Span>) {
    r.Some? ==> r.value.start <= r.value.end <= |t|
  }

  /** `(.+?)$` once `t[s..e]` is consumed: stop at the first `$`, extend over
      any character but a line terminator. */
  function LazyToLineEnd(t: string, s: nat, e: nat): (r: Option<Span>)
    requires s < e <= |t|
    ensures SpanIn(t, r)
    decreases |t| - e
  {
    if LineEndAnchor(t, e) then Some(Span(s, e))
    else if e < |t| && !IsLineTerminator(t[e]) then LazyToLineEnd(t, s, e + 1)
    else None
  }

  /** `(.+?)$` starting at `p`. */
  function RestOfLine(t: string, p: nat): (r: Option<Span>)
    requires p <= |t|
    ensures SpanIn(t, r)
  {
    if p < |t| && !IsLineTerminator(t[p]) then LazyToLineEnd(t, p, p + 1) else None
  }

  /** `\s*(.+?)$` at `i`, the greedy `\s*` holding `n` characters on this
      attempt and giving them back one at a time. */
  function SpacesThenRest(t: string, i: nat, n: nat): (r: Option<Span>)
    requires i + n <= |t|
    ensures SpanIn(t, r)
    decreases n
  {
    var r := RestOfLine(t, i + n);
    if r.Some? || n == 0 then r else SpacesThenRest(t, i, n - 1)
  }

  /** `\s*:?\s*(.+?)$` at `j`, the first `\s*` holding `n` characters; `:?`
      first tries to take a colon. */
  function ColonRest(t: string, j: nat, n: nat): (r: Option<Span>)
    requires j + n <= |t|
    ensures SpanIn(t, r)
    decreases n
  {
    var q := j + n;
    var withColon := if q < |t| && t[q] == ':' then SpacesThenRest(t, q + 1, SpaceRun(t, q + 1)) else None;
    var r := if withColon.Some? then withColon else SpacesThenRest(t, q, SpaceRun(t, q));
    if r.Some? || n == 0 then r else ColonRest(t, j, n - 1)
  }

  /** `\s*LABEL\s*:?\s*(.+?)$` (or `\s*LABEL\s*(.+?)$` without the colon) at
      line start `k`, the leading `\s*` holding `a` characters. */
  function LabelledAt(t: string, k: nat, a: nat, tag: Word, colon: bool): (r: Option<Span>)
    requires k + a <= |t|
    ensures SpanIn(t, r)
    decreases a
  {
    var at := k + a;
    var r :=
      match WordAt(t, at, tag)
      case None => None
      case Some(n) =>
        var j := at + n;
        if colon then ColonRest(t, j, SpaceRun(t, j)) else SpacesThenRest(t, j, SpaceRun(t, j));
    if r.Some? || a == 0 then r else LabelledAt(t, k, a - 1, tag, colon)
  }

  /** `(.+?)\*\*` once `t[s..e]` is consumed. */
  function LazyToStars(t: string, s: nat, e: nat): (r: Option<Span>)
    requires s < e <= |t|
    ensures SpanIn(t, r)
    decreases |t| - e
  {
    if e + 2 <= |t| && t[e] == '*' && t[e + 1] == '*' then Some(Span(s, e))
    else if e < |t| && !IsLineTerminator(t[e]) then LazyToStars(t, s, e + 1)
    else None
  }

  /** `\s*\*\*(.+?)\*\*` at line start `k`, the `\s*` holding `a` characters. */
  function BoldAt(t: string, k: nat, a: nat): (r: Option<Span>)
    requires k + a <= |t|
    ensures SpanIn(t, r)
    decreases a
  {
    var at := k + a;
    var r :=
      if at + 2 < |t| && t[at] == '*' && t[at + 1] == '*' && !IsLineTerminator(t[at + 2])
      then LazyToStars(t, at + 2, at + 3)
      else None;
    if r.Some? || a == 0 then r else BoldAt(t, k, a - 1)
  }

  /** The lookahead `(?=\n|INGR|DESCRIPTION)`. */
  predicate TitleStop(t: string, e: nat)
    requires e <= |t|
  {
    (e < |t| && t[e] == '\n') || AnyAt(t, e, [[Text("INGR")], [Text("DESCRIPTION")]]).Some?
  }

  /** `(.+?)(?=\n|INGR|DESCRIPTION)` once `t[s..e]` is consumed. */
  function LazyToStop(t: string, s: nat, e: nat): (r: Option<Span>)
    requires s < e <= |t|
    ensures SpanIn(t, r)
    decreases |t| - e
  {
    if TitleStop(t, e) then Some(Span(s, e))
    else if e < |t| && !IsLineTerminator(t[e]) then LazyToStop(t, s, e + 1)
    else None
  }

  /** `\s*(.+?)(?=\n|INGR|DESCRIPTION)` at line start `k`, the `\s*` holding
      `a` characters. */
  function LeadingAt(t: string, k: nat, a: nat): (r: Option<Span>)
    requires k + a <= |t|
    ensures SpanIn(t, r)
    decreases a
  {
    var s := k + a;
    var r := if s < |t| && !IsLineTerminator(t[s]) then LazyToStop(t, s, s + 1) else None;
    if r.Some? || a == 0 then r else LeadingAt(t, k, a - 1)
  }

  /** The six title patterns of `extractTitle`, in the order they are tried. */
  datatype TitlePattern =
    | Labelled(tag: Word, colon: bool)
    | Bold
    | Leading

  const TitlePatterns: seq<TitlePattern> := [
    Labelled([Text("TITRE")], true),   // (?i)^\s*TITRE\s*:?\s*(.+?)$
    Labelled([Text("RECIPE")], true),  // (?i)^\s*RECIPE\s*:?\s*(.+?)$
    Labelled([Text("NOM")], true),     // (?i)^\s*NOM\s*:?\s*(.+?)$
    Labelled([Text("#")], false),      // (?i)^\s*#\s*(.+?)$
    Bold,                           // (?i)^\s*\*\*(.+?)\*\*
    Leading                         // (?i)^\s*(.+?)(?=\n|INGR|DESCRIPTION)
  ]

  /** The match of a title pattern at `k`, after its `^`. */
  function TitleMatchAt(p: TitlePattern, t: string, k: nat): (r: Option<Span>)
    requires k <= |t|
    ensures SpanIn(t, r)
  {
    var a := SpaceRun(t, k);
    match p
    case Labelled(tag, colon) => LabelledAt(t, k, a, tag, colon)
    case Bold => BoldAt(t, k, a)
    case Leading => LeadingAt(t, k, a)
  }

  /** `Matcher.find` under MULTILINE: the first line start from `k` at which
      the pattern matches. */
  function FindTitle(p: TitlePattern, t: string, k: nat): (r: Option<Span>)
    requires k <= |t|
    ensures SpanIn(t, r)
    decreases |t| - k
  {
    if k == |t| then None
    else if LineStart(t, k) && TitleMatchAt(p, t, k).Some? then TitleMatchAt(p, t, k)
    else FindTitle(p, t, k + 1)
  }

  /** `matcher.group(1).trim()` of the first match, if the pattern matches. */
  function TitleCandidate(t: string, p: TitlePattern): Option<string> {
    match FindTitle(p, t, 0)
    case None => None
    case Some(sp) => Some(Trim(t[sp.start..sp.end]))
  }

  /** The checks a pattern's candidate must pass. */
  predicate AcceptableTitle(c: string) {
    && c != []
    && Utf16Length(c) <= TitleLimit
    && !Contains(ToLowerCase(c), "ingredient")
    && !Contains(ToLowerCase(c), "instruction")
    && !Contains(ToLowerCase(c), "description")
  }

  /** Pattern `i` matches and its candidate passes the checks. */
  predicate AcceptedBy(t: string, i: nat) {
    && i < |TitlePatterns|
    && TitleCandidate(t, TitlePatterns[i]).Some?
    && AcceptableTitle(TitleCandidate(t, TitlePatterns[i]).value)
  }

  /** The checks a whole line must pass in the fallback. */
  predicate AcceptableLine(c: string) {
    && c != []
    && Utf16Length(c) > 3
    && Utf16Length(c) <= TitleLimit
    && !StartsWith(ToLowerCase(c), "créé")
    && !StartsWith(ToLowerCase(c), "voici")
    && !StartsWith(ToLowerCase(c), "cette")
  }

  /** Pattern `k` is the first whose candidate passes the checks. */
  predicate FirstAccepted(t: string, k: nat) {
    AcceptedBy(t, k) && forall m :: 0 <= m < k ==> !AcceptedBy(t, m)
  }

  /** Line `k` is the first whose trimmed text passes the line checks. */
  predicate FirstAcceptableLine(lines: seq<string>, k: nat) {
    && k < |lines|
    && AcceptableLine(Trim(lines[k]))
    && forall m :: 0 <= m < k ==> !AcceptableLine(Trim(lines[m]))
  }

  /** The loop over the patterns, from the `i`-th on: the index of the first
      one whose candidate passes the checks. */
  function ChoosePattern(t: string, i: nat): (r: Option<nat>)
    requires i <= |TitlePatterns|
    ensures r.Some? ==> i <= r.value && AcceptedBy(t, r.value)
    ensures r.Some? ==> forall m :: i <= m < r.value ==> !AcceptedBy(t, m)
    ensures r.None? ==> forall m :: i <= m < |TitlePatterns| ==> !AcceptedBy(t, m)
    decreases |TitlePatterns| - i
  {
    if i == |TitlePatterns| then None
    else if AcceptedBy(t, i) then Some(i)
    else
      var r := ChoosePattern(t, i + 1);
      PatternSkipped(t, i, r);
      r
  }

  lemma PatternSkipped(t: string, i: nat, r: Option<nat>)
    requires !AcceptedBy(t, i)
    requires r.Some? ==> i + 1 <= r.value && forall m :: i + 1 <= m < r.value ==> !AcceptedBy(t, m)
    ensures r.Some? ==> forall m :: i <= m < r.value ==> !AcceptedBy(t, m)
  {
    if r.Some? {
      forall m | i <= m < r.value
        ensures !AcceptedBy(t, m)
      {
        if m > i {
          assert i + 1 <= m;
        }
      }
    }
  }

  /** The loop over the lines, from the `i`-th on: the index of the first
      acceptable one. */
  function ChooseLine(lines: seq<string>, i: nat): (r: Option<nat>)
    requires i <= |lines|
    ensures r.Some? ==> i <= r.value < |lines| && AcceptableLine(Trim(lines[r.value]))
    ensures r.Some? ==> forall m :: i <= m < r.value ==> !AcceptableLine(Trim(lines[m]))
    ensures r.None? ==> forall m :: i <= m < |lines| ==> !AcceptableLine(Trim(lines[m]))
    decreases |lines| - i
  {
    if i == |lines| then None
    else if AcceptableLine(Trim(lines[i])) then Some(i)
    else
      var r := ChooseLine(lines, i + 1);
      LineSkipped(lines, i, r);
      r
  }

  lemma LineSkipped(lines: seq<string>, i: nat, r: Option<nat>)
    requires i < |lines| && !AcceptableLine(Trim(lines[i]))
    requires r.Some? ==> i + 1 <= r.value < |lines| && forall m :: i + 1 <= m < r.value ==> !AcceptableLine(Trim(lines[m]))
    requires r.None? ==> forall m :: i + 1 <= m < |lines| ==> !AcceptableLine(Trim(lines[m]))
    ensures r.Some? ==> forall m :: i <= m < r.value ==> !AcceptableLine(Trim(lines[m]))
    ensures r.None? ==> forall m :: i <= m < |lines| ==> !AcceptableLine(Trim(lines[m]))
  {
    forall m | i <= m < (if r.Some? then r.value else |lines|)
      ensures !AcceptableLine(Trim(lines[m]))
    {
      if m > i {
        assert i + 1 <= m;
      }
    }
  }

  /** `extractTitle` on a non-null text: a blank text has no name; otherwise
      the first pattern whose candidate passes the checks wins, then the first
      acceptable line of `split("\\n")`, then a fixed title. Every title that
      comes out has the shape of a cleaned one. */
  function ExtractTitle(t: string): (r: string)
    ensures TitleShape(r)
    ensures Trim(t) == [] ==> r == NamelessTitle
  {
    if Trim(t) == [] then
      NamelessTitleShape();
      NamelessTitle
    else
      match ChoosePattern(t, 0)
      case Some(k) => CleanTitle(TitleCandidate(t, TitlePatterns[k]).value)
      case None =>
        var lines := Split(t, "\n");
        match ChooseLine(lines, 0)
        case Some(j) => CleanTitle(Trim(lines[j]))
        case None =>
          FallbackTitleShape();
          FallbackTitle
  }

  lemma FallbackTitleShape()
    ensures TitleShape(FallbackTitle)
  {
    var s := FallbackTitle;
    assert forall i :: 0 <= i < |s| ==> s[i] == ' ' || !IsSpace(s[i]);
    forall i | 0 <= i < |s| - 1
      ensures !SpacePair(s, i)
    {
      assert i == 9 || !IsSpace(s[i]);
    }
  }

  /** The first pattern whose candidate passes the checks decides the title. */
  lemma ExtractTitleByPattern(t: string, k: nat)
    requires Trim(t) != [] && FirstAccepted(t, k)
    ensures ExtractTitle(t) == CleanTitle(TitleCandidate(t, TitlePatterns[k]).value)
  {
    ChosenPattern(t, k);
  }

  lemma ChosenPattern(t: string, k: nat)
    requires FirstAccepted(t, k)
    ensures ChoosePattern(t, 0) == Some(k)
  {
    var c := ChoosePattern(t, 0);
    assert c == Some(k);
  }

  lemma NoPatternChosen(t: string)
    requires forall m :: 0 <= m < |TitlePatterns| ==> !AcceptedBy(t, m)
    ensures ChoosePattern(t, 0).None?
  {
  }

  lemma ChosenLine(lines: seq<string>, j: nat)
    requires FirstAcceptableLine(lines, j)
    ensures ChooseLine(lines, 0) == Some(j)
  {
    var c := ChooseLine(lines, 0);
    assert c == Some(j);
  }

  /** When no pattern's candidate passes, the first acceptable line decides. */
  lemma ExtractTitleByLine(t: string, j: nat)
    requires Trim(t) != []
    requires forall m :: 0 <= m < |TitlePatterns| ==> !AcceptedBy(t, m)
    requires FirstAcceptableLine(Split(t, "\n"), j)
    ensures ExtractTitle(t) == CleanTitle(Trim(Split(t, "\n")[j]))
  {
    NoPatternChosen(t);
    ChosenLine(Split(t, "\n"), j);
  }

  /** With neither an accepted pattern nor an acceptable line the title is
      the fixed fallback. */
  lemma ExtractTitleFallback(t: string)
    requires Trim(t) != []
    requires forall m :: 0 <= m < |TitlePatterns| ==> !AcceptedBy(t, m)
    requires forall m :: 0 <= m < |Split(t, "\n")| ==> !AcceptableLine(Trim(Split(t, "\n")[m]))
    ensures ExtractTitle(t) == FallbackTitle
  {
    NoPatternChosen(t);
    assert ChooseLine(Split(t, "\n"), 0).None?;
  }
}

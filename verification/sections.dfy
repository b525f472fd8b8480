/** `extractSection`, `cleanSectionText` and `cleanDescription`: how the
    ingredients, instructions and description are cut out of the text. */
module Sections {
  import opened Wrappers
  import opened JavaText
  import opened JavaRegex
  import opened RecipeLabels

  /** A label set whose words consist of solid characters and need at least
      one of them, as every section label of the parser does. */
  predicate LabelSet(alts: seq<Word>) {
    forall k :: 0 <= k < |alts| ==> SolidWord(alts[k]) && Demanding(alts[k])
  }

  lemma IngredientsLabelSet()
    ensures LabelSet(IngredientsStart)
  {
    var w := IngredientsStart[0];
    assert Needed(w[0]);
    assert SolidAtom(w[0]) && SolidAtom(w[1]) && SolidAtom(w[2]) && SolidAtom(w[3]);
  }

  lemma InstructionsLabelSet()
    ensures LabelSet(InstructionsStart)
  {
    SolidDemandingText("INSTRUCTION", [Maybe('S')]);
    SolidDemandingText("PREPARATION", []);
    SolidDemandingText("ÉTAPES", []);
    var w := InstructionsStart;
    assert w[0] == [Text("INSTRUCTION")] + [Maybe('S')];
    assert w[1] == [Text("PREPARATION")] + [] && w[2] == [Text("ÉTAPES")] + [];
  }

  /** A word that starts with a non-empty literal of solid characters and
      continues with solid atoms is a label word. */
  lemma SolidDemandingText(p: string, rest: Word)
    requires p != [] && forall k :: 0 <= k < |p| ==> Solid(p[k])
    requires forall k :: 0 <= k < |rest| ==> SolidAtom(rest[k])
    ensures SolidWord([Text(p)] + rest) && Demanding([Text(p)] + rest)
  {
    var w := [Text(p)] + rest;
    assert Needed(w[0]);
    assert forall k :: 1 <= k < |w| ==> w[k] == rest[k - 1];
  }

  lemma DescriptionLabelSet()
    ensures LabelSet(DescriptionLabel)
  {
    assert Needed(DescriptionLabel[0][0]);
    assert SolidAtom(DescriptionLabel[0][0]);
  }

  /** `(?si)(START).*?(?=END|$)` under MULTILINE once the label ends at `e`:
      the lazy `.*?` stops at the first position where an end label starts or
      `$` holds, and under MULTILINE `$` holds before every line terminator. */
  function SectionStop(t: string, stop: seq<Word>, e: nat): (r: nat)
    requires e <= |t|
    ensures e <= r <= |t|
    ensures AnyAt(t, r, stop).Some? || LineEndAnchor(t, r)
    ensures forall k :: e <= k < r ==> AnyAt(t, k, stop).None? && !LineEndAnchor(t, k)
    decreases |t| - e
  {
    if AnyAt(t, e, stop).Some? || LineEndAnchor(t, e) then e else SectionStop(t, stop, e + 1)
  }

  /** Where the section that starts at `i` with a label of length `n` ends. */
  function SectionEnd(t: string, end: Option<seq<Word>>, i: nat, n: nat): (e: nat)
    requires i + n <= |t|
    ensures i + n <= e <= |t|
  {
    match end
    case Some(stop) => SectionStop(t, stop, i + n)
    case None => |t|
  }

  /** `extractSection(text, start, end)`: from the first occurrence of a start
      label up to the end of the section, trimmed; `end == None` stands for
      the `null` end pattern, for which `(?si)(START).*$` runs to the end of
      the input. */
  function ExtractSection(t: string, start: seq<Word>, end: Option<seq<Word>>): (r: string)
    ensures Trimmed(r)
    ensures (forall k :: 0 <= k <= |t| ==> AnyAt(t, k, start).None?) ==> r == []
  {
    if t == [] then []
    else
      match FindAny(t, start, 0)
      case None => []
      case Some(i) => Trim(t[i..SectionEnd(t, end, i, AnyAt(t, i, start).value)])
  }

  /** The section found at `i` with a label of length `n`. */
  lemma ExtractedAt(t: string, start: seq<Word>, end: Option<seq<Word>>, i: nat, n: nat)
    requires i <= |t| && FindAny(t, start, 0) == Some(i) && AnyAt(t, i, start) == Some(n) && 0 < n
    ensures i + n <= |t|
    ensures ExtractSection(t, start, end) == Trim(t[i..SectionEnd(t, end, i, n)])
  {
  }

  /** Trimming keeps a prefix that starts and ends with kept characters. */
  lemma TrimKeepsPrefix(s: string, n: nat)
    requires 0 < n <= |s| && !IsTrimmable(s[0]) && !IsTrimmable(s[n - 1])
    ensures n <= |Trim(s)| && Trim(s)[..n] == s[..n]
  {
    assert TrimOffset(s) == 0;
  }

  /** A section found in the text begins with the label that was found. */
  lemma SectionBeginsWithLabel(t: string, start: seq<Word>, end: Option<seq<Word>>, i: nat, n: nat)
    requires LabelSet(start) && FindAny(t, start, 0) == Some(i) && AnyAt(t, i, start) == Some(n)
    ensures var r := ExtractSection(t, start, end);
      0 < n <= |r| && r[..n] == t[i..i + n]
  {
    assert 0 < n && Solid(t[i]) && Solid(t[i + n - 1]) by {
      AnyAtSolid(t, i, start);
      AnyAtDemanding(t, i, start);
    }
    ExtractedAt(t, start, end, i, n);
    LabelSurvivesTrim(t, i, SectionEnd(t, end, i, n), n);
  }

  /** A window of `t` that starts with `n` characters beginning and ending
      with solid ones keeps those `n` characters when trimmed. */
  lemma LabelSurvivesTrim(t: string, i: nat, e: nat, n: nat)
    requires 0 < n && i + n <= e <= |t| && Solid(t[i]) && Solid(t[i + n - 1])
    ensures n <= |Trim(t[i..e])| && Trim(t[i..e])[..n] == t[i..i + n]
  {
    var s := t[i..e];
    assert s[0] == t[i] && s[n - 1] == t[i + n - 1];
    TrimKeepsPrefix(s, n);
    assert s[..n] == t[i..i + n];
  }

  /** With an end label, MULTILINE `$` ends the section at the first line
      terminator: the result never spans two lines. */
  lemma EndBoundedSectionIsOneLine(t: string, start: seq<Word>, stop: seq<Word>)
    requires LabelSet(start)
    ensures var r := ExtractSection(t, start, Some(stop));
      forall k :: 0 <= k < |r| ==> !IsLineTerminator(r[k])
  {
    if t != [] && FindAny(t, start, 0).Some? {
      var i := FindAny(t, start, 0).value;
      var n := AnyAt(t, i, start).value;
      AnyAtSolid(t, i, start);
      AnyAtDemanding(t, i, start);
      var e := SectionStop(t, stop, i + n);
      assert SectionEnd(t, Some(stop), i, n) == e;
      assert ExtractSection(t, start, Some(stop)) == Trim(t[i..e]);
      NoTerminatorBeforeStop(t, stop, i, n);
      TrimNoTerminator(t[i..e]);
    }
  }

  /** From a solid label to where the section stops there is no line terminator. */
  lemma NoTerminatorBeforeStop(t: string, stop: seq<Word>, i: nat, n: nat)
    requires 0 < n && i + n <= |t|
    requires forall k :: i <= k < i + n ==> Solid(t[k])
    ensures forall k :: i <= k < SectionStop(t, stop, i + n) ==> !IsLineTerminator(t[k])
  {
    var e := SectionStop(t, stop, i + n);
    forall k | i + n <= k < e
      ensures !IsLineTerminator(t[k])
    {
      assert !LineEndAnchor(t, k);
      if k - 1 >= i + n {
        assert !LineEndAnchor(t, k - 1);
      } else {
        assert Solid(t[k - 1]);
      }
    }
  }

  lemma TrimNoTerminator(s: string)
    requires forall k :: 0 <= k < |s| ==> !IsLineTerminator(s[k])
    ensures forall k :: 0 <= k < |Trim(s)| ==> !IsLineTerminator(Trim(s)[k])
  {
    var r := Trim(s);
    forall k | 0 <= k < |r|
      ensures !IsLineTerminator(r[k])
    {
      assert r[k] == s[TrimOffset(s) + k];
    }
  }

  /** When the label that opens an end-bounded section is directly followed by
      a line terminator (or ends the text), the section is the label alone. */
  lemma LabelAloneOnItsLine(t: string, start: seq<Word>, stop: seq<Word>, i: nat, n: nat)
    requires LabelSet(start) && FindAny(t, start, 0) == Some(i) && AnyAt(t, i, start) == Some(n)
    requires LineEndAnchor(t, i + n)
    ensures ExtractSection(t, start, Some(stop)) == t[i..i + n]
  {
    LabelUntrimmed(t, start, i, n);
    ExtractedAtLineEnd(t, start, stop, i, n);
  }

  /** A label found in the text is neither empty nor touched by `trim`. */
  lemma LabelUntrimmed(t: string, start: seq<Word>, i: nat, n: nat)
    requires LabelSet(start) && i <= |t| && AnyAt(t, i, start) == Some(n)
    ensures 0 < n && i + n <= |t| && Trim(t[i..i + n]) == t[i..i + n]
  {
    assert 0 < n && Solid(t[i]) && Solid(t[i + n - 1]) by {
      AnyAtSolid(t, i, start);
      AnyAtDemanding(t, i, start);
    }
    SolidWindowTrimmed(t, i, n);
  }

  /** When a line ends right after the label, the section is the label. */
  lemma ExtractedAtLineEnd(t: string, start: seq<Word>, stop: seq<Word>, i: nat, n: nat)
    requires i <= |t| && FindAny(t, start, 0) == Some(i) && AnyAt(t, i, start) == Some(n) && 0 < n
    requires LineEndAnchor(t, i + n)
    ensures ExtractSection(t, start, Some(stop)) == Trim(t[i..i + n])
  {
    ExtractedAt(t, start, Some(stop), i, n);
    assert SectionEnd(t, Some(stop), i, n) == i + n;
  }

  /** A window that begins and ends with solid characters is left alone by
      `trim`. */
  lemma SolidWindowTrimmed(t: string, i: nat, n: nat)
    requires 0 < n && i + n <= |t| && Solid(t[i]) && Solid(t[i + n - 1])
    ensures Trim(t[i..i + n]) == t[i..i + n]
  {
    var s := t[i..i + n];
    assert s[0] == t[i] && s[n - 1] == t[i + n - 1];
    assert Trimmed(s);
  }

  /** The bare label found in the text is matched by the same label again
      once it is cut out. */
  lemma LabelWindow(t: string, labels: seq<Word>, i: nat, n: nat)
    requires i <= |t| && AnyAt(t, i, labels) == Some(n)
    ensures AnyAt(t[i..i + n], 0, labels) == Some(n)
  {
    AnyAtWindow(t, i, i + n, i, labels);
  }

  /** `replaceFirst("(?i)^(PREFIX)\\s*:?\\s*\\n?", "")` */
  function StripSectionLabel(s: string, labels: seq<Word>): (r: string)
    ensures |r| <= |s| && r == s[|s| - |r|..]
    ensures AnyAt(s, 0, labels).None? ==> r == s
  {
    match AnyAt(s, 0, labels)
    case None => s
    case Some(n) =>
      var a := n + SpaceRun(s, n);
      var b := if a < |s| && s[a] == ':' then a + 1 else a;
      var c := b + SpaceRun(s, b);
      var d := if c < |s| && s[c] == '\n' then c + 1 else c;
      s[d..]
  }

  /** `replaceFirst("^\\n?:\\s*", "")` */
  function StripNewlineColon(s: string): (r: string)
    ensures |r| <= |s|
  {
    if |s| >= 2 && s[0] == '\n' && s[1] == ':' then s[2 + SpaceRun(s, 2)..]
    else if |s| >= 1 && s[0] == ':' then s[1 + SpaceRun(s, 1)..]
    else s
  }

  /** `cleanSectionText(text, prefix)` with its single non-null prefix: the
      result is trimmed and no longer than the text. */
  function CleanSectionText(text: string, labels: seq<Word>): (r: string)
    ensures Trimmed(r) && |r| <= |text|
  {
    if text == [] then []
    else
      var a := Trim(StripSectionLabel(text, labels));
      var b := Trim(StripColons(a));
      if StartsWith(b, "\n:") || StartsWith(b, ": ") then Trim(StripNewlineColon(b)) else b
  }

  /** Text that is trimmed and starts with neither the label nor a colon comes
      through `cleanSectionText` unchanged. */
  lemma CleanSectionTextKeepsPlainText(text: string, labels: seq<Word>)
    requires text != [] && Trimmed(text) && text[0] != ':' && AnyAt(text, 0, labels).None?
    ensures CleanSectionText(text, labels) == text
  {
    assert StripColons(text) == text;
    assert !StartsWith(text, "\n:") && !StartsWith(text, ": ");
  }

  /** Text that is nothing but its label cleans to the empty string. */
  lemma CleanSectionTextOfLabel(text: string, labels: seq<Word>)
    requires AnyAt(text, 0, labels) == Some(|text|)
    ensures CleanSectionText(text, labels) == []
  {
    if text != [] {
      LabelStripsAll(text, labels);
      NothingLeftCleans(text, labels);
    }
  }

  lemma LabelStripsAll(text: string, labels: seq<Word>)
    requires AnyAt(text, 0, labels) == Some(|text|)
    ensures StripSectionLabel(text, labels) == []
  {
    assert SpaceRun(text, |text|) == 0;
  }

  lemma NothingLeftCleans(text: string, labels: seq<Word>)
    requires text != [] && StripSectionLabel(text, labels) == []
    ensures CleanSectionText(text, labels) == []
  {
    var e: string := [];
    assert Trimmed(e) && Trim(e) == e;
    assert StripColons(e) == e;
    assert !StartsWith(e, "\n:") && !StartsWith(e, ": ");
  }

  /** A section that is nothing but its label, as when the label is followed
      by a line terminator, cleans to the empty string. */
  lemma LabelOnlySectionCleansToNothing(t: string, start: seq<Word>, stop: seq<Word>, i: nat, n: nat)
    requires LabelSet(start) && FindAny(t, start, 0) == Some(i) && AnyAt(t, i, start) == Some(n)
    requires LineEndAnchor(t, i + n)
    ensures var s := ExtractSection(t, start, Some(stop));
      Trim(s) != [] && CleanSectionText(s, start) == []
  {
    var s := t[i..i + n];
    assert 0 < n && Solid(t[i]) && Solid(t[i + n - 1]) by {
      AnyAtSolid(t, i, start);
      AnyAtDemanding(t, i, start);
    }
    assert ExtractSection(t, start, Some(stop)) == s by {
      LabelAloneOnItsLine(t, start, stop, i, n);
    }
    SolidWindowTrimmed(t, i, n);
    assert AnyAt(s, 0, start) == Some(|s|) by {
      LabelWindow(t, start, i, n);
    }
    CleanSectionTextOfLabel(s, start);
  }

  /** The description once trimmed and stripped of its label and colons, before
      the length limit applies. */
  function DescriptionBody(d: string): (r: string)
    ensures Trimmed(r) && |r| <= |d|
  {
    Trim(StripColons(StripLabelPrefix(Trim(d), DescriptionPrefixes)))
  }

  /** The 950-unit limit of `cleanDescription` and its placeholder. Lengths
      are Java's, in UTF-16 code units: a character outside the Basic
      Multilingual Plane counts twice. A longer body keeps as many whole
      characters as fit in 947 units, followed by "...". */
  function LimitDescription(body: string): (r: string)
    requires Trimmed(body)
    ensures r != [] && Utf16Length(r) <= DescriptionLimit && Trimmed(r)
    ensures body == [] ==> r == DescriptionPlaceholder
    ensures 0 < Utf16Length(body) <= DescriptionLimit ==> r == body
    ensures Utf16Length(body) > DescriptionLimit ==>
              && r == Utf16Prefix(body, DescriptionLimit - 3) + "..."
              && DescriptionLimit - 1 <= Utf16Length(r)
              && |r| > 3 && r[..|r| - 3] == body[..|r| - 3]
  {
    if Utf16Length(body) > DescriptionLimit then
      var kept := Utf16Prefix(body, DescriptionLimit - 3);
      TruncationFits(body, kept);
      kept + "..."
    else if body == [] then
      PlaceholderFits();
      DescriptionPlaceholder
    else body
  }

  /** The description placeholder is a trimmed text well inside the limit. */
  lemma PlaceholderFits()
    ensures DescriptionPlaceholder != [] && Trimmed(DescriptionPlaceholder)
    ensures Utf16Length(DescriptionPlaceholder) <= DescriptionLimit
  {
  }

  /** The kept part of an over-long body is a non-empty prefix of it that
      falls at most one unit short of 947, so with "..." it spans 949 or 950
      units. */
  lemma TruncationFits(body: string, kept: string)
    requires Utf16Length(body) > DescriptionLimit && kept == Utf16Prefix(body, DescriptionLimit - 3)
    requires Trimmed(body)
    ensures kept != [] && Trimmed(kept + "...")
    ensures DescriptionLimit - 1 <= Utf16Length(kept + "...") <= DescriptionLimit
    ensures (kept + "...")[..|kept|] == body[..|kept|]
  {
    KeptIsLong(body, kept);
    assert (kept + "...")[0] == body[0];
    Utf16LengthAppend(kept, "...");
    EllipsisLength();
  }

  /** A cut that stops short of the body's end falls at most one unit short
      of the 947 it aims for. */
  lemma KeptIsLong(body: string, kept: string)
    requires Utf16Length(body) > DescriptionLimit && kept == Utf16Prefix(body, DescriptionLimit - 3)
    ensures |kept| < |body| && DescriptionLimit - 4 <= Utf16Length(kept) && kept != []
  {
    assert kept != body;
    assert Utf16Units(body[|kept|]) <= 2;
  }

  lemma EllipsisLength()
    ensures Utf16Length("...") == 3
  {
    BmpLength("...");
  }

  /** On text in the Basic Multilingual Plane, units and characters agree:
      the body is cut to exactly 947 characters and the result is exactly 950
      long. */
  lemma LimitDescriptionBmp(body: string)
    requires Trimmed(body) && InBmp(body) && |body| > DescriptionLimit
    ensures LimitDescription(body) == body[..DescriptionLimit - 3] + "..."
    ensures |LimitDescription(body)| == DescriptionLimit
  {
    BmpLength(body);
    BmpPrefix(body, DescriptionLimit - 3);
  }

  /** `cleanDescription`: never empty, at most 950 UTF-16 units; a longer body
      keeps its first 947 units' worth of characters followed by "...". */
  function CleanDescription(d: string): (r: string)
    ensures r != [] && Utf16Length(r) <= DescriptionLimit && Trimmed(r)
    ensures r == LimitDescription(DescriptionBody(d))
  {
    if Trim(d) == [] then
      BlankHasNoBody(d);
      DescriptionPlaceholder
    else LimitDescription(DescriptionBody(d))
  }

  lemma BlankHasNoBody(d: string)
    requires Trim(d) == []
    ensures DescriptionBody(d) == [] && LimitDescription([]) == DescriptionPlaceholder
    ensures DescriptionPlaceholder != [] && Trimmed(DescriptionPlaceholder)
    ensures Utf16Length(DescriptionPlaceholder) <= DescriptionLimit
  {
    assert |StripLabelPrefix(Trim(d), DescriptionPrefixes)| == 0;
    PlaceholderFits();
  }

  /** A trimmed description of at most 950 UTF-16 units that starts with
      neither label nor colon comes through unchanged. */
  lemma CleanDescriptionKeepsPlainText(d: string)
    requires d != [] && Trimmed(d) && Utf16Length(d) <= DescriptionLimit
    requires d[0] != ':' && AnyAt(d, 0, DescriptionPrefixes).None?
    ensures CleanDescription(d) == d
  {
    assert StripColons(d) == d;
  }
}

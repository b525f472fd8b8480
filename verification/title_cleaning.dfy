/** `cleanTitle`: a title stripped of its label and markdown markup, with
    runs of spaces collapsed and its first letter upper-cased. */
module TitleCleaning {
  import opened Wrappers
  import opened JavaText
  import opened JavaRegex
  import opened RecipeLabels

  /** The class `[\*#\-\s]`. */
  predicate IsMarkup(c: char) {
    c == '*' || c == '#' || c == '-' || IsSpace(c)
  }

  /** Length of the run of markup characters starting at `i`. */
  function MarkupRun(s: string, i: nat): (n: nat)
    requires i <= |s|
    ensures i + n <= |s|
    ensures forall k :: i <= k < i + n ==> IsMarkup(s[k])
    ensures i + n == |s| || !IsMarkup(s[i + n])
    decreases |s| - i
  {
    if i < |s| && IsMarkup(s[i]) then 1 + MarkupRun(s, i + 1) else 0
  }

  /** `replaceAll("^[\\*#\\-\\s]+", "")` */
  function StripLeadingMarkup(s: string): (r: string)
    ensures r == [] || !IsMarkup(r[0])
    ensures |r| <= |s| && r == s[|s| - |r|..]
  {
    s[MarkupRun(s, 0)..]
  }

  /** Where the run of markup characters ending at `j` begins. */
  function MarkupRunBefore(s: string, j: nat): (i: nat)
    requires j <= |s|
    ensures i <= j
    ensures forall k :: i <= k < j ==> IsMarkup(s[k])
    ensures i == 0 || !IsMarkup(s[i - 1])
    decreases j
  {
    if j > 0 && IsMarkup(s[j - 1]) then MarkupRunBefore(s, j - 1) else j
  }

  /** `replaceAll("[\\*#\\-\\s]+$", "")`. Without MULTILINE, `$` also holds
      just before a line terminator that ends the input; as `\n` and `\r` are
      markup themselves, that only matters when the text ends with U+0085,
      U+2028 or U+2029, which then stays while the markup before it goes. */
  function StripTrailingMarkup(s: string): (r: string)
  {
    var k := MarkupRunBefore(s, |s|);
    if k < |s| then s[..k]
    else if |s| > 0 && InputEndAnchor(s, |s| - 1) then s[..MarkupRunBefore(s, |s| - 1)] + [s[|s| - 1]]
    else s
  }

  /** Two `\s` characters side by side at `i`. */
  predicate SpacePair(s: string, i: nat)
    requires i + 1 < |s|
  {
    IsSpace(s[i]) && IsSpace(s[i + 1])
  }

  /** No two `\s` characters are adjacent, and every one left is a plain space. */
  predicate Collapsed(s: string) {
    && (forall i :: 0 <= i < |s| - 1 ==> !SpacePair(s, i))
    && (forall i :: 0 <= i < |s| && IsSpace(s[i]) ==> s[i] == ' ')
  }

  /** Neither end is a markup character. */
  predicate CleanEnds(s: string) {
    s == [] || (!IsMarkup(s[0]) && !IsMarkup(s[|s| - 1]))
  }

  /** What every cleaned title looks like: its first character is one that
      upper-casing leaves as it is. */
  predicate TitleShape(s: string) {
    s != [] && CleanEnds(s) && Collapsed(s) && UpperText(s[0]) == [s[0]]
  }

  /** `replaceAll("\\s+", " ")`: every run of `\s` becomes one space. */
  function CollapseSpaces(s: string): (r: string)
    ensures r == [] <==> s == []
    ensures s != [] && !IsSpace(s[0]) ==> r[0] == s[0]
    ensures s != [] && !IsSpace(s[|s| - 1]) ==> r[|r| - 1] == s[|s| - 1]
    ensures Collapsed(r)
    decreases |s|
  {
    if s == [] then []
    else if IsSpace(s[0]) then
      var rest := s[SpaceRun(s, 0)..];
      assert rest == [] || !IsSpace(rest[0]);
      var tail := CollapseSpaces(rest);
      ConsCollapsed(' ', tail);
      [' '] + tail
    else
      var tail := CollapseSpaces(s[1..]);
      ConsCollapsed(s[0], tail);
      [s[0]] + tail
  }

  lemma ConsCollapsed(c: char, tail: string)
    requires Collapsed(tail)
    requires IsSpace(c) ==> c == ' ' && (tail == [] || !IsSpace(tail[0]))
    ensures Collapsed([c] + tail)
  {
    var r := [c] + tail;
    forall i | 1 <= i < |r| - 1
      ensures !SpacePair(r, i)
    {
      assert !SpacePair(tail, i - 1);
    }
    forall i | 0 <= i < |r| && IsSpace(r[i])
      ensures r[i] == ' '
    {
      if i > 0 {
        assert r[i] == tail[i - 1];
      }
    }
  }

  /** `title.substring(0, 1).toUpperCase() + title.substring(1)`. A first
      character outside the Basic Multilingual Plane is split by
      `substring(0, 1)`; `toUpperCase` leaves its high surrogate alone and the
      two halves join again, just as `UpperText` leaves such a character. */
  function Capitalize(s: string): (r: string)
    requires s != []
    ensures |r| == |s| + |UpperText(s[0])| - 1 && r[|UpperText(s[0])|..] == s[1..]
    ensures !HasUpperForm(r[0]) && UpperText(r[0]) == [r[0]]
    ensures s[0] != SharpS && s[0] != NPrecededByApostrophe ==> |r| == |s| && r[0] == ToUpperChar(s[0])
  {
    UpperText(s[0]) + s[1..]
  }

  /** Letters beyond Latin-1 are capitalised too, and a sharp s becomes two
      letters. */
  lemma CapitalizeExamples()
    ensures Capitalize("\U{0153}ufs") == "\U{0152}ufs"
    ensures Capitalize("\U{00DF}e") == "SSe"
  {
  }

  /** Upper-casing never turns a character into markup. */
  lemma UpperTextPlain(c: char)
    requires !IsMarkup(c)
    ensures forall j :: 0 <= j < |UpperText(c)| ==> !IsMarkup(UpperText(c)[j])
  {
  }

  /** `replaceAll("^[\\*#\\-\\s]+", "")` followed by `replaceAll("[\\*#\\-\\s]+$", "")`. */
  function StripMarkupEnds(s: string): (r: string)
    ensures CleanEnds(r)
  {
    var x := StripLeadingMarkup(s);
    StripTrailingKeepsEnds(x);
    StripTrailingMarkup(x)
  }

  /** `cleanTitle` up to the collapsing of spaces: trimmed, label removed,
      markup removed from both ends. */
  function TitleCore(title: string): (r: string)
    ensures CleanEnds(r)
  {
    StripMarkupEnds(StripLabelPrefix(Trim(title), TitlePrefixes))
  }

  /** `cleanTitle` on a non-null title: never empty, no markup at either end,
      single spaces only, first letter upper-case. */
  function CleanTitle(title: string): (r: string)
    ensures TitleShape(r)
  {
    var s := CollapseSpaces(TitleCore(title));
    if s == [] then
      NamelessTitleShape();
      NamelessTitle
    else
      CapitalizeKeepsShape(s);
      Capitalize(s)
  }

  lemma NamelessTitleShape()
    ensures TitleShape(NamelessTitle)
  {
    var s := NamelessTitle;
    assert forall i :: 0 <= i < |s| ==> s[i] == ' ' || !IsSpace(s[i]);
    forall i | 0 <= i < |s| - 1
      ensures !SpacePair(s, i)
    {
      assert i == 6 || i == 14 || !IsSpace(s[i]);
    }
  }

  lemma StripTrailingKeepsEnds(s: string)
    requires s == [] || !IsMarkup(s[0])
    ensures var r := StripTrailingMarkup(s);
      && (r == [] <==> s == [])
      && (r != [] ==> r[0] == s[0] && !IsMarkup(r[|r| - 1]))
  {
    var k := MarkupRunBefore(s, |s|);
    if k < |s| {
      if s != [] {
        assert k > 0;
      }
    } else if |s| > 0 && InputEndAnchor(s, |s| - 1) {
      var k' := MarkupRunBefore(s, |s| - 1);
      if |s| > 1 {
        assert k' > 0;
      }
    }
  }

  lemma CapitalizeKeepsShape(s: string)
    requires s != [] && CleanEnds(s) && Collapsed(s)
    ensures TitleShape(Capitalize(s))
  {
    var u := UpperText(s[0]);
    var r := Capitalize(s);
    assert r == u + s[1..];
    UpperTextPlain(s[0]);
    assert forall j :: 0 <= j < |u| ==> r[j] == u[j];
    forall i | 0 <= i < |r| - 1
      ensures !SpacePair(r, i)
    {
      if i >= |u| {
        assert r[i] == s[i - |u| + 1] && r[i + 1] == s[i - |u| + 2];
        assert !SpacePair(s, i - |u| + 1);
      }
    }
    forall i | 0 <= i < |r| && IsSpace(r[i])
      ensures r[i] == ' '
    {
      if i >= |u| {
        assert r[i] == s[i - |u| + 1];
      }
    }
    if |s| > 1 {
      assert r[|r| - 1] == s[|s| - 1];
    } else {
      assert r[|r| - 1] == u[|u| - 1];
    }
  }

  lemma CollapsedTail(s: string)
    requires s != [] && Collapsed(s)
    ensures Collapsed(s[1..])
  {
    var rest := s[1..];
    forall i | 0 <= i < |rest| - 1
      ensures !SpacePair(rest, i)
    {
      assert !SpacePair(s, i + 1);
    }
    forall i | 0 <= i < |rest| && IsSpace(rest[i])
      ensures rest[i] == ' '
    {
      assert rest[i] == s[i + 1];
    }
  }

  /** Collapsing leaves text that is already collapsed alone. */
  lemma {:induction false} CollapseSpacesOfCollapsed(s: string)
    requires Collapsed(s)
    ensures CollapseSpaces(s) == s
    decreases |s|
  {
    if s != [] {
      CollapsedTail(s);
      CollapseSpacesOfCollapsed(s[1..]);
      if IsSpace(s[0]) && |s| > 1 {
        assert !SpacePair(s, 0);
      }
    }
  }

  /** Once the trimmed, unlabelled, unmarked core of a title is already in
      cleaned form, it is the cleaned title. */
  lemma CoreDecidesTitle(x: string, y: string)
    requires TitleCore(x) == y && TitleShape(y)
    ensures CleanTitle(x) == y
  {
    CollapseSpacesOfCollapsed(y);
    assert Capitalize(y) == y;
  }

  /** Markup removal leaves text with clean ends alone, unless it ends with
      a line terminator. */
  lemma StripMarkupEndsOfClean(y: string)
    requires y != [] && CleanEnds(y) && !IsLineTerminator(y[|y| - 1])
    ensures StripMarkupEnds(y) == y
  {
    assert MarkupRun(y, 0) == 0;
    assert StripLeadingMarkup(y) == y;
    assert MarkupRunBefore(y, |y|) == |y|;
    assert !InputEndAnchor(y, |y| - 1);
  }

  /** A title already in cleaned form that starts with no label and does not
      end with a line terminator is its own cleaning. */
  lemma CleanTitleOfCleanTitle(x: string)
    requires TitleShape(x) && Trimmed(x) && !IsLineTerminator(x[|x| - 1])
    requires AnyAt(x, 0, TitlePrefixes).None?
    ensures CleanTitle(x) == x
  {
    assert Trim(x) == x;
    assert StripLabelPrefix(x, TitlePrefixes) == x;
    StripMarkupEndsOfClean(x);
    CoreDecidesTitle(x, x);
  }

  /** A title that only lacks its capital, with clean ends, single spaces and
      no leading label, is cleaned by capitalising it. */
  lemma CleanTitleCapitalizes(x: string)
    requires x != [] && CleanEnds(x) && Collapsed(x) && Trimmed(x) && !IsLineTerminator(x[|x| - 1])
    requires AnyAt(x, 0, TitlePrefixes).None?
    ensures CleanTitle(x) == Capitalize(x)
  {
    assert Trim(x) == x;
    assert StripLabelPrefix(x, TitlePrefixes) == x;
    StripMarkupEndsOfClean(x);
    CollapseSpacesOfCollapsed(x);
  }

  /** A title starting with the ligature œ, such as "œufs brouillés", is
      cleaned to the same title starting with Œ. */
  lemma CleanTitleOfLigature(x: string)
    requires x != [] && x[0] == '\U{0153}'
    requires CleanEnds(x) && Collapsed(x) && Trimmed(x) && !IsLineTerminator(x[|x| - 1])
    ensures CleanTitle(x) == ['\U{0152}'] + x[1..]
  {
    NoTitleLabelBeforeNonLetter(x);
    CleanTitleCapitalizes(x);
  }

  /** Every title label starts with an ASCII letter. */
  lemma NoTitleLabelBeforeNonLetter(x: string)
    requires x != [] && !IsAsciiLetter(x[0])
    ensures AnyAt(x, 0, TitlePrefixes).None?
  {
    var ps := TitlePrefixes;
    forall k | 0 <= k < |ps|
      ensures WordAt(x, 0, ps[k]).None?
    {
      var p := ps[k][0].s;
      assert IsAsciiLetter(p[0]) && AsciiLower(x[0]) != AsciiLower(p[0]);
      assert !FoldsAt(x, 0, p);
    }
    assert AnyAt(x, 0, ps[4..]).None? by {
      assert WordAt(x, 0, ps[4]).None?;
      assert ps[4..][1..] == [];
    }
  }

  /** `cleanTitle` removes one leading label and the space after it, and
      nothing more. */
  lemma CleanTitleDropsOneLabel(x: string, n: nat, y: string)
    requires Trimmed(x) && AnyAt(x, 0, TitlePrefixes) == Some(n)
    requires n + 1 < |x| && x[n] == ' ' && x[n + 1..] == y
    requires TitleShape(y) && y[0] != ':' && !IsLineTerminator(y[|y| - 1])
    ensures CleanTitle(x) == y
  {
    assert Trim(x) == x;
    LabelThenSpace(x, TitlePrefixes, n, y);
    StripMarkupEndsOfClean(y);
    assert TitleCore(x) == y;
    CoreDecidesTitle(x, y);
  }

  lemma LabelThenSpace(x: string, labels: seq<Word>, n: nat, y: string)
    requires AnyAt(x, 0, labels) == Some(n)
    requires n + 1 < |x| && x[n] == ' ' && x[n + 1..] == y
    requires y != [] && !IsSpace(y[0]) && y[0] != ':'
    ensures StripLabelPrefix(x, labels) == y
  {
    assert x[n + 1] == y[0];
    assert SpaceRun(x, n + 1) == 0;
    assert SpaceRun(x, n) == 1;
  }
}

/** The pieces of `java.util.regex` semantics the application's patterns use,
    written as recognisers over a text and a position: the `\s` class, line
    terminators, the `^` and `$` anchors with and without MULTILINE, and
    case-insensitive labels (CASE_INSENSITIVE without UNICODE_CASE, so only
    ASCII letters fold). */
module JavaRegex {
  import opened Wrappers
  import opened JavaText

  /** `\s` without UNICODE_CHARACTER_CLASS: `[ \t\n\x0B\f\r]`. */
  predicate IsSpace(c: char) {
    c == ' ' || c == '\t' || c == '\n' || c == '\U{000B}' || c == '\U{000C}' || c == '\r'
  }

  /** The line terminators `.`, `^` and `$` recognise when UNIX_LINES is off. */
  predicate IsLineTerminator(c: char) {
    c == '\n' || c == '\r' || c == '\U{0085}' || c == '\U{2028}' || c == '\U{2029}'
  }

  /** How many characters a greedy `\s*` at `i` first consumes. */
  function SpaceRun(t: string, i: nat): (n: nat)
    requires i <= |t|
    ensures i + n <= |t|
    ensures forall k :: i <= k < i + n ==> IsSpace(t[k])
    ensures i + n == |t| || !IsSpace(t[i + n])
    decreases |t| - i
  {
    if i < |t| && IsSpace(t[i]) then 1 + SpaceRun(t, i + 1) else 0
  }

  /** `^` under MULTILINE: at the start of input or after a line terminator,
      never between `\r` and `\n`, and never at the end of input. */
  predicate LineStart(t: string, i: nat) {
    i < |t| && (i == 0 || (IsLineTerminator(t[i - 1]) && !(t[i - 1] == '\r' && t[i] == '\n')))
  }

  /** `$` under MULTILINE: at the end of input or before a line terminator,
      never between `\r` and `\n`. */
  predicate LineEndAnchor(t: string, i: nat)
    requires i <= |t|
  {
    i == |t| || (IsLineTerminator(t[i]) && !(t[i] == '\n' && i > 0 && t[i - 1] == '\r'))
  }

  /** `$` without MULTILINE: at the end of input, or before a line terminator
      (or a `\r\n` pair) that ends the input. */
  predicate InputEndAnchor(t: string, i: nat)
    requires i <= |t|
  {
    || i == |t|
    || (i == |t| - 1 && IsLineTerminator(t[i]) && !(t[i] == '\n' && i > 0 && t[i - 1] == '\r'))
    || (i + 2 == |t| && t[i] == '\r' && t[i + 1] == '\n')
  }

  /* ----------------------------------------------------------- labels */

  /** One element of a case-insensitive label. */
  datatype Atom =
    | Text(s: string)          // a literal run of characters
    | Either(a: char, b: char) // a two-character class such as `[EÉ]`
    | Maybe(c: char)           // an optional literal such as `S?`, greedy

  type Word = seq<Atom>

  /** `p` occurs at `i` under case-insensitive comparison. */
  predicate FoldsAt(t: string, i: nat, p: string)
    decreases |p|
  {
    p == [] || (i < |t| && FoldMatches(p[0], t[i]) && FoldsAt(t, i + 1, p[1..]))
  }

  /** Length of the match of `w` at `i`, if any. The greedy `Maybe` gives its
      character back when the rest of the word fails. Backtracking into the
      word from whatever follows it is not needed: every pattern that uses a
      `Maybe` continues with something that cannot fail. */
  function WordAt(t: string, i: nat, w: Word): (r: Option<nat>)
    requires i <= |t|
    ensures r.Some? ==> i + r.value <= |t|
    decreases |w|
  {
    if w == [] then Some(0)
    else
      match w[0]
      case Text(p) =>
        if i + |p| <= |t| && FoldsAt(t, i, p) then Plus(|p|, WordAt(t, i + |p|, w[1..]), t, i) else None
      case Either(a, b) =>
        if i < |t| && (FoldMatches(a, t[i]) || FoldMatches(b, t[i])) then Plus(1, WordAt(t, i + 1, w[1..]), t, i) else None
      case Maybe(c) =>
        var taken := if i < |t| && FoldMatches(c, t[i]) then Plus(1, WordAt(t, i + 1, w[1..]), t, i) else None;
        if taken.Some? then taken else WordAt(t, i, w[1..])
  }

  function Plus(n: nat, r: Option<nat>, t: string, i: nat): (r': Option<nat>)
    requires i + n <= |t|
    requires r.Some? ==> i + n + r.value <= |t|
    ensures r'.Some? ==> i + r'.value <= |t|
  {
    match r
    case Some(m) => Some(m + n)
    case None => None
  }

  /** The first alternative of `alts` that matches at `i` (Java tries the
      branches of `A|B|C` in order), as the length of its match. */
  function AnyAt(t: string, i: nat, alts: seq<Word>): (r: Option<nat>)
    requires i <= |t|
    ensures r.Some? ==> i + r.value <= |t|
    decreases |alts|
  {
    if alts == [] then None
    else
      var first := WordAt(t, i, alts[0]);
      if first.Some? then first else AnyAt(t, i, alts[1..])
  }

  /** `Matcher.find` for an alternation whose continuation cannot fail: the
      least position at or after `from` where one of the alternatives matches. */
  function FindAny(t: string, alts: seq<Word>, from: nat): (r: Option<nat>)
    requires from <= |t|
    ensures r.Some? ==> from <= r.value <= |t| && AnyAt(t, r.value, alts).Some?
    ensures r.Some? ==> forall k :: from <= k < r.value ==> AnyAt(t, k, alts).None?
    ensures r.None? ==> forall k :: from <= k <= |t| ==> AnyAt(t, k, alts).None?
    decreases |t| - from
  {
    if AnyAt(t, from, alts).Some? then Some(from)
    else if from == |t| then None
    else FindAny(t, alts, from + 1)
  }

  /** A label every character of which is a letter or a sign that is neither a
      space nor a line terminator, so that text it matches is neither either. */
  predicate SolidAtom(a: Atom) {
    match a
    case Text(p) => forall k :: 0 <= k < |p| ==> Solid(p[k])
    case Either(x, y) => Solid(x) && Solid(y)
    case Maybe(c) => Solid(c)
  }

  predicate Solid(c: char)
    ensures Solid(c) ==> !IsTrimmable(c) && !IsLineTerminator(c) && !IsSpace(c)
  {
    c > ' ' && c != '\U{0085}' && c != '\U{2028}' && c != '\U{2029}'
  }

  predicate SolidWord(w: Word) {
    forall k :: 0 <= k < |w| ==> SolidAtom(w[k])
  }

  lemma FoldMatchesSolid(p: char, c: char)
    requires Solid(p) && FoldMatches(p, c)
    ensures Solid(c)
  {
  }

  /** `p` occurs at `i` when each of its characters matches the text's. */
  lemma {:induction false} FoldsAtEach(t: string, i: nat, p: string)
    requires i + |p| <= |t|
    requires forall k :: 0 <= k < |p| ==> FoldMatches(p[k], t[i + k])
    ensures FoldsAt(t, i, p)
    decreases |p|
  {
    if p != [] {
      assert forall k :: 0 <= k < |p| - 1 ==> p[1..][k] == p[k + 1] && t[i + 1 + k] == t[i + (k + 1)];
      FoldsAtEach(t, i + 1, p[1..]);
    }
  }

  lemma {:induction false} FoldsAtSolid(t: string, i: nat, p: string)
    requires i + |p| <= |t| && FoldsAt(t, i, p)
    requires forall k :: 0 <= k < |p| ==> Solid(p[k])
    ensures forall k :: i <= k < i + |p| ==> Solid(t[k])
    decreases |p|
  {
    if p != [] {
      FoldMatchesSolid(p[0], t[i]);
      FoldsAtSolid(t, i + 1, p[1..]);
    }
  }

  /** Text matched by a solid word consists of solid characters. */
  lemma {:induction false} WordAtSolid(t: string, i: nat, w: Word)
    requires i <= |t| && SolidWord(w) && WordAt(t, i, w).Some?
    ensures forall k :: i <= k < i + WordAt(t, i, w).value ==> Solid(t[k])
    decreases |w|
  {
    if w != [] {
      assert SolidWord(w[1..]);
      match w[0]
      case Text(p) =>
        FoldsAtSolid(t, i, p);
        WordAtSolid(t, i + |p|, w[1..]);
      case Either(a, b) =>
        if FoldMatches(a, t[i]) { FoldMatchesSolid(a, t[i]); } else { FoldMatchesSolid(b, t[i]); }
        WordAtSolid(t, i + 1, w[1..]);
      case Maybe(c) =>
        if i < |t| && FoldMatches(c, t[i]) && WordAt(t, i + 1, w[1..]).Some? {
          FoldMatchesSolid(c, t[i]);
          WordAtSolid(t, i + 1, w[1..]);
        } else {
          WordAtSolid(t, i, w[1..]);
        }
    }
  }

  lemma AnyAtSolid(t: string, i: nat, alts: seq<Word>)
    requires i <= |t| && AnyAt(t, i, alts).Some?
    requires forall k :: 0 <= k < |alts| ==> SolidWord(alts[k])
    ensures forall k :: i <= k < i + AnyAt(t, i, alts).value ==> Solid(t[k])
    decreases |alts|
  {
    if WordAt(t, i, alts[0]).Some? {
      WordAtSolid(t, i, alts[0]);
    } else {
      AnyAtSolid(t, i, alts[1..]);
    }
  }

  /** A solid word that is not optional throughout matches at least one
      character. */
  predicate Demanding(w: Word) {
    exists k :: 0 <= k < |w| && Needed(w[k])
  }

  predicate Needed(a: Atom) {
    a.Either? || (a.Text? && a.s != [])
  }

  lemma {:induction false} WordAtDemanding(t: string, i: nat, w: Word)
    requires i <= |t| && Demanding(w) && WordAt(t, i, w).Some?
    ensures WordAt(t, i, w).value > 0
    decreases |w|
  {
    if !Needed(w[0]) {
      var k :| 0 <= k < |w| && Needed(w[k]);
      assert Needed(w[1..][k - 1]);
      if w[0].Text? {
        WordAtDemanding(t, i, w[1..]);
      } else if !(i < |t| && FoldMatches(w[0].c, t[i]) && WordAt(t, i + 1, w[1..]).Some?) {
        WordAtDemanding(t, i, w[1..]);
      }
    }
  }

  lemma AnyAtDemanding(t: string, i: nat, alts: seq<Word>)
    requires i <= |t| && AnyAt(t, i, alts).Some?
    requires forall k :: 0 <= k < |alts| ==> Demanding(alts[k])
    ensures AnyAt(t, i, alts).value > 0
    decreases |alts|
  {
    if WordAt(t, i, alts[0]).Some? {
      WordAtDemanding(t, i, alts[0]);
    } else {
      AnyAtDemanding(t, i, alts[1..]);
    }
  }

  /* ------------------------------------------------------ windows */

  lemma {:induction false} FoldsAtWindow(t: string, d: nat, e: nat, j: nat, p: string)
    requires d <= j && j + |p| <= e <= |t|
    ensures FoldsAt(t[d..e], j - d, p) == FoldsAt(t, j, p)
    decreases |p|
  {
    if p != [] {
      assert t[d..e][j - d] == t[j];
      FoldsAtWindow(t, d, e, j + 1, p[1..]);
    }
  }

  /** Cutting the text down to a window `t[d..e]` that still holds a match
      leaves the match as it was, and a word that fails keeps failing: the
      characters a match reads all lie inside it, and a character the window
      drops can only make an attempt fail. */
  lemma WordAtWindow(t: string, d: nat, e: nat, j: nat, w: Word)
    requires d <= j <= e <= |t|
    ensures (WordAt(t, j, w).Some? && j + WordAt(t, j, w).value <= e)
              ==> WordAt(t[d..e], j - d, w) == WordAt(t, j, w)
    ensures WordAt(t, j, w).None? ==> WordAt(t[d..e], j - d, w).None?
  {
    if WordAt(t, j, w).Some? && j + WordAt(t, j, w).value <= e {
      WindowKeepsMatch(t, d, e, j, w);
    }
    if WordAt(t, j, w).None? {
      WindowKeepsFailure(t, d, e, j, w);
    }
  }

  lemma {:induction false} WindowKeepsMatch(t: string, d: nat, e: nat, j: nat, w: Word)
    requires d <= j <= e <= |t|
    requires WordAt(t, j, w).Some? && j + WordAt(t, j, w).value <= e
    ensures WordAt(t[d..e], j - d, w) == WordAt(t, j, w)
    decreases |w|, 1
  {
    if w != [] {
      match w[0]
      case Text(p) => WindowKeepsText(t, d, e, j, w, p);
      case Either(a, b) => WindowKeepsEither(t, d, e, j, w, a, b);
      case Maybe(c) => WindowKeepsMaybe(t, d, e, j, w, c);
    }
  }

  lemma {:induction false} WindowKeepsText(t: string, d: nat, e: nat, j: nat, w: Word, p: string)
    requires d <= j <= e <= |t| && w != [] && w[0] == Text(p)
    requires WordAt(t, j, w).Some? && j + WordAt(t, j, w).value <= e
    ensures WordAt(t[d..e], j - d, w) == WordAt(t, j, w)
    decreases |w|, 0
  {
    FoldsAtWindow(t, d, e, j, p);
    WindowKeepsMatch(t, d, e, j + |p|, w[1..]);
  }

  lemma {:induction false} WindowKeepsEither(t: string, d: nat, e: nat, j: nat, w: Word, a: char, b: char)
    requires d <= j <= e <= |t| && w != [] && w[0] == Either(a, b)
    requires WordAt(t, j, w).Some? && j + WordAt(t, j, w).value <= e
    ensures WordAt(t[d..e], j - d, w) == WordAt(t, j, w)
    decreases |w|, 0
  {
    assert t[d..e][j - d] == t[j];
    WindowKeepsMatch(t, d, e, j + 1, w[1..]);
  }

  lemma {:induction false} WindowKeepsMaybe(t: string, d: nat, e: nat, j: nat, w: Word, c: char)
    requires d <= j <= e <= |t| && w != [] && w[0] == Maybe(c)
    requires WordAt(t, j, w).Some? && j + WordAt(t, j, w).value <= e
    ensures WordAt(t[d..e], j - d, w) == WordAt(t, j, w)
    decreases |w|, 0
  {
    var rest := w[1..];
    if j < |t| && FoldMatches(c, t[j]) && WordAt(t, j + 1, rest).Some? {
      assert t[d..e][j - d] == t[j];
      WindowKeepsMatch(t, d, e, j + 1, rest);
    } else {
      if j < e {
        assert t[d..e][j - d] == t[j];
        if WordAt(t, j + 1, rest).None? {
          WindowKeepsFailure(t, d, e, j + 1, rest);
        }
      }
      WindowKeepsMatch(t, d, e, j, rest);
    }
  }

  lemma {:induction false} WindowKeepsFailure(t: string, d: nat, e: nat, j: nat, w: Word)
    requires d <= j <= e <= |t|
    requires WordAt(t, j, w).None?
    ensures WordAt(t[d..e], j - d, w).None?
    decreases |w|
  {
    var u := t[d..e];
    if w != [] {
      var rest := w[1..];
      match w[0]
      case Text(p) =>
        if j + |p| <= e {
          FoldsAtWindow(t, d, e, j, p);
          if FoldsAt(t, j, p) {
            WindowKeepsFailure(t, d, e, j + |p|, rest);
          }
        }
      case Either(a, b) =>
        if j < e {
          assert u[j - d] == t[j];
          if FoldMatches(a, t[j]) || FoldMatches(b, t[j]) {
            WindowKeepsFailure(t, d, e, j + 1, rest);
          }
        }
      case Maybe(c) =>
        WindowKeepsFailure(t, d, e, j, rest);
        if j < e {
          assert u[j - d] == t[j];
          if FoldMatches(c, t[j]) {
            WindowKeepsFailure(t, d, e, j + 1, rest);
          }
        }
    }
  }

  lemma AnyAtWindow(t: string, d: nat, e: nat, j: nat, alts: seq<Word>)
    requires d <= j <= e <= |t|
    ensures (AnyAt(t, j, alts).Some? && j + AnyAt(t, j, alts).value <= e)
              ==> AnyAt(t[d..e], j - d, alts) == AnyAt(t, j, alts)
    decreases |alts|
  {
    if alts != [] {
      WordAtWindow(t, d, e, j, alts[0]);
      AnyAtWindow(t, d, e, j, alts[1..]);
    }
  }
}

/** The `java.lang.String` operations the application relies on, over
    `seq<char>`: `trim`, case mapping, `startsWith`, `contains`, `indexOf`,
    literal `replace`, `split` with a literal separator, and decimal rendering
    of integers. */
module JavaText {
  import opened Wrappers

  /* ---------------------------------------------------------------- trim */

  /** `String.trim` removes every leading and trailing character whose code is
      at most U+0020 (spaces and all ASCII control characters). */
  predicate IsTrimmable(c: char) {
    c <= ' '
  }

  /** The first index at or after `i` that `trim` keeps, or `|s|`. */
  function KeptFrom(s: string, i: nat): (a: nat)
    requires i <= |s|
    ensures i <= a <= |s|
    ensures forall k :: i <= k < a ==> IsTrimmable(s[k])
    ensures a == |s| || !IsTrimmable(s[a])
    decreases |s| - i
  {
    if i < |s| && IsTrimmable(s[i]) then KeptFrom(s, i + 1) else i
  }

  /** One past the last index before `j` and not before `a` that `trim` keeps,
      or `a`. */
  function KeptTo(s: string, a: nat, j: nat): (b: nat)
    requires a <= j <= |s|
    ensures a <= b <= j
    ensures forall k :: b <= k < j ==> IsTrimmable(s[k])
    ensures b == a || !IsTrimmable(s[b - 1])
    decreases j
  {
    if j > a && IsTrimmable(s[j - 1]) then KeptTo(s, a, j - 1) else j
  }

  /** Neither end of `s` is trimmable. */
  predicate Trimmed(s: string) {
    s == [] || (!IsTrimmable(s[0]) && !IsTrimmable(s[|s| - 1]))
  }

  /** Where `trim` starts keeping characters. */
  function TrimOffset(s: string): (a: nat)
    ensures a <= |s|
  {
    KeptFrom(s, 0)
  }

  /** `String.trim`: the longest slice of `s` that neither starts nor ends with
      a trimmable character. */
  function Trim(s: string): (r: string)
    ensures Trimmed(r)
    ensures TrimOffset(s) + |r| <= |s| && r == s[TrimOffset(s)..TrimOffset(s) + |r|]
    ensures forall k :: 0 <= k < |s| && !IsTrimmable(s[k]) ==> TrimOffset(s) <= k < TrimOffset(s) + |r|
    ensures r == [] <==> forall k :: 0 <= k < |s| ==> IsTrimmable(s[k])
    ensures Trimmed(s) ==> r == s
  {
    var a := KeptFrom(s, 0);
    var b := KeptTo(s, a, |s|);
    assert a < b ==> !IsTrimmable(s[a..b][0]);
    s[a..b]
  }

  /* -------------------------------------------------------- case mapping */

  /* `String.toLowerCase()` and `String.toUpperCase()` under a default locale
     without special casing rules, for every character up to U+017F: ASCII,
     Latin-1 and Latin Extended-A, which hold every letter French is written
     with. Characters above U+017F are left as they are. */

  predicate IsAsciiLetter(c: char) {
    ('A' <= c <= 'Z') || ('a' <= c <= 'z')
  }

  /** Latin-1 upper-case letters: A-Z and U+00C0..U+00DE except the
      multiplication sign. */
  predicate IsLatinUpper(c: char) {
    ('A' <= c <= 'Z') || ('\U{00C0}' <= c <= '\U{00DE}' && c != '\U{00D7}')
  }

  /** Latin-1 lower-case letters whose upper-case form is 32 below them: a-z
      and U+00E0..U+00FE except the division sign. */
  predicate IsLatinLower(c: char) {
    ('a' <= c <= 'z') || ('\U{00E0}' <= c <= '\U{00FE}' && c != '\U{00F7}')
  }

  /** The Latin Extended-A ranges whose pairs have the upper-case letter on
      the even code (Ā/ā, Ĳ/ĳ, Œ/œ, ...). */
  predicate InEvenPairs(c: char) {
    ('\U{0100}' <= c <= '\U{012F}') || ('\U{0132}' <= c <= '\U{0137}') || ('\U{014A}' <= c <= '\U{0177}')
  }

  /** The Latin Extended-A ranges whose pairs have the upper-case letter on
      the odd code (Ĺ/ĺ, Ź/ź, ...). */
  predicate InOddPairs(c: char) {
    ('\U{0139}' <= c <= '\U{0148}') || ('\U{0179}' <= c <= '\U{017E}')
  }

  predicate IsExtendedUpper(c: char) {
    (InEvenPairs(c) && c as int % 2 == 0) || (InOddPairs(c) && c as int % 2 == 1)
  }

  predicate IsExtendedLower(c: char) {
    (InEvenPairs(c) && c as int % 2 == 1) || (InOddPairs(c) && c as int % 2 == 0)
  }

  const CapitalYDiaeresis := '\U{0178}'
  const SmallYDiaeresis := '\U{00FF}'
  const CapitalIDotted := '\U{0130}'
  const SmallIDotless := '\U{0131}'
  const SmallLongS := '\U{017F}'
  const MicroSign := '\U{00B5}'
  const CapitalMu := '\U{039C}'
  const SharpS := '\U{00DF}'
  const NPrecededByApostrophe := '\U{0149}'

  /** The characters up to U+017F that `Character.toLowerCase` changes. */
  predicate HasLowerForm(c: char) {
    IsLatinUpper(c) || IsExtendedUpper(c) || c == CapitalYDiaeresis || c == CapitalIDotted
  }

  /** The characters up to U+017F that `Character.toUpperCase` changes. */
  predicate HasUpperForm(c: char) {
    IsLatinLower(c) || IsExtendedLower(c) || c == SmallYDiaeresis || c == MicroSign
    || c == SmallIDotless || c == SmallLongS
  }

  /** `Character.toLowerCase`. */
  function ToLowerChar(c: char): (r: char)
    ensures HasLowerForm(c) <==> r != c
    ensures HasLowerForm(c) && c != CapitalIDotted ==> HasUpperForm(r)
  {
    if IsLatinUpper(c) then (c as int + 32) as char
    else if IsExtendedUpper(c) then (c as int + 1) as char
    else if c == CapitalYDiaeresis then SmallYDiaeresis
    else if c == CapitalIDotted then 'i'
    else c
  }

  /** `Character.toUpperCase`. */
  function ToUpperChar(c: char): (r: char)
    ensures HasUpperForm(c) <==> r != c
    ensures !HasUpperForm(r)
  {
    if IsLatinLower(c) then (c as int - 32) as char
    else if IsExtendedLower(c) then (c as int - 1) as char
    else if c == SmallYDiaeresis then CapitalYDiaeresis
    else if c == MicroSign then CapitalMu
    else if c == SmallIDotless then 'I'
    else if c == SmallLongS then 'S'
    else c
  }

  /** Lower-casing an upper-case letter and upper-casing the result gives the
      letter back, for every one but the dotted capital I. */
  lemma LowerThenUpper(c: char)
    requires HasLowerForm(c) && c != CapitalIDotted
    ensures ToUpperChar(ToLowerChar(c)) == c
  {
  }

  /** Upper-casing a lower-case letter and lower-casing the result gives the
      letter back, for every one but the micro sign, the dotless i and the
      long s, which share their upper-case form with another letter. */
  lemma UpperThenLower(c: char)
    requires HasUpperForm(c) && c != MicroSign && c != SmallIDotless && c != SmallLongS
    ensures ToLowerChar(ToUpperChar(c)) == c
  {
  }

  /** What `String.toLowerCase` makes of one character: the dotted capital I
      becomes an i followed by a combining dot above. */
  function LowerText(c: char): (r: string)
    ensures c != CapitalIDotted ==> r == [ToLowerChar(c)]
    ensures c == CapitalIDotted ==> r == "i\U{0307}"
  {
    if c == CapitalIDotted then "i\U{0307}" else [ToLowerChar(c)]
  }

  /** What `String.toUpperCase` makes of one character: the sharp s becomes
      "SS" and ŉ an apostrophe followed by N. The first character is always
      one `toUpperCase` leaves alone. */
  function UpperText(c: char): (r: string)
    ensures 1 <= |r| <= 2 && !HasUpperForm(r[0])
    ensures r[0] != SharpS && r[0] != NPrecededByApostrophe
    ensures c != SharpS && c != NPrecededByApostrophe ==> r == [ToUpperChar(c)]
    ensures c == SharpS ==> r == "SS"
  {
    if c == SharpS then "SS"
    else if c == NPrecededByApostrophe then "\U{02BC}N"
    else [ToUpperChar(c)]
  }

  /** No dotted capital I, the one character whose lower-case form is two
      characters long. */
  predicate NoDottedI(s: string) {
    forall k :: 0 <= k < |s| ==> s[k] != CapitalIDotted
  }

  /** `String.toLowerCase`. */
  function ToLowerCase(s: string): (r: string)
    ensures |s| <= |r|
    ensures NoDottedI(s) ==> |r| == |s| && forall i :: 0 <= i < |s| ==> r[i] == ToLowerChar(s[i])
    decreases |s|
  {
    if s == [] then [] else LowerText(s[0]) + ToLowerCase(s[1..])
  }

  /** Lower-casing works character by character. */
  /** The ligature example: "Œufs" lower-cases to "œufs", which is its own
      lower case. */
  lemma LowerCaseOeufs()
    ensures ToLowerCase("\U{0152}ufs") == "\U{0153}ufs"
    ensures ToLowerCase("\U{0153}ufs") == "\U{0153}ufs"
  {
    var a := ToLowerCase("\U{0152}ufs");
    var b := ToLowerCase("\U{0153}ufs");
    assert NoDottedI("\U{0152}ufs") && NoDottedI("\U{0153}ufs");
    assert a[0] == ToLowerChar('\U{0152}') == '\U{0153}';
    assert b[0] == ToLowerChar('\U{0153}') == '\U{0153}';
    assert a[1] == b[1] == 'u' && a[2] == b[2] == 'f' && a[3] == b[3] == 's';
  }

  lemma {:induction false} ToLowerCaseAppend(a: string, b: string)
    ensures ToLowerCase(a + b) == ToLowerCase(a) + ToLowerCase(b)
    decreases |a|
  {
    if a != [] {
      assert (a + b)[1..] == a[1..] + b;
      ToLowerCaseAppend(a[1..], b);
    } else {
      assert a + b == b;
    }
  }

  /** ASCII-only folding, the comparison `(?i)` performs without UNICODE_CASE. */
  function AsciiLower(c: char): char {
    if 'A' <= c <= 'Z' then (c as int + 32) as char else c
  }

  /** Whether text character `c` matches pattern character `p` under
      CASE_INSENSITIVE without UNICODE_CASE: an ASCII letter matches both of
      its cases, any other character only itself. */
  predicate FoldMatches(p: char, c: char) {
    if IsAsciiLetter(p) then AsciiLower(c) == AsciiLower(p) else c == p
  }

  lemma FoldMatchesLetter(p: char, c: char)
    requires IsAsciiLetter(p) && FoldMatches(p, c)
    ensures IsAsciiLetter(c)
  {
  }

  /* ---------------------------------------------------- UTF-16 length */

  /** The UTF-16 code units `c` takes in a Java string: two, a surrogate
      pair, for a character outside the Basic Multilingual Plane. */
  function Utf16Units(c: char): (n: nat)
    ensures 1 <= n <= 2
    ensures n == 1 <==> c as int < 0x1_0000
  {
    if c as int < 0x1_0000 then 1 else 2
  }

  /** `String.length()`: the number of UTF-16 code units. */
  function Utf16Length(s: string): (n: nat)
    ensures |s| <= n <= 2 * |s|
    decreases |s|
  {
    if s == [] then 0 else Utf16Units(s[0]) + Utf16Length(s[1..])
  }

  /** Every character lies in the Basic Multilingual Plane. */
  predicate InBmp(s: string) {
    forall k :: 0 <= k < |s| ==> Utf16Units(s[k]) == 1
  }

  lemma {:induction false} Utf16LengthAppend(a: string, b: string)
    ensures Utf16Length(a + b) == Utf16Length(a) + Utf16Length(b)
    decreases |a|
  {
    if a != [] {
      assert (a + b)[1..] == a[1..] + b;
      Utf16LengthAppend(a[1..], b);
    } else {
      assert a + b == b;
    }
  }

  /** Within the Basic Multilingual Plane Java counts characters. */
  lemma {:induction false} BmpLength(s: string)
    requires InBmp(s)
    ensures Utf16Length(s) == |s|
    decreases |s|
  {
    if s != [] {
      assert InBmp(s[1..]) by {
        forall k | 0 <= k < |s[1..]| ensures Utf16Units(s[1..][k]) == 1 {
          assert s[1..][k] == s[k + 1];
        }
      }
      BmpLength(s[1..]);
    }
  }

  /** `s.substring(0, n)` for `n` at most the length: the longest prefix of
      at most `n` code units. When `n` falls inside a surrogate pair Java
      keeps the pair's high surrogate on its own, which a `char` here cannot
      hold; the prefix then stops before the pair. */
  function Utf16Prefix(s: string, n: nat): (r: string)
    ensures |r| <= |s| && r == s[..|r|]
    ensures Utf16Length(r) <= n
    ensures |r| < |s| ==> n < Utf16Length(r) + Utf16Units(s[|r|])
    decreases |s|
  {
    if s == [] || n < Utf16Units(s[0]) then []
    else
      var rest := Utf16Prefix(s[1..], n - Utf16Units(s[0]));
      assert ([s[0]] + rest)[1..] == rest;
      [s[0]] + rest
  }

  /** Within the Basic Multilingual Plane the prefix is `s[..n]`. */
  lemma BmpPrefix(s: string, n: nat)
    requires InBmp(s) && n <= |s|
    ensures Utf16Prefix(s, n) == s[..n]
  {
    var r := Utf16Prefix(s, n);
    assert InBmp(r) by {
      forall k | 0 <= k < |r| ensures Utf16Units(r[k]) == 1 {
        assert r[k] == s[k];
      }
    }
    BmpLength(r);
  }

  /* ------------------------------------------------------- substrings */

  predicate StartsWith(s: string, prefix: string) {
    |prefix| <= |s| && s[..|prefix|] == prefix
  }

  predicate OccursAt(s: string, sub: string, i: nat) {
    i + |sub| <= |s| && s[i..i + |sub|] == sub
  }

  /** `s.indexOf(sub, from)`: the first occurrence at or after `from`. */
  function IndexOf(s: string, sub: string, from: nat): (r: Option<nat>)
    requires from <= |s|
    ensures r.Some? ==> from <= r.value && OccursAt(s, sub, r.value)
    ensures r.Some? ==> forall j :: from <= j < r.value ==> !OccursAt(s, sub, j)
    ensures r.None? ==> forall j :: from <= j <= |s| ==> !OccursAt(s, sub, j)
    decreases |s| - from
  {
    if OccursAt(s, sub, from) then Some(from)
    else if from == |s| then None
    else IndexOf(s, sub, from + 1)
  }

  /** `s.contains(sub)`. */
  predicate Contains(s: string, sub: string) {
    IndexOf(s, sub, 0).Some?
  }

  lemma ContainsAt(s: string, sub: string, i: nat)
    requires OccursAt(s, sub, i)
    ensures Contains(s, sub)
  {
  }

  /** `s.replace(target, replacement)`: every non-overlapping occurrence,
      scanning left to right. */
  function Replace(s: string, target: string, replacement: string): (r: string)
    requires |target| > 0
    ensures !Contains(s, target) ==> r == s
    decreases |s|
  {
    match IndexOf(s, target, 0)
    case None => s
    case Some(i) => s[..i] + replacement + Replace(s[i + |target|..], target, replacement)
  }

  /* -------------------------------------------------------------- split */

  /** Every piece between successive leftmost occurrences of `sep`. */
  function SplitPieces(s: string, sep: string): (r: seq<string>)
    requires |sep| > 0
    ensures |r| > 0
    ensures IndexOf(s, sep, 0).None? ==> r == [s]
    ensures IndexOf(s, sep, 0).Some? ==> r[0] == s[..IndexOf(s, sep, 0).value] && |r| >= 2
    decreases |s|
  {
    match IndexOf(s, sep, 0)
    case None => [s]
    case Some(i) => [s[..i]] + SplitPieces(s[i + |sep|..], sep)
  }

  /** The trailing empty strings `String.split` discards. */
  function DropTrailingEmpty(ps: seq<string>): (r: seq<string>)
    ensures |r| <= |ps| && r == ps[..|r|]
    ensures r == [] || r[|r| - 1] != ""
    ensures forall i :: |r| <= i < |ps| ==> ps[i] == ""
    decreases |ps|
  {
    if |ps| > 0 && ps[|ps| - 1] == "" then DropTrailingEmpty(ps[..|ps| - 1]) else ps
  }

  /** `s.split(sep)` for a separator regex that matches only the literal
      `sep`: without any occurrence the result is `[s]`; otherwise the pieces
      with trailing empty ones removed (possibly none at all). */
  function Split(s: string, sep: string): (r: seq<string>)
    requires |sep| > 0
    ensures !Contains(s, sep) ==> r == [s]
    ensures Contains(s, sep) && r != [] ==> r[0] == s[..IndexOf(s, sep, 0).value]
    ensures Contains(s, sep) && r == [] ==> IndexOf(s, sep, 0).value == 0
  {
    if IndexOf(s, sep, 0).None? then [s] else DropTrailingEmpty(SplitPieces(s, sep))
  }

  /* ----------------------------------------------------- number rendering */

  function DigitChar(d: nat): (c: char)
    requires d < 10
    ensures '0' <= c <= '9'
  {
    ('0' as int + d) as char
  }

  function NatToString(n: nat): (r: string)
    ensures |r| > 0
    ensures forall i :: 0 <= i < |r| ==> '0' <= r[i] <= '9'
    decreases n
  {
    if n < 10 then [DigitChar(n)] else NatToString(n / 10) + [DigitChar(n % 10)]
  }

  /** `String.valueOf` of an `int` or `long`. */
  function IntToString(n: int): (r: string)
    ensures |r| > 0
    ensures forall i :: 0 <= i < |r| ==> ('0' <= r[i] <= '9') || r[i] == '-'
  {
    if n < 0 then "-" + NatToString(-n) else NatToString(n)
  }
}

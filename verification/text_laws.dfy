/** Laws of `split` and `indexOf` that the storage locators rely on: when a
    text is two pieces joined by a separator, splitting gives the pieces back,
    and exactly then. */
module TextLaws {
  import opened Wrappers
  import opened JavaText

  /** `sub` cannot occur in a text that lacks one of its characters. */
  lemma AbsentChar(s: string, sub: string, i: nat)
    requires i < |sub| && forall k :: 0 <= k < |s| ==> s[k] != sub[i]
    ensures !Contains(s, sub)
  {
    forall j | 0 <= j <= |s|
      ensures !OccursAt(s, sub, j)
    {
      if j + |sub| <= |s| {
        assert s[j..j + |sub|][i] == s[j + i];
      }
    }
  }

  /** No occurrence of `sep` in `u + sep + d` starts before `u` ends, exactly
      when `u` followed by all of `sep` but its last character holds none. */
  predicate SeparatorFirstAfter(u: string, sep: string)
    requires |sep| > 0
  {
    !Contains(u + sep[..|sep| - 1], sep)
  }

  lemma FirstOccurrenceAfter(u: string, sep: string, d: string)
    requires |sep| > 0 && SeparatorFirstAfter(u, sep)
    ensures IndexOf(u + sep + d, sep, 0) == Some(|u|)
  {
    var s := u + sep + d;
    var w := u + sep[..|sep| - 1];
    assert s[|u|..|u| + |sep|] == sep;
    assert OccursAt(s, sep, |u|);
    forall j | 0 <= j < |u|
      ensures !OccursAt(s, sep, j)
    {
      assert !OccursAt(w, sep, j);
      if j + |sep| <= |s| {
        assert s[j..j + |sep|] == w[j..j + |sep|];
      }
    }
  }

  /** Splitting two pieces joined by the separator gives them back when the
      first one does not run into the separator and the second is non-empty
      and free of it. */
  lemma SplitOnce(u: string, sep: string, d: string)
    requires |sep| > 0 && SeparatorFirstAfter(u, sep)
    requires d != [] && !Contains(d, sep)
    ensures Split(u + sep + d, sep) == [u, d]
  {
    var s := u + sep + d;
    FirstOccurrenceAfter(u, sep, d);
    assert s[..|u|] == u && s[|u| + |sep|..] == d;
    assert SplitPieces(s, sep) == [u, d];
  }

  /** ... and only then. */
  lemma SplitRecovers(u: string, sep: string, d: string)
    requires |sep| > 0
    requires var ps := Split(u + sep + d, sep); |ps| >= 2 && ps[0] == u && ps[1] == d
    ensures SeparatorFirstAfter(u, sep) && d != [] && !Contains(d, sep)
  {
    var s := u + sep + d;
    FirstPieceRecovers(u, sep, d);
    FirstOccurrenceAfter(u, sep, d);
    var pieces := SplitPieces(s, sep);
    var ps := Split(s, sep);
    assert ps == DropTrailingEmpty(pieces);
    assert s[|u| + |sep|..] == d;
    assert pieces == [u] + SplitPieces(d, sep);
    assert ps[1] == pieces[1] == SplitPieces(d, sep)[0];
  }

  /** The first piece of `u + sep + d` is `u` only when `sep` first occurs
      right after `u`. */
  lemma FirstPieceRecovers(u: string, sep: string, d: string)
    requires |sep| > 0
    requires var ps := Split(u + sep + d, sep); |ps| > 0 && ps[0] == u
    ensures SeparatorFirstAfter(u, sep)
  {
    var s := u + sep + d;
    var w := u + sep[..|sep| - 1];
    assert OccursAt(s, sep, |u|) by {
      assert s[|u|..|u| + |sep|] == sep;
    }
    var i := IndexOf(s, sep, 0).value;
    var pieces := SplitPieces(s, sep);
    var ps := Split(s, sep);
    assert ps == DropTrailingEmpty(pieces);
    assert ps[0] == pieces[0] == s[..i];
    assert i == |u|;
    forall j | 0 <= j <= |w|
      ensures !OccursAt(w, sep, j)
    {
      if j + |sep| <= |w| {
        assert !OccursAt(s, sep, j);
        assert s[j..j + |sep|] == w[j..j + |sep|];
      }
    }
  }

  /** The last piece of a text split on a one-character separator is what
      follows the last separator, when that is not empty. */
  lemma {:induction false} LastPiece(p: string, c: char, f: string)
    requires f != [] && forall k :: 0 <= k < |f| ==> f[k] != c
    ensures var ps := Split(p + [c] + f, [c]);
      |ps| > 0 && ps[|ps| - 1] == f
    decreases |p|
  {
    var s := p + [c] + f;
    AbsentChar(f, [c], 0);
    assert OccursAt(s, [c], |p|) by {
      assert s[|p|..|p| + 1] == [c];
    }
    var i := IndexOf(s, [c], 0).value;
    LastPieceOfPieces(p, c, f);
  }

  lemma {:induction false} LastPieceOfPieces(p: string, c: char, f: string)
    requires f != [] && !Contains(f, [c])
    ensures var ps := SplitPieces(p + [c] + f, [c]);
      ps[|ps| - 1] == f
    decreases |p|
  {
    var s := p + [c] + f;
    assert OccursAt(s, [c], |p|) by {
      assert s[|p|..|p| + 1] == [c];
    }
    var i := IndexOf(s, [c], 0).value;
    assert i <= |p|;
    var rest := s[i + 1..];
    if i == |p| {
      assert rest == f;
    } else {
      assert rest == p[i + 1..] + [c] + f;
      LastPieceOfPieces(p[i + 1..], c, f);
    }
  }

  /** Removing a separator that first occurs at the very end of a text leaves
      the text before it. */
  lemma ReplaceFinal(n: string, t: string)
    requires |t| > 0 && SeparatorFirstAfter(n, t)
    ensures Replace(n + t, t, "") == n
  {
    FirstOccurrenceAfter(n, t, "");
    var s := n + t;
    assert s + "" == s;
    assert s[..|n|] == n && s[|n| + |t|..] == "";
  }

  /** Replacing one character by another changes exactly the positions that
      hold it. */
  lemma {:induction false} ReplaceChar(s: string, a: char, b: char)
    ensures |Replace(s, [a], [b])| == |s|
    ensures forall k :: 0 <= k < |s| ==> Replace(s, [a], [b])[k] == if s[k] == a then b else s[k]
    decreases |s|
  {
    match IndexOf(s, [a], 0)
    case None =>
      CharAbsentBefore(s, a, |s|);
    case Some(i) =>
      var rest := s[i + 1..];
      ReplaceChar(rest, a, b);
      CharAbsentBefore(s, a, i);
      assert s[i..i + 1] == [a];
      assert Replace(s, [a], [b]) == s[..i] + [b] + Replace(rest, [a], [b]);
      ReplacedAt(s, a, b, i, Replace(rest, [a], [b]));
  }

  /** No one-character occurrence of `a` before `i` means no `a` there. */
  lemma CharAbsentBefore(s: string, a: char, i: nat)
    requires i <= |s| && forall j :: 0 <= j < i ==> !OccursAt(s, [a], j)
    ensures forall k :: 0 <= k < i ==> s[k] != a
  {
    forall k | 0 <= k < i
      ensures s[k] != a
    {
      assert !OccursAt(s, [a], k);
      assert s[k..k + 1] == [s[k]];
    }
  }

  /** The first `a` at `i` replaced, and the rest replaced as well. */
  lemma ReplacedAt(s: string, a: char, b: char, i: nat, tail: string)
    requires i < |s| && s[i] == a && forall k :: 0 <= k < i ==> s[k] != a
    requires |tail| == |s| - i - 1
    requires forall k :: 0 <= k < |tail| ==> tail[k] == if s[i + 1 + k] == a then b else s[i + 1 + k]
    ensures var r := s[..i] + [b] + tail;
      |r| == |s| && forall k :: 0 <= k < |s| ==> r[k] == if s[k] == a then b else s[k]
  {
    var r := s[..i] + [b] + tail;
    forall k | 0 <= k < |s|
      ensures r[k] == if s[k] == a then b else s[k]
    {
      if k > i {
        assert r[k] == tail[k - i - 1];
      }
    }
  }
}

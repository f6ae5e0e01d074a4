/**
 * String primitives shared by the Python and TypeScript sources: substring search,
 * `str.split` / `String.prototype.split` with a non-empty separator, prefix and suffix tests.
 * Both languages split the same way for a non-empty separator string: the leftmost
 * occurrence is cut first, then the search resumes after it.
 */
module Strings {
  import opened Wrappers

  /** `sep` occurs in `s` starting at index `i`. */
  predicate OccursAt(sep: string, s: string, i: int) {
    0 <= i && i + |sep| <= |s| && s[i..i + |sep|] == sep
  }

  /** `i` is the index of the last occurrence of `sep` in `s`. */
  ghost predicate IsLastOccurrence(sep: string, s: string, i: int) {
    OccursAt(sep, s, i) && forall j :: i < j ==> !OccursAt(sep, s, j)
  }

  /**
   * The last character of `sep` appears nowhere else in it, so two occurrences of `sep`
   * can never overlap (true of "error=", "=", "; " and "&").
   */
  predicate LastCharUnique(sep: string) {
    |sep| > 0 && sep[|sep| - 1] !in sep[..|sep| - 1]
  }

  predicate StartsWith(s: string, prefix: string) {
    |prefix| <= |s| && s[..|prefix|] == prefix
  }

  predicate EndsWith(s: string, suffix: string) {
    |suffix| <= |s| && s[|s| - |suffix|..] == suffix
  }

  /** Index of the leftmost occurrence of `sep` in `s` at or after `from`. */
  function FindFrom(s: string, sep: string, from: nat): (r: Option<nat>)
    requires from <= |s|
    ensures r.Some? ==> from <= r.value && OccursAt(sep, s, r.value)
    ensures r.Some? ==> forall j :: from <= j < r.value ==> !OccursAt(sep, s, j)
    ensures r.None? ==> forall j :: from <= j ==> !OccursAt(sep, s, j)
    decreases |s| - from
  {
    if from + |sep| > |s| then None
    else if s[from..from + |sep|] == sep then Some(from)
    else FindFrom(s, sep, from + 1)
  }

  /** Python's `sep in s`, JavaScript's `s.includes(sep)`. */
  predicate Contains(s: string, sep: string) {
    FindFrom(s, sep, 0).Some?
  }

  lemma ContainsIff(s: string, sep: string)
    ensures Contains(s, sep) <==> exists i :: OccursAt(sep, s, i)
  {
    if Contains(s, sep) {
      assert OccursAt(sep, s, FindFrom(s, sep, 0).value);
    }
  }

  /** Python `s.split(sep)` and JavaScript `s.split(sep)` for a non-empty separator. */
  function Split(s: string, sep: string): (pieces: seq<string>)
    requires |sep| > 0
    ensures |pieces| >= 1
    decreases |s|
  {
    match FindFrom(s, sep, 0)
    case None => [s]
    case Some(i) => [s[..i]] + Split(s[i + |sep|..], sep)
  }

  /** Python `sep.join(pieces)`: the inverse of `Split`. */
  function Join(pieces: seq<string>, sep: string): string
    requires |pieces| >= 1
  {
    if |pieces| == 1 then pieces[0] else pieces[0] + sep + Join(pieces[1..], sep)
  }

  /** Python's `pieces[-1]`. */
  function Last(pieces: seq<string>): string
    requires |pieces| >= 1
  {
    pieces[|pieces| - 1]
  }

  /** Shifting an occurrence into a suffix of the string. */
  lemma OccursInSuffix(sep: string, s: string, k: nat, j: int)
    requires k <= |s|
    ensures OccursAt(sep, s[k..], j) <==> j >= 0 && OccursAt(sep, s, k + j)
  {
    if j >= 0 && k + j + |sep| <= |s| {
      assert s[k..][j..j + |sep|] == s[k + j..k + j + |sep|];
    }
  }

  /** The characters of an occurrence are those of the separator. */
  lemma CharAt(sep: string, s: string, i: int, t: int)
    requires OccursAt(sep, s, i) && 0 <= t < |sep|
    ensures s[i + t] == sep[t]
  {
    assert s[i..i + |sep|][t] == s[i + t];
  }

  /** Two occurrences of a separator whose last character is unique do not overlap. */
  lemma NoOverlap(sep: string, s: string, i: int, j: int)
    requires LastCharUnique(sep) && OccursAt(sep, s, i) && OccursAt(sep, s, j) && i < j
    ensures i + |sep| <= j
  {
    var p := i + |sep| - 1;
    CharAt(sep, s, i, |sep| - 1);
    if j <= p {
      CharAt(sep, s, j, p - j);
    }
  }

  /** Splitting and joining again gives back the original string. */
  lemma {:induction false} JoinSplit(s: string, sep: string)
    requires |sep| > 0
    ensures Join(Split(s, sep), sep) == s
    decreases |s|
  {
    var found := FindFrom(s, sep, 0);
    if found.Some? {
      var i := found.value;
      var rest := s[i + |sep|..];
      var pieces := Split(s, sep);
      assert pieces == [s[..i]] + Split(rest, sep);
      JoinSplit(rest, sep);
      assert pieces[1..] == Split(rest, sep);
      calc {
        Join(pieces, sep);
        s[..i] + sep + Join(Split(rest, sep), sep);
        s[..i] + s[i..i + |sep|] + rest;
        s;
      }
    }
  }

  /** No piece of a split contains the separator. */
  lemma {:induction false} SplitPiecesFree(s: string, sep: string)
    requires |sep| > 0
    ensures forall k :: 0 <= k < |Split(s, sep)| ==> !Contains(Split(s, sep)[k], sep)
    decreases |s|
  {
    match FindFrom(s, sep, 0)
    case None =>
    case Some(i) =>
      var rest := s[i + |sep|..];
      SplitPiecesFree(rest, sep);
      var head := s[..i];
      if Contains(head, sep) {
        var j := FindFrom(head, sep, 0).value;
        assert head[j..j + |sep|] == s[j..j + |sep|];
        assert OccursAt(sep, s, j);
      }
      assert Split(s, sep) == [head] + Split(rest, sep);
  }

  /** Without an occurrence, splitting gives the whole string as the only piece. */
  lemma SplitWithout(s: string, sep: string)
    requires |sep| > 0 && !Contains(s, sep)
    ensures Split(s, sep) == [s]
  {
  }

  /** An occurrence with no further occurrence after its end is the last one. */
  lemma NothingAfterIsLast(sep: string, s: string, f: nat)
    requires LastCharUnique(sep) && OccursAt(sep, s, f) && !Contains(s[f + |sep|..], sep)
    ensures IsLastOccurrence(sep, s, f)
  {
    var k := f + |sep|;
    forall j | f < j ensures !OccursAt(sep, s, j) {
      if OccursAt(sep, s, j) {
        NoOverlap(sep, s, f, j);
        OccursInSuffix(sep, s, k, j - k);
        ContainsIff(s[k..], sep);
      }
    }
  }

  /**
   * The last piece of a split is the text after the last occurrence of the separator
   * (when the separator's occurrences cannot overlap).
   */
  lemma LastPieceFollowsLastOccurrence(s: string, sep: string) returns (i: int)
    requires LastCharUnique(sep) && Contains(s, sep)
    ensures IsLastOccurrence(sep, s, i) && Last(Split(s, sep)) == s[i + |sep|..]
  {
    var pieces := Split(s, sep);
    SplitFirstPiece(s, sep);
    JoinSplit(s, sep);
    var init := Join(pieces[..|pieces| - 1], sep);
    JoinLast(pieces, sep);
    i := |init|;
    Parts(init, sep, Last(pieces));
    SplitPiecesFree(s, sep);
    NothingAfterIsLast(sep, s, i);
  }

  /** Joining puts the separator right before the last piece. */
  lemma {:induction false} JoinLast(pieces: seq<string>, sep: string)
    requires |pieces| >= 2
    ensures Join(pieces, sep) == Join(pieces[..|pieces| - 1], sep) + sep + Last(pieces)
    decreases |pieces|
  {
    if |pieces| > 2 {
      var tail := pieces[1..];
      JoinLast(tail, sep);
      assert tail[..|tail| - 1] == pieces[..|pieces| - 1][1..];
      assert Last(tail) == Last(pieces);
    }
  }

  /** The middle and the end of a three-part concatenation. */
  lemma Parts(a: string, b: string, c: string)
    ensures (a + b + c)[|a|..|a| + |b|] == b && (a + b + c)[|a| + |b|..] == c
  {
  }

  /** An occurrence with none before it is the one the search finds. */
  lemma FindFromFirst(s: string, sep: string, p: int)
    requires OccursAt(sep, s, p) && forall j :: 0 <= j < p ==> !OccursAt(sep, s, j)
    ensures FindFrom(s, sep, 0) == Some(p)
  {
  }

  /** An occurrence at or after `from` with none between is the one the search from `from` finds. */
  lemma FindFromAt(s: string, sep: string, from: nat, p: int)
    requires from <= p && OccursAt(sep, s, p) && forall j :: from <= j < p ==> !OccursAt(sep, s, j)
    ensures FindFrom(s, sep, from) == Some(p)
  {
  }

  /** A string none of whose characters is the separator's first does not contain it. */
  lemma NotContainsChar(s: string, sep: string)
    requires |sep| > 0 && sep[0] !in s
    ensures !Contains(s, sep)
  {
    ContainsIff(s, sep);
    forall i | OccursAt(sep, s, i) ensures false {
      CharAt(sep, s, i, 0);
    }
  }

  /**
   * The first piece of a split on a one-character separator is a prefix free of it,
   * followed by the separator or by the end of the string.
   */
  lemma FirstPieceStopsAtSeparator(s: string, sep: string)
    requires |sep| == 1
    ensures var t := Split(s, sep)[0];
      StartsWith(s, t) && !Contains(t, sep) && (|t| == |s| || s[|t|] == sep[0])
  {
    SplitFirstPiece(s, sep);
    SplitPiecesFree(s, sep);
    match FindFrom(s, sep, 0)
    case None =>
    case Some(i) =>
      assert s[i..i + 1] == sep;
  }

  /** The first piece of a split is the text before the first occurrence (or all of it). */
  lemma SplitFirstPiece(s: string, sep: string)
    requires |sep| > 0
    ensures FindFrom(s, sep, 0).None? ==> Split(s, sep)[0] == s
    ensures FindFrom(s, sep, 0).Some? ==>
      |Split(s, sep)| >= 2 &&
      Split(s, sep)[0] == s[..FindFrom(s, sep, 0).value] &&
      Split(s, sep)[1..] == Split(s[FindFrom(s, sep, 0).value + |sep|..], sep)
  {
  }
}

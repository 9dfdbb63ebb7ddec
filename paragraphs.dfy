/**
 * The long AI explanation is cut into paragraphs with `split(/\n\s*\n/)` and each piece is
 * trimmed (static/script.js). This module gives that split as ECMAScript runs it: scan for the
 * leftmost match, where the greedy `\s*` backs off to the last line break of the white-space
 * run that follows the first one.
 */
module Paragraphs {
  import opened Wrappers
  import opened JsText

  /** A piece of text the pattern /\n\s*\n/ matches: a line break, white space, a line break. */
  predicate IsSeparator(t: string) {
    |t| >= 2 && t[0] == '\n' && t[|t| - 1] == '\n' && forall k :: 0 <= k < |t| ==> IsSpace(t[k])
  }

  /** Positions `i < j` of `t` hold line breaks with only white space between them. */
  predicate BlankLineAt(t: string, i: int, j: int) {
    0 <= i < j < |t| && IsSeparator(t[i..j + 1])
  }

  /** `t` holds two line breaks with only white space between them. */
  ghost predicate HasBlankLine(t: string) {
    exists i, j :: BlankLineAt(t, i, j)
  }

  /** End of the run of white space that starts at `j`. */
  function SpaceRunEnd(s: string, j: nat): (e: nat)
    requires j <= |s|
    ensures j <= e <= |s|
    ensures forall k :: j <= k < e ==> IsSpace(s[k])
    ensures e == |s| || !IsSpace(s[e])
    decreases |s| - j
  {
    if j < |s| && IsSpace(s[j]) then SpaceRunEnd(s, j + 1) else j
  }

  /** The last line break in `s[lo..hi]`, if there is one. */
  function LastNewline(s: string, lo: nat, hi: nat): (r: Option<nat>)
    requires lo <= hi <= |s|
    ensures r.Some? ==> lo <= r.value < hi && s[r.value] == '\n'
    ensures r.Some? ==> forall k :: r.value < k < hi ==> s[k] != '\n'
    ensures r.None? ==> forall k :: lo <= k < hi ==> s[k] != '\n'
    decreases hi - lo
  {
    if lo == hi then None
    else if s[hi - 1] == '\n' then Some(hi - 1)
    else LastNewline(s, lo, hi - 1)
  }

  /** Where a match of /\n\s*\n/ tried at `q` ends, when it matches there. */
  function MatchAt(s: string, q: nat): (r: Option<nat>)
    requires q < |s|
    ensures r.Some? ==> q + 2 <= r.value <= |s| && IsSeparator(s[q..r.value])
    ensures r.Some? ==> forall e :: r.value < e <= |s| ==> !IsSeparator(s[q..e])
    ensures r.None? ==> forall e :: q < e <= |s| ==> !IsSeparator(s[q..e])
  {
    if s[q] != '\n' then
      NoSeparatorBeyond(s, q, q + 1);
      None
    else
      var e := SpaceRunEnd(s, q + 1);
      match LastNewline(s, q + 1, e)
      case None =>
        NoSeparatorBeyond(s, q, q + 1);
        None
      case Some(p) =>
        SliceSpaces(s, q, p + 1);
        NoSeparatorBeyond(s, q, p + 1);
        Some(p + 1)
  }

  /** No separator starting at `q` ends after `lo` when, from `lo` on, the white-space run after
      `q` holds no line break. */
  lemma NoSeparatorBeyond(s: string, q: nat, lo: nat)
    requires q < lo <= |s|
    requires s[q] == '\n' ==> forall k :: lo <= k < SpaceRunEnd(s, q + 1) ==> s[k] != '\n'
    ensures forall e :: lo < e <= |s| ==> !IsSeparator(s[q..e])
    ensures lo == q + 1 ==> !IsSeparator(s[q..q + 1])
  {
    forall e | lo < e <= |s| ensures !IsSeparator(s[q..e]) {
      var t := s[q..e];
      if s[q] != '\n' {
        assert t[0] != '\n';
      } else {
        var run := SpaceRunEnd(s, q + 1);
        if run <= e - 1 {
          assert !IsSpace(t[run - q]);
        } else {
          assert t[|t| - 1] != '\n';
        }
      }
    }
  }

  lemma SliceSpaces(s: string, lo: nat, hi: nat)
    requires lo < hi <= |s|
    requires forall k :: lo < k < hi ==> IsSpace(s[k])
    ensures forall k :: 0 < k < hi - lo ==> IsSpace(s[lo..hi][k])
  {
    var u := s[lo..hi];
    forall k | 0 < k < |u| ensures IsSpace(u[k]) {
      assert u[k] == s[lo + k];
    }
  }

  lemma SliceOfSlice(s: string, p: nat, q: nat, i: nat, j: nat)
    requires p <= q <= |s| && i <= j <= q - p
    ensures s[p..q][i..j] == s[p + i..p + j]
  {
    var t := s[p..q];
    var u := t[i..j];
    var w := s[p + i..p + j];
    forall k | 0 <= k < |u| ensures u[k] == w[k] {
      assert u[k] == t[i + k] == s[p + i + k];
    }
  }

  /** A line break followed, after white space only, by another one is always matched. */
  lemma MatchesBlankLine(s: string, i: nat, j: nat)
    requires i < j < |s| && IsSeparator(s[i..j + 1])
    ensures MatchAt(s, i).Some?
  {
    assert s[i] == s[i..j + 1][0];
    var e := SpaceRunEnd(s, i + 1);
    forall k | i + 1 <= k <= j ensures IsSpace(s[k]) {
      assert s[k] == s[i..j + 1][k - i];
    }
    assert s[j] == s[i..j + 1][j - i];
    assert LastNewline(s, i + 1, e).Some?;
  }

  /** `pieces` glued together with `seps` between consecutive ones. */
  function Join(pieces: seq<string>, seps: seq<string>): string
    requires |pieces| == |seps| + 1
  {
    if |seps| == 0 then pieces[0] else pieces[0] + seps[0] + Join(pieces[1..], seps[1..])
  }

  /** The split of `s[p..]`, scanning from `q`, kept together with the separators it removed. */
  function SplitFrom(s: string, p: nat, q: nat): (r: (seq<string>, seq<string>))
    requires p <= q <= |s|
    requires forall k :: p <= k < q ==> MatchAt(s, k).None?
    ensures |r.0| == |r.1| + 1
    ensures forall k :: 0 <= k < |r.1| ==> IsSeparator(r.1[k])
    ensures Join(r.0, r.1) == s[p..]
    ensures forall k :: 0 <= k < |r.0| ==> !HasBlankLine(r.0[k])
    ensures forall k :: 0 <= k < |r.1| ==> Longest(r.1[k], Join(r.0[k + 1..], r.1[k + 1..]))
    ensures forall k :: 0 <= k < |r.1| ==> Leftmost(r.0[k], r.1[k])
    decreases |s| - q
  {
    if q == |s| then
      NoBlankLineBeforeMatch(s, p, q);
      assert s[p..] == s[p..q];
      ([s[p..]], [])
    else
      match MatchAt(s, q)
      case None => SplitFrom(s, p, q + 1)
      case Some(e) =>
        var rest := SplitFrom(s, e, e);
        NoBlankLineBeforeMatch(s, p, q);
        JoinStep(s, p, q, e, rest.0, rest.1);
        LongestStep(s, p, q, e, rest.0, rest.1);
        LeftmostStep(s, p, q, e, rest.0, rest.1);
        ([s[p..q]] + rest.0, [s[q..e]] + rest.1)
  }

  /** `sep` is as long as a match can be with `rest` after it: the greedy `\s*` kept every line
      break of the white-space run, so no longer stretch is a separator. */
  predicate Longest(sep: string, rest: string) {
    forall m :: 0 < m <= |rest| ==> !IsSeparator(sep + rest[..m])
  }

  /** No match of the pattern starts inside `piece` and ends by the end of `sep`: the scan took
      the first place where the pattern matches. */
  predicate Leftmost(piece: string, sep: string) {
    forall i, e :: 0 <= i < |piece| && i < e <= |piece| + |sep| ==> !IsSeparator((piece + sep)[i..e])
  }

  /** The piece cut at `q` holds no earlier match, and the pieces after it keep theirs. */
  lemma LeftmostStep(s: string, p: nat, q: nat, e: nat, pieces: seq<string>, seps: seq<string>)
    requires p <= q < e <= |s|
    requires forall k :: p <= k < q ==> MatchAt(s, k).None?
    requires |pieces| == |seps| + 1
    requires forall k :: 0 <= k < |seps| ==> Leftmost(pieces[k], seps[k])
    ensures var ps, ss := [s[p..q]] + pieces, [s[q..e]] + seps;
      forall k :: 0 <= k < |ss| ==> Leftmost(ps[k], ss[k])
  {
    var ps, ss := [s[p..q]] + pieces, [s[q..e]] + seps;
    assert s[p..q] + s[q..e] == s[p..e];
    forall i, j | 0 <= i < q - p && i < j <= e - p ensures !IsSeparator(s[p..e][i..j]) {
      SliceOfSlice(s, p, e, i, j);
      assert MatchAt(s, p + i).None?;
    }
    forall k | 1 <= k < |ss| ensures Leftmost(ps[k], ss[k]) {
      assert ps[k] == pieces[k - 1] && ss[k] == seps[k - 1];
    }
  }

  /** The match found at `q` is the longest there, whatever follows it. */
  lemma MatchIsLongest(s: string, q: nat, e: nat)
    requires q < e <= |s| && MatchAt(s, q) == Some(e)
    ensures Longest(s[q..e], s[e..])
  {
    forall m | 0 < m <= |s[e..]| ensures !IsSeparator(s[q..e] + s[e..][..m]) {
      assert s[q..e] + s[e..][..m] == s[q..e + m];
    }
  }

  /** The match found at `q` is the longest there, and the separators after it stay longest. */
  lemma LongestStep(s: string, p: nat, q: nat, e: nat, pieces: seq<string>, seps: seq<string>)
    requires p <= q < e <= |s| && MatchAt(s, q) == Some(e)
    requires |pieces| == |seps| + 1 && Join(pieces, seps) == s[e..]
    requires forall k :: 0 <= k < |seps| ==> Longest(seps[k], Join(pieces[k + 1..], seps[k + 1..]))
    ensures var ps, ss := [s[p..q]] + pieces, [s[q..e]] + seps;
      forall k :: 0 <= k < |ss| ==> Longest(ss[k], Join(ps[k + 1..], ss[k + 1..]))
  {
    MatchIsLongest(s, q, e);
    LongestShift(s[p..q], s[q..e], pieces, seps);
  }

  /** Putting a piece and a longest separator in front of the rest keeps every separator
      longest. */
  lemma LongestShift(piece: string, sep: string, pieces: seq<string>, seps: seq<string>)
    requires |pieces| == |seps| + 1 && Longest(sep, Join(pieces, seps))
    requires forall k :: 0 <= k < |seps| ==> Longest(seps[k], Join(pieces[k + 1..], seps[k + 1..]))
    ensures var ps, ss := [piece] + pieces, [sep] + seps;
      forall k :: 0 <= k < |ss| ==> Longest(ss[k], Join(ps[k + 1..], ss[k + 1..]))
  {
    var ps, ss := [piece] + pieces, [sep] + seps;
    assert ps[1..] == pieces && ss[1..] == seps;
    forall k | 1 <= k < |ss| ensures Longest(ss[k], Join(ps[k + 1..], ss[k + 1..])) {
      assert ss[k] == seps[k - 1];
      assert ps[k + 1..] == pieces[k..] && ss[k + 1..] == seps[k..];
    }
  }

  /** Putting back the piece before a match and the match itself in front of the rest. */
  lemma JoinStep(s: string, p: nat, q: nat, e: nat, pieces: seq<string>, seps: seq<string>)
    requires p <= q <= e <= |s|
    requires |pieces| == |seps| + 1 && Join(pieces, seps) == s[e..]
    ensures Join([s[p..q]] + pieces, [s[q..e]] + seps) == s[p..]
  {
    var ps, ss := [s[p..q]] + pieces, [s[q..e]] + seps;
    assert ps[1..] == pieces && ss[1..] == seps;
    assert Join(ps, ss) == s[p..q] + s[q..e] + Join(pieces, seps);
    assert s[p..] == s[p..q] + s[q..e] + s[e..];
  }

  /** A stretch the scan has passed over without a match holds no blank line. */
  lemma NoBlankLineBeforeMatch(s: string, p: nat, q: nat)
    requires p <= q <= |s|
    requires forall k :: p <= k < q ==> MatchAt(s, k).None?
    ensures !HasBlankLine(s[p..q])
  {
    if HasBlankLine(s[p..q]) {
      var i, j :| BlankLineAt(s[p..q], i, j);
      SliceOfSlice(s, p, q, i, j + 1);
      MatchesBlankLine(s, p + i, p + j);
    }
  }

  /** `aiExplanationLong.split(/\n\s*\n/)`. */
  function Split(s: string): (r: seq<string>)
    ensures |r| >= 1
  {
    SplitFrom(s, 0, 0).0
  }

  /** Splitting cuts `s` only at blank-line separators and leaves no blank line inside a piece. */
  lemma SplitSound(s: string)
    ensures var (pieces, seps) := SplitFrom(s, 0, 0);
      && pieces == Split(s)
      && Join(pieces, seps) == s
      && (forall k :: 0 <= k < |seps| ==> IsSeparator(seps[k]))
      && (forall k :: 0 <= k < |pieces| ==> !HasBlankLine(pieces[k]))
      && (forall k :: 0 <= k < |seps| ==> Longest(seps[k], Join(pieces[k + 1..], seps[k + 1..])))
      && (forall k :: 0 <= k < |seps| ==> Leftmost(pieces[k], seps[k]))
  {
    assert s[0..] == s;
  }

  /** A run of blank lines is one separator: the greedy `\s*` takes every line break of it, so
      no empty paragraph appears between the two texts. */
  lemma BlankRunSplitsOnce()
    ensures Split("a\n\n\n\nb") == ["a", "b"]
  {
    var s := "a\n\n\n\nb";
    assert MatchAt(s, 0).None?;
    assert SpaceRunEnd(s, 2) == 5;
    assert LastNewline(s, 2, 5) == Some(4);
    assert MatchAt(s, 1) == Some(5);
    assert MatchAt(s, 5).None?;
    assert SplitFrom(s, 5, 5).0 == ["b"];
    assert s[0..1] == "a";
  }

  /** Text without a blank line is one paragraph. */
  lemma {:induction false} SplitWithoutBlankLine(s: string, p: nat, q: nat)
    requires p <= q <= |s|
    requires forall k :: p <= k < q ==> MatchAt(s, k).None?
    requires forall k :: q <= k < |s| ==> MatchAt(s, k).None?
    ensures SplitFrom(s, p, q).0 == [s[p..]]
    decreases |s| - q
  {
    if q < |s| {
      SplitWithoutBlankLine(s, p, q + 1);
    }
  }

  /** The paragraphs shown by "read more": every piece of the split, trimmed. */
  function ParagraphsOf(long: string): (r: seq<string>)
    ensures |r| == |Split(long)|
    ensures forall k :: 0 <= k < |r| ==> r[k] == Trim(Split(long)[k])
  {
    var pieces := Split(long);
    seq(|pieces|, k requires 0 <= k < |pieces| => Trim(pieces[k]))
  }
}

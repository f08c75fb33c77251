/**
 * The pieces of Go's `strings` and `path/filepath` packages that the server and
 * the configuration loader use, over Dafny strings (`seq<char>`).
 */
module Text {

  predicate HasPrefix(s: string, p: string) {
    |p| <= |s| && s[..|p|] == p
  }

  predicate HasSuffix(s: string, x: string) {
    |x| <= |s| && s[|s| - |x|..] == x
  }

  /** `sub` occurs in `s` starting at index `i`. */
  predicate OccursAt(s: string, sub: string, i: int) {
    0 <= i && i + |sub| <= |s| && s[i..i + |sub|] == sub
  }

  lemma OccursAtTail(s: string, sub: string, i: int)
    requires |s| > 0 && i >= 1
    ensures OccursAt(s, sub, i) <==> OccursAt(s[1..], sub, i - 1)
  {
    if i + |sub| <= |s| {
      assert s[i..i + |sub|] == s[1..][i - 1..i - 1 + |sub|];
    }
  }

  lemma OccursAtChar(s: string, c: char, i: int)
    requires 0 <= i < |s|
    ensures OccursAt(s, [c], i) <==> s[i] == c
  {
    assert s[i..i + 1] == [s[i]];
  }

  /** strings.Index: the first index at which `sub` occurs in `s`, or -1. */
  function IndexOf(s: string, sub: string): (r: int)
    ensures -1 <= r <= |s|
    ensures r >= 0 ==> OccursAt(s, sub, r) && forall j :: 0 <= j < r ==> !OccursAt(s, sub, j)
    ensures r == -1 ==> forall j :: !OccursAt(s, sub, j)
    decreases |s|
  {
    if |s| < |sub| then -1
    else if s[..|sub|] == sub then 0
    else
      var k := IndexOf(s[1..], sub);
      assert forall j :: 1 <= j ==> (OccursAt(s, sub, j) <==> OccursAt(s[1..], sub, j - 1)) by {
        forall j | 1 <= j ensures OccursAt(s, sub, j) <==> OccursAt(s[1..], sub, j - 1) {
          OccursAtTail(s, sub, j);
        }
      }
      if k < 0 then -1 else k + 1
  }

  /** strings.Contains: a plain substring test. */
  function Contains(s: string, sub: string): (r: bool)
    ensures r <==> exists j :: OccursAt(s, sub, j)
  {
    IndexOf(s, sub) >= 0
  }

  /** strings.TrimSuffix: `s` without the suffix `x`, or `s` itself when `x` is not a suffix. */
  function TrimSuffix(s: string, x: string): (r: string)
    ensures HasSuffix(s, x) ==> r + x == s
    ensures !HasSuffix(s, x) ==> r == s
  {
    if HasSuffix(s, x) then s[..|s| - |x|] else s
  }

  /** strings.Split with a one-character separator: the pieces between separators, at least one. */
  function Split(s: string, sep: char): (r: seq<string>)
    ensures |r| >= 1
    decreases |s|
  {
    var k := IndexOf(s, [sep]);
    if k < 0 then [s]
    else
      OccursAtChar(s, sep, k);
      [s[..k]] + Split(s[k + 1..], sep)
  }

  /** No character of `p` is `c`. */
  predicate Excludes(p: string, c: char) {
    forall i :: 0 <= i < |p| ==> p[i] != c
  }

  /** No piece of a split contains the separator. */
  lemma {:induction false} SplitPiecesFree(s: string, sep: char)
    ensures forall i :: 0 <= i < |Split(s, sep)| ==> Excludes(Split(s, sep)[i], sep)
    decreases |s|
  {
    var k := IndexOf(s, [sep]);
    if k < 0 {
      forall i | 0 <= i < |s| ensures s[i] != sep { OccursAtChar(s, sep, i); }
      assert Split(s, sep) == [s];
    } else {
      SplitStep(s, sep, k);
      var first := s[..k];
      forall i | 0 <= i < k ensures first[i] != sep { OccursAtChar(s, sep, i); }
      SplitPiecesFree(s[k + 1..], sep);
      var rest := Split(s[k + 1..], sep);
      PiecesFreeCons(first, rest, sep);
    }
  }

  lemma PiecesFreeCons(first: string, rest: seq<string>, sep: char)
    requires Excludes(first, sep)
    requires forall i :: 0 <= i < |rest| ==> Excludes(rest[i], sep)
    ensures forall i :: 0 <= i < |[first] + rest| ==> Excludes(([first] + rest)[i], sep)
  {
    forall i | 0 <= i < |[first] + rest| ensures Excludes(([first] + rest)[i], sep) {
      if i > 0 {
        assert ([first] + rest)[i] == rest[i - 1];
      }
    }
  }

  /** strings.Join with a one-character separator. */
  function JoinWith(pieces: seq<string>, sep: char): string
    requires |pieces| >= 1
  {
    if |pieces| == 1 then pieces[0] else pieces[0] + [sep] + JoinWith(pieces[1..], sep)
  }

  /** Joining the pieces of a split gives back the string. */
  lemma {:induction false} JoinSplit(s: string, sep: char)
    ensures JoinWith(Split(s, sep), sep) == s
    decreases |s|
  {
    var k := IndexOf(s, [sep]);
    if k >= 0 {
      OccursAtChar(s, sep, k);
      JoinSplit(s[k + 1..], sep);
      SplitStep(s, sep, k);
      JoinStep(s[..k], Split(s[k + 1..], sep), sep);
      assert s == s[..k] + [sep] + s[k + 1..];
    }
  }

  /** Split at a separator: the piece before it, then the split of the rest. */
  lemma SplitStep(s: string, sep: char, k: int)
    requires k == IndexOf(s, [sep]) && k >= 0
    ensures k < |s| && Split(s, sep) == [s[..k]] + Split(s[k + 1..], sep)
  {
    OccursAtChar(s, sep, k);
  }

  /** JoinWith of a piece followed by more pieces. */
  lemma JoinStep(p: string, rest: seq<string>, sep: char)
    requires |rest| >= 1
    ensures JoinWith([p] + rest, sep) == p + [sep] + JoinWith(rest, sep)
  {
    assert ([p] + rest)[1..] == rest;
  }

  /** Splitting a join of separator-free pieces gives back the pieces. */
  lemma {:induction false} SplitJoin(pieces: seq<string>, sep: char)
    requires |pieces| >= 1
    requires forall i :: 0 <= i < |pieces| ==> Excludes(pieces[i], sep)
    ensures Split(JoinWith(pieces, sep), sep) == pieces
    decreases |pieces|
  {
    var s := JoinWith(pieces, sep);
    var k := IndexOf(s, [sep]);
    if |pieces| == 1 {
      if k >= 0 {
        OccursAtChar(s, sep, k);
        assert false;
      }
    } else {
      var p := pieces[0];
      var rest := JoinWith(pieces[1..], sep);
      assert s == p + [sep] + rest;
      FirstSeparator(p, rest, sep);
      assert s[..|p|] == p;
      assert s[|p| + 1..] == rest;
      SplitJoin(pieces[1..], sep);
      assert Split(s, sep) == [p] + Split(rest, sep);
    }
  }

  /** In `p + [sep] + rest` with `sep` not in `p`, the first separator is the one after `p`. */
  lemma FirstSeparator(p: string, rest: string, sep: char)
    requires Excludes(p, sep)
    ensures IndexOf(p + [sep] + rest, [sep]) == |p|
  {
    var s := p + [sep] + rest;
    OccursAtChar(s, sep, |p|);
    forall j | 0 <= j < |p| ensures !OccursAt(s, [sep], j) {
      OccursAtChar(s, sep, j);
      assert s[j] == p[j];
    }
  }

  /**
   * filepath.Ext: the suffix of `path` starting at the final dot of its last
   * `/`-separated element, or "" when that element has no dot.
   */
  function Ext(path: string): (r: string)
    ensures HasSuffix(path, r)
    ensures r != [] ==> r[0] == '.' && forall i :: 1 <= i < |r| ==> r[i] != '.' && r[i] != '/'
    ensures r == [] ==> forall i :: 0 <= i < |path| && path[i] == '.' ==> exists j :: i < j < |path| && path[j] == '/'
    decreases |path|
  {
    if |path| == 0 then ""
    else
      var c := path[|path| - 1];
      if c == '/' then ""
      else if c == '.' then [c]
      else
        var e := Ext(path[..|path| - 1]);
        if e == [] then "" else e + [c]
  }
}

/**
 * The parts of Go's `strings` and `path/filepath` packages that the
 * transcoder relies on, for a one-character separator: `strings.Split`,
 * with `strings.Join` as its inverse (not used by the transcoder), and
 * `filepath.Base` with '/' as the path separator.
 */
module GoStrings {

  /** Number of occurrences of `c` in `s`. */
  function Count(s: string, c: char): nat
    decreases |s|
  {
    if |s| == 0 then 0 else (if s[0] == c then 1 else 0) + Count(s[1..], c)
  }

  /** Index of the first `c` in `s`, or `|s|` when there is none. */
  function IndexOf(s: string, c: char): (k: nat)
    ensures k <= |s|
    ensures k < |s| ==> s[k] == c
    ensures forall j :: 0 <= j < k ==> s[j] != c
    decreases |s|
  {
    if |s| == 0 then 0 else if s[0] == c then 0 else 1 + IndexOf(s[1..], c)
  }

  /**
   * `strings.Split(s, [sep])`: the maximal runs of `s` between occurrences
   * of `sep`. With a non-empty separator there is always one more piece
   * than there are separators, so the result is never empty, and no piece
   * contains the separator.
   */
  function Split(s: string, sep: char): (r: seq<string>)
    ensures |r| == Count(s, sep) + 1
    ensures forall i :: 0 <= i < |r| ==> sep !in r[i]
    decreases |s|
  {
    if |s| == 0 then [""]
    else if s[0] == sep then [""] + Split(s[1..], sep)
    else
      var rest := Split(s[1..], sep);
      [[s[0]] + rest[0]] + rest[1..]
  }

  /** `strings.Join(ps, [sep])` for a non-empty list of pieces. */
  function Join(ps: seq<string>, sep: char): string
    requires |ps| >= 1
    decreases |ps|
  {
    if |ps| == 1 then ps[0] else ps[0] + [sep] + Join(ps[1..], sep)
  }

  /** A string without the separator splits into itself alone. */
  lemma {:induction false} SplitNoSep(s: string, sep: char)
    requires sep !in s
    ensures Split(s, sep) == [s]
    decreases |s|
  {
    if |s| > 0 {
      assert sep !in s[1..];
      SplitNoSep(s[1..], sep);
      assert [s[0]] + s[1..] == s;
    }
  }

  /** Splitting distributes over a separator placed between two strings. */
  lemma {:induction false} SplitAppend(a: string, b: string, sep: char)
    ensures Split(a + [sep] + b, sep) == Split(a, sep) + Split(b, sep)
    decreases |a|
  {
    var s := a + [sep] + b;
    if |a| == 0 {
      assert s[0] == sep && s[1..] == b;
    } else {
      assert s[0] == a[0] && s[1..] == a[1..] + [sep] + b;
      SplitAppend(a[1..], b, sep);
    }
  }

  /** Split has an inverse: joining the pieces gives back the input. */
  lemma {:induction false} SplitJoin(s: string, sep: char)
    ensures Join(Split(s, sep), sep) == s
    decreases |s|
  {
    if |s| > 0 {
      SplitJoin(s[1..], sep);
      var rest := Split(s[1..], sep);
      if s[0] == sep {
        assert Split(s, sep) == [""] + rest;
        assert ([""] + rest)[1..] == rest;
        assert s == [sep] + s[1..];
      } else {
        var r := Split(s, sep);
        assert r == [[s[0]] + rest[0]] + rest[1..];
        if |rest| == 1 {
          assert rest == [s[1..]];
          assert s == [s[0]] + s[1..];
        } else {
          assert r[1..] == rest[1..];
          assert Join(rest, sep) == rest[0] + [sep] + Join(rest[1..], sep);
          assert s == [s[0]] + s[1..];
        }
      }
    }
  }

  /** Join has an inverse on pieces free of the separator. */
  lemma {:induction false} JoinSplit(ps: seq<string>, sep: char)
    requires |ps| >= 1
    requires forall i :: 0 <= i < |ps| ==> sep !in ps[i]
    ensures Split(Join(ps, sep), sep) == ps
    decreases |ps|
  {
    SplitNoSep(ps[0], sep);
    if |ps| > 1 {
      JoinSplit(ps[1..], sep);
      SplitAppend(ps[0], Join(ps[1..], sep), sep);
      assert [ps[0]] + ps[1..] == ps;
    }
  }

  /** The first piece of a split is the text before the first separator. */
  lemma {:induction false} SplitFirst(s: string, sep: char)
    ensures Split(s, sep)[0] == s[..IndexOf(s, sep)]
    decreases |s|
  {
    if |s| > 0 && s[0] != sep {
      SplitFirst(s[1..], sep);
      assert s[..IndexOf(s, sep)] == [s[0]] + s[1..][..IndexOf(s[1..], sep)];
    }
  }

  /** `s` with every trailing `c` removed. */
  function TrimTrailing(s: string, c: char): (r: string)
    ensures |r| <= |s| && r == s[..|r|]
    ensures |r| > 0 ==> r[|r| - 1] != c
    ensures forall j :: |r| <= j < |s| ==> s[j] == c
    decreases |s|
  {
    if |s| > 0 && s[|s| - 1] == c then TrimTrailing(s[..|s| - 1], c) else s
  }

  /** Start of the text after the last `c` in `s` (0 when there is no `c`). */
  function LastSegmentStart(s: string, c: char): (k: nat)
    ensures k <= |s|
    ensures k > 0 ==> s[k - 1] == c
    ensures forall j :: k <= j < |s| ==> s[j] != c
    decreases |s|
  {
    if |s| == 0 then 0
    else if s[|s| - 1] == c then |s|
    else LastSegmentStart(s[..|s| - 1], c)
  }

  /** Occurrences add up over a concatenation. */
  lemma {:induction false} CountAppend(a: string, b: string, c: char)
    ensures Count(a + b, c) == Count(a, c) + Count(b, c)
    decreases |a|
  {
    if |a| > 0 {
      assert (a + b)[0] == a[0] && (a + b)[1..] == a[1..] + b;
      CountAppend(a[1..], b, c);
    } else {
      assert a + b == b;
    }
  }

  /** A string without `c` has no occurrence of it. */
  lemma {:induction false} CountNone(s: string, c: char)
    requires c !in s
    ensures Count(s, c) == 0
    decreases |s|
  {
    if |s| > 0 {
      assert c !in s[1..];
      CountNone(s[1..], c);
    }
  }

  /**
   * A string with at least one `c` is the text before its last `c`, that
   * `c`, and a rest free of `c`; the text before holds one `c` fewer.
   */
  lemma SplitAtLast(s: string, c: char)
    requires Count(s, c) >= 1
    ensures var k := LastSegmentStart(s, c);
      k >= 1 && s == s[..k - 1] + [c] + s[k..] && c !in s[k..] &&
      Count(s[..k - 1], c) == Count(s, c) - 1
  {
    var k := LastSegmentStart(s, c);
    var front, back := s[..k], s[k..];
    assert front + back == s;
    CountAppend(front, back, c);
    assert c !in back;
    CountNone(back, c);
    assert Count(front, c) >= 1;
    assert front[..k - 1] + [c] == front;
    CountAppend(front[..k - 1], [c], c);
    assert front[..k - 1] == s[..k - 1];
  }

  /**
   * `filepath.Base` on a system whose separator is '/': the last element of
   * the path, after trailing slashes are removed; "." for the empty path and
   * "/" for a path of slashes only. With `t` the path without its trailing
   * slashes, a non-empty `t` has as base its longest suffix free of '/',
   * which either is all of `t` or follows a '/'.
   */
  function Base(path: string): (r: string)
    ensures r != ""
    ensures r == "/" || '/' !in r
    ensures path == "" ==> r == "."
    ensures path != "" && '/' !in path ==> r == path
    ensures path != "" ==> (r == "/" <==> TrimTrailing(path, '/') == "")
    ensures var t := TrimTrailing(path, '/');
      t != "" ==>
        |r| <= |t| && r == t[|t| - |r|..] && '/' !in r && (|r| == |t| || t[|t| - |r| - 1] == '/')
  {
    if path == "" then "."
    else
      var t := TrimTrailing(path, '/');
      if t == "" then "/" else t[LastSegmentStart(t, '/')..]
  }
}

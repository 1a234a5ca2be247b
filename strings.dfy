/** The few Python `str` operations the wrapper relies on: `in`, `split`, `strip` and `replace`. */
module Strings {

  /** `sub in s`: `sub` occurs in `s` as a contiguous piece (the empty string occurs everywhere). */
  predicate Contains(s: string, sub: string)
    decreases |s|
  {
    sub <= s || (|s| > 0 && Contains(s[1..], sub))
  }

  /** A piece with a character that `s` lacks does not occur in `s`. */
  lemma {:induction false} MissingCharNotContained(s: string, sub: string, c: char)
    requires c in sub && c !in s
    ensures !Contains(s, sub)
    decreases |s|
  {
    if |s| > 0 { MissingCharNotContained(s[1..], sub, c); }
  }

  /** `sub` occurs in `s` starting at position `i`. */
  predicate OccursAt(s: string, sub: string, i: int)
  {
    0 <= i && i + |sub| <= |s| && s[i..i + |sub|] == sub
  }

  /** `s.split(c)` for a one-character separator: the pieces between the separators, in order,
      an empty piece wherever two separators touch or a separator ends the string. */
  function Split(s: string, c: char): (parts: seq<string>)
    ensures |parts| >= 1
    ensures forall i :: 0 <= i < |parts| ==> c !in parts[i]
    ensures parts[0] <= s && (|parts[0]| < |s| ==> s[|parts[0]|] == c)
    ensures c !in s ==> parts == [s]
    decreases |s|
  {
    if |s| == 0 then [""]
    else if s[0] == c then [""] + Split(s[1..], c)
    else
      var rest := Split(s[1..], c);
      assert [s[0]] + s[1..] == s;
      [[s[0]] + rest[0]] + rest[1..]
  }

  /** The text of `s` before its first `c`, all of `s` when it has none. */
  function Before(s: string, c: char): string
    decreases |s|
  {
    if |s| == 0 || s[0] == c then "" else [s[0]] + Before(s[1..], c)
  }

  /** `s.split(c)[0]` is the text before the first `c`. */
  lemma {:induction false} BeforeSplit(s: string, c: char)
    ensures Before(s, c) == Split(s, c)[0]
    decreases |s|
  {
    if |s| > 0 && s[0] != c {
      BeforeSplit(s[1..], c);
    }
  }

  /** `c.join(parts)`. */
  function Join(parts: seq<string>, c: char): string
  {
    if |parts| == 0 then "" else if |parts| == 1 then parts[0] else parts[0] + [c] + Join(parts[1..], c)
  }

  /** Splitting and joining again gives back the string: no character is lost by `split`. */
  lemma {:induction false} SplitJoin(s: string, c: char)
    ensures Join(Split(s, c), c) == s
    decreases |s|
  {
    if |s| == 0 {
    } else if s[0] == c {
      SplitJoin(s[1..], c);
      var rest := Split(s[1..], c);
      assert Split(s, c) == [""] + rest;
      assert Join([""] + rest, c) == "" + [c] + Join(rest, c);
    } else {
      SplitJoin(s[1..], c);
      var rest := Split(s[1..], c);
      assert Split(s, c)[1..] == rest[1..];
      if |rest| == 1 {
        assert Join(Split(s, c), c) == [s[0]] + rest[0];
      } else {
        assert Join(rest, c) == rest[0] + [c] + Join(rest[1..], c);
        assert Join(Split(s, c), c) == ([s[0]] + rest[0]) + [c] + Join(rest[1..], c);
      }
    }
  }

  /** The first piece of a split is the text before the first separator. */
  lemma {:induction false} SplitFirstPiece(a: string, b: string, c: char)
    requires c !in a
    ensures Split(a + [c] + b, c)[0] == a
    decreases |a|
  {
    if |a| > 0 {
      assert (a + [c] + b)[1..] == a[1..] + [c] + b;
      SplitFirstPiece(a[1..], b, c);
      assert [a[0]] + a[1..] == a;
    } else {
      assert (a + [c] + b)[0] == c;
    }
  }

  /** A separator that occurs once splits the string into exactly the text before and after it. */
  lemma {:induction false} SplitAtOnly(a: string, b: string, c: char)
    requires c !in a && c !in b
    ensures Split(a + [c] + b, c) == [a, b]
    decreases |a|
  {
    if |a| == 0 {
      assert a + [c] + b == [c] + b;
      assert (a + [c] + b)[1..] == b;
    } else {
      assert (a + [c] + b)[1..] == a[1..] + [c] + b;
      SplitAtOnly(a[1..], b, c);
      assert [a[0]] + a[1..] == a;
    }
  }

  function StripLeft(s: string, c: char): string
    decreases |s|
  {
    if |s| > 0 && s[0] == c then StripLeft(s[1..], c) else s
  }

  function StripRight(s: string, c: char): string
    decreases |s|
  {
    if |s| > 0 && s[|s| - 1] == c then StripRight(s[..|s| - 1], c) else s
  }

  /** `s.strip(c)`: `s` with every leading and trailing `c` removed, nothing in between touched. */
  function Strip(s: string, c: char): (r: string)
    ensures |r| > 0 ==> r[0] != c && r[|r| - 1] != c
    ensures exists i, j :: 0 <= i <= j <= |s| && r == s[i..j] && AllChar(s[..i], c) && AllChar(s[j..], c)
    ensures c !in s ==> r == s
  {
    StripShape(s, c);
    if c !in s then StripAbsent(s, c); StripRight(StripLeft(s, c), c) else StripRight(StripLeft(s, c), c)
  }

  lemma StripShape(s: string, c: char)
    ensures var r := StripRight(StripLeft(s, c), c);
      && (|r| > 0 ==> r[0] != c && r[|r| - 1] != c)
      && (exists i, j :: 0 <= i <= j <= |s| && r == s[i..j] && AllChar(s[..i], c) && AllChar(s[j..], c))
  {
    var l := StripLeft(s, c);
    var i := StripLeftShape(s, c);
    var j := StripRightShape(l, c);
    var r := StripRight(l, c);
    assert r == s[i..i + j];
    assert s[i + j..] == l[j..];
  }

  /** Stripping a character that does not occur changes nothing. */
  lemma StripAbsent(s: string, c: char)
    requires c !in s
    ensures StripRight(StripLeft(s, c), c) == s
  {
    assert |s| > 0 ==> s[0] in s && s[|s| - 1] in s;
  }

  predicate AllChar(s: string, c: char)
  {
    forall k :: 0 <= k < |s| ==> s[k] == c
  }

  /** Stripping from the left drops a prefix made only of `c`, and stops at a character that is
      not `c`. */
  lemma {:induction false} StripLeftShape(s: string, c: char) returns (i: nat)
    ensures i <= |s| && StripLeft(s, c) == s[i..] && AllChar(s[..i], c) && (i < |s| ==> s[i] != c)
    decreases |s|
  {
    if |s| > 0 && s[0] == c {
      var k := StripLeftShape(s[1..], c);
      i := k + 1;
      assert s[1..][k..] == s[i..];
      forall m | 0 <= m < i ensures s[m] == c {
        if m > 0 { assert s[m] == s[1..][..k][m - 1]; }
      }
    } else {
      i := 0;
    }
  }

  /** Stripping from the right drops a suffix made only of `c`, and stops at a character that is
      not `c`. */
  lemma {:induction false} StripRightShape(s: string, c: char) returns (j: nat)
    ensures j <= |s| && StripRight(s, c) == s[..j] && AllChar(s[j..], c) && (j > 0 ==> s[j - 1] != c)
    decreases |s|
  {
    if |s| > 0 && s[|s| - 1] == c {
      var t := s[..|s| - 1];
      j := StripRightShape(t, c);
      assert t[..j] == s[..j];
      forall m | 0 <= m < |s| - j ensures s[j..][m] == c {
        if m < |s| - 1 - j { assert s[j..][m] == t[j..][m]; }
      }
    } else {
      j := |s|;
    }
  }

  /** `s.replace(pat, rep)`: every occurrence of `pat`, taken left to right without overlap,
      replaced by `rep`. */
  function ReplaceAll(s: string, pat: string, rep: string): string
    requires |pat| > 0
    decreases |s|
  {
    if |s| < |pat| then s
    else if s[..|pat|] == pat then rep + ReplaceAll(s[|pat|..], pat, rep)
    else [s[0]] + ReplaceAll(s[1..], pat, rep)
  }

  /** An occurrence in a suffix of `s` is an occurrence in `s`, shifted. */
  lemma OccursShift(s: string, k: nat, pat: string, i: int)
    requires k <= |s| && OccursAt(s[k..], pat, i)
    ensures OccursAt(s, pat, k + i)
  {
    assert s[k..][i..i + |pat|] == s[k + i..k + i + |pat|];
  }

  /** Replacing a piece that does not occur leaves the string as it was. */
  lemma {:induction false} ReplaceAbsent(s: string, pat: string, rep: string)
    requires |pat| > 0
    requires forall i :: !OccursAt(s, pat, i)
    ensures ReplaceAll(s, pat, rep) == s
    decreases |s|
  {
    if |s| >= |pat| {
      assert !OccursAt(s, pat, 0);
      forall i ensures !OccursAt(s[1..], pat, i) {
        if OccursAt(s[1..], pat, i) {
          OccursShift(s, 1, pat, i);
        }
      }
      ReplaceAbsent(s[1..], pat, rep);
    }
  }

  /** Replacing a piece that occurs exactly once replaces that one place and nothing else. */
  lemma {:induction false} ReplaceUnique(a: string, b: string, pat: string, rep: string)
    requires |pat| > 0
    requires forall i :: OccursAt(a + pat + b, pat, i) ==> i == |a|
    ensures ReplaceAll(a + pat + b, pat, rep) == a + rep + b
    decreases |a|
  {
    var s := a + pat + b;
    if |a| == 0 {
      assert s[..|pat|] == pat;
      assert s[|pat|..] == b;
      forall i ensures !OccursAt(b, pat, i) {
        if OccursAt(b, pat, i) {
          OccursShift(s, |pat|, pat, i);
        }
      }
      ReplaceAbsent(b, pat, rep);
    } else {
      assert !OccursAt(s, pat, 0);
      assert s[1..] == a[1..] + pat + b;
      forall i | OccursAt(a[1..] + pat + b, pat, i) ensures i == |a[1..]| {
        OccursShift(s, 1, pat, i);
      }
      ReplaceUnique(a[1..], b, pat, rep);
      assert [a[0]] + (a[1..] + rep + b) == a + rep + b;
    }
  }
}

/** `detect_sequence`: turns the path of one frame into the printf-style path of its sequence
    by finding the frame number (4 to 8 digits, or 4 to 8 `#`, right before `.exr` or `.EXR`)
    and putting a `%0Nd` conversion in its place. */
module Sequence {
  import opened Wrappers
  import opened Strings
  import opened Format

  /** The two kinds of frame placeholder the pattern accepts: digits, or `#` signs. */
  predicate InClass(c: char, digits: bool)
  {
    if digits then IsDigit(c) else c == '#'
  }

  /** The number of characters of one class from position `i` on. */
  function Run(s: string, i: nat, digits: bool): (r: nat)
    requires i <= |s|
    ensures i + r <= |s|
    ensures forall j :: i <= j < i + r ==> InClass(s[j], digits)
    ensures i + r < |s| ==> !InClass(s[i + r], digits)
    decreases |s| - i
  {
    if i < |s| && InClass(s[i], digits) then 1 + Run(s, i + 1, digits) else 0
  }

  /** `.exr` or `.EXR` starts at position `j`. */
  predicate Extension(s: string, j: nat)
  {
    j + 4 <= |s| && (s[j..j + 4] == ".exr" || s[j..j + 4] == ".EXR")
  }

  /** The regular expression `(\d{4,8}|#{4,8})\.(exr|EXR)` matches at position `i` with a first
      group of length `k`, read directly off the pattern. */
  predicate PatternAt(s: string, i: nat, k: nat)
  {
    4 <= k <= 8 && i + k <= |s|
    && ((forall j :: i <= j < i + k ==> IsDigit(s[j])) || (forall j :: i <= j < i + k ==> s[j] == '#'))
    && Extension(s, i + k)
  }

  /** The length of the placeholder that would start at `i`: the run of its class. */
  function RunAt(s: string, i: nat): nat
    requires i < |s|
  {
    Run(s, i, IsDigit(s[i]))
  }

  /** The pattern matches at `i`: the run starting there is a placeholder of 4 to 8 characters
      and the extension follows it. */
  predicate MatchAt(s: string, i: nat)
  {
    i < |s| && (IsDigit(s[i]) || s[i] == '#') && 4 <= RunAt(s, i) <= 8 && Extension(s, i + RunAt(s, i))
  }

  lemma {:induction false} RunExact(s: string, i: nat, k: nat, digits: bool)
    requires i + k <= |s|
    requires forall j :: i <= j < i + k ==> InClass(s[j], digits)
    requires i + k < |s| ==> !InClass(s[i + k], digits)
    ensures Run(s, i, digits) == k
    decreases k
  {
    if k > 0 {
      RunExact(s, i + 1, k - 1, digits);
    }
  }

  /** The pattern matches at `i` exactly when `MatchAt` says so, and then the digits or `#`
      signs it captures are the whole run starting at `i`: the backtracking of `\d{4,8}` can
      never stop inside a run, because a digit is not a `.`. */
  lemma MatchAtIsPattern(s: string, i: nat)
    ensures MatchAt(s, i) <==> exists k :: PatternAt(s, i, k)
    ensures forall k :: PatternAt(s, i, k) ==> k == RunAt(s, i)
  {
    forall k | PatternAt(s, i, k)
      ensures k == RunAt(s, i)
    {
      assert s[i + k] == '.';
      if forall j :: i <= j < i + k ==> IsDigit(s[j]) {
        RunExact(s, i, k, true);
      } else {
        RunExact(s, i, k, false);
      }
    }
    if MatchAt(s, i) {
      var k := RunAt(s, i);
      if IsDigit(s[i]) {
        assert forall j :: i <= j < i + k ==> IsDigit(s[j]);
      } else {
        assert forall j :: i <= j < i + k ==> s[j] == '#';
      }
      assert PatternAt(s, i, k);
    }
  }

  /** The pattern matches nowhere in `[from, to)`. */
  predicate NoMatchBetween(s: string, from: nat, to: nat)
  {
    forall j :: from <= j < to ==> !MatchAt(s, j)
  }

  /** The pattern matches nowhere from `from` on. */
  ghost predicate NoMatchFrom(s: string, from: nat)
  {
    forall j :: from <= j ==> !MatchAt(s, j)
  }

  /** The leftmost position from `from` on where the pattern matches, as `re.findall` reports
      its first match. */
  function FirstMatch(s: string, from: nat): (r: Option<nat>)
    ensures r.Some? ==> from <= r.value && MatchAt(s, r.value) && NoMatchBetween(s, from, r.value)
    ensures r.None? ==> NoMatchFrom(s, from)
    decreases |s| - from
  {
    if from >= |s| then None
    else if MatchAt(s, from) then Some(from)
    else FirstMatch(s, from + 1)
  }

  /** `detect_sequence` as written: every occurrence of the matched placeholder in the path,
      not only the one before the extension, becomes the `%0Nd` conversion. */
  function DetectSequence(path: string): (r: string)
    ensures FirstMatch(path, 0).None? ==> r == path
  {
    match FirstMatch(path, 0)
    case None => path
    case Some(i) =>
      var k := RunAt(path, i);
      ReplaceAll(path, path[i..i + k], PaddedConversion(k))
  }

  /** The path with the placeholder at `i` replaced by its `%0Nd` conversion. */
  function ReplaceAt(path: string, i: nat): (r: string)
    requires MatchAt(path, i)
  {
    var k := RunAt(path, i);
    path[..i] + PaddedConversion(k) + path[i + k..]
  }

  /** Sequence detection replacing only the matched placeholder. */
  function DetectFrame(path: string): (r: string)
    ensures FirstMatch(path, 0).None? ==> r == path
  {
    match FirstMatch(path, 0)
    case None => path
    case Some(i) => ReplaceAt(path, i)
  }

  /** `pat` occurs in `s` at position `i` and nowhere else. */
  ghost predicate OnlyAt(s: string, pat: string, i: nat)
  {
    forall j :: OccursAt(s, pat, j) ==> j == i
  }

  /** When the placeholder occurs nowhere else in the path, `detect_sequence` replaces just it. */
  lemma DetectSequenceUnique(path: string)
    requires FirstMatch(path, 0).Some?
    requires var i := FirstMatch(path, 0).value; OnlyAt(path, path[i..i + RunAt(path, i)], i)
    ensures DetectSequence(path) == DetectFrame(path)
  {
    var i := FirstMatch(path, 0).value;
    var k := RunAt(path, i);
    var a, pat, b := path[..i], path[i..i + k], path[i + k..];
    assert path == a + pat + b;
    ReplaceUnique(a, b, pat, PaddedConversion(k));
  }

  /** Substituting into a path whose placeholder became `%0Nd` fills in the frame, and the
      number a digit placeholder held gives back the digits themselves. */
  lemma FillPlaceholder(t: string, a: string, run: string, b: string, frame: nat)
    requires '%' !in a && '%' !in b && 1 <= |run| < 10
    requires t == a + PaddedConversion(|run|) + b
    ensures Interpolate(t, frame) == Some(a + FormatInt(frame, true, |run|) + b)
    ensures AllDigits(run) ==> Interpolate(t, ParseDigits(run)) == Some(a + run + b)
  {
    InterpolatePadded(a, b, |run|, frame);
    if AllDigits(run) {
      var n := ParseDigits(run);
      InterpolatePadded(a, b, |run|, n);
      ZeroPadFits(n, |run|);
      FixedParse(run);
    }
  }

  /** Replacing a placeholder gives a printf template that yields the original path for the
      frame number found in it, and the path of any other frame with the number padded to the
      same width. */
  lemma ReplaceAtRoundTrip(path: string, i: nat, frame: nat)
    requires '%' !in path && MatchAt(path, i)
    ensures var k := RunAt(path, i);
            Interpolate(ReplaceAt(path, i), frame) == Some(path[..i] + FormatInt(frame, true, k) + path[i + k..])
            && (IsDigit(path[i]) ==> Interpolate(ReplaceAt(path, i), ParseDigits(path[i..i + k])) == Some(path))
  {
    var k := RunAt(path, i);
    var a, run, b := path[..i], path[i..i + k], path[i + k..];
    assert '%' !in a && '%' !in b;
    assert a + run + b == path;
    assert IsDigit(path[i]) ==> AllDigits(run);
    FillPlaceholder(ReplaceAt(path, i), a, run, b, frame);
  }

  /** `DetectFrame` turns a frame path into the template of its sequence: substituting the
      frame number found in it gives back the path, and any other frame number gives the
      sibling frame's path. */
  lemma DetectFrameRoundTrip(path: string, i: nat, frame: nat)
    requires '%' !in path && FirstMatch(path, 0) == Some(i)
    ensures MatchAt(path, i)
    ensures Interpolate(DetectFrame(path), frame) == Some(path[..i] + FormatInt(frame, true, RunAt(path, i)) + path[i + RunAt(path, i)..])
    ensures IsDigit(path[i]) ==> Interpolate(DetectFrame(path), ParseDigits(path[i..i + RunAt(path, i)])) == Some(path)
  {
    assert DetectFrame(path) == ReplaceAt(path, i);
    ReplaceAtRoundTrip(path, i, frame);
  }

  /** A path with two `%` signs is no template: substituting any frame into it raises. */
  lemma TwoConversionsRefused(s: string, i: nat, j: nat, n: nat)
    requires i < j < |s| && s[i] == '%' && s[j] == '%'
    ensures Interpolate(s, n) == None
  {
    SplitJoin(s, '%');
  }

  /** The pattern first matches `1001/1001.exr` at the file name's digits, not the directory's. */
  lemma RepeatedFrameMatch(s: string)
    requires s == "1001/1001.exr"
    ensures FirstMatch(s, 0) == Some(5) && RunAt(s, 5) == 4 && s[5..9] == "1001"
  {
    RunExact(s, 0, 4, true);
    assert s[4..8] == "/100";
    RunExact(s, 1, 3, true);
    RunExact(s, 2, 2, true);
    RunExact(s, 3, 1, true);
    assert !MatchAt(s, 0) && !MatchAt(s, 1) && !MatchAt(s, 2) && !MatchAt(s, 3) && !MatchAt(s, 4);
    RunExact(s, 5, 4, true);
    assert s[9..13] == ".exr";
    assert MatchAt(s, 5);
    assert FirstMatch(s, 4) == Some(5);
  }

  /** `replace` rewrites the directory's digits as well as the file name's. */
  lemma RepeatedFrameReplaced(s: string)
    requires s == "1001/1001.exr"
    ensures ReplaceAll(s, "1001", "%04d") == "%04d/%04d.exr"
  {
    var rest := ".exr";
    assert ReplaceAll(rest[1..], "1001", "%04d") == rest[1..];
    assert ReplaceAll(rest, "1001", "%04d") == rest;
    assert s[5..] == "1001.exr" && s[5..][4..] == rest;
    assert ReplaceAll(s[5..], "1001", "%04d") == "%04d.exr";
    assert s[4..] == "/1001.exr" && s[4..][1..] == s[5..];
    assert ReplaceAll(s[4..], "1001", "%04d") == "/%04d.exr";
    assert s[..4] == "1001" && s[4..] == "/1001.exr";
  }

  /** `detect_sequence` turns both copies of the frame number into conversions. */
  lemma RepeatedSequenceTemplate(s: string)
    requires s == "1001/1001.exr"
    ensures DetectSequence(s) == "%04d/%04d.exr"
  {
    RepeatedFrameMatch(s);
    assert PaddedConversion(4) == "%04d";
    RepeatedFrameReplaced(s);
  }

  /** Replacing only the matched placeholder leaves the directory alone. */
  lemma RepeatedFrameTemplate(s: string)
    requires s == "1001/1001.exr"
    ensures DetectFrame(s) == "1001/%04d.exr"
  {
    RepeatedFrameMatch(s);
    assert DetectFrame(s) == s[..5] + PaddedConversion(4) + s[9..];
    assert PaddedConversion(4) == "%04d";
    assert s[..5] == "1001/" && s[9..] == ".exr";
  }

  lemma FrameValue(d: string)
    requires d == "1001"
    ensures AllDigits(d) && ParseDigits(d) == 1001
  {
    assert ParseDigits(d[..1]) == 1 by { assert d[..1][..0] == ""; }
    assert ParseDigits(d[..2]) == 10 by { assert d[..2][..1] == d[..1]; }
    assert ParseDigits(d[..3]) == 100 by { assert d[..3][..2] == d[..2]; }
    assert d[..3] == d[..|d| - 1];
  }

  /** The frame number of `1001/1001.exr` also names its directory; `detect_sequence` turns
      both into conversions, so the sequence template it returns cannot be filled in, while
      replacing only the matched placeholder gives a template that yields the path again. */
  lemma RepeatedFrameNumber(s: string)
    requires s == "1001/1001.exr"
    ensures DetectSequence(s) == "%04d/%04d.exr"
    ensures Interpolate(DetectSequence(s), 1001) == None
    ensures DetectFrame(s) == "1001/%04d.exr"
    ensures Interpolate(DetectFrame(s), 1001) == Some(s)
  {
    RepeatedSequenceTemplate(s);
    TwoConversionsRefused("%04d/%04d.exr", 0, 5, 1001);
    RepeatedFrameTemplate(s);
    RepeatedFrameRestored(s);
  }

  /** Filling the corrected template with the frame number found in the path gives it back. */
  lemma RepeatedFrameRestored(s: string)
    requires s == "1001/1001.exr"
    ensures Interpolate(DetectFrame(s), 1001) == Some(s)
  {
    RepeatedFrameMatch(s);
    DetectFrameRoundTrip(s, 5, 1001);
    FrameValue(s[5..9]);
  }
}

/** Decimal numbers as text: Python's `int(text)` on digit strings with whitespace around and the `%d`, `%Nd`
    and `%0Nd` conversions of the `%` operator on a path template. */
module Format {
  import opened Wrappers
  import opened Strings

  predicate IsDigit(c: char)
  {
    '0' <= c <= '9'
  }

  predicate AllDigits(s: string)
  {
    forall i :: 0 <= i < |s| ==> IsDigit(s[i])
  }

  function DigitValue(c: char): nat
    requires IsDigit(c)
  {
    c as int - '0' as int
  }

  function DigitChar(d: nat): (c: char)
    requires d < 10
    ensures IsDigit(c) && DigitValue(c) == d
  {
    ('0' as int + d) as char
  }

  function Pow10(k: nat): (p: nat)
    ensures p >= 1
  {
    if k == 0 then 1 else 10 * Pow10(k - 1)
  }

  /** The value of a string of decimal digits, most significant first; leading zeros add nothing. */
  function ParseDigits(s: string): (n: nat)
    requires AllDigits(s)
    ensures n < Pow10(|s|)
  {
    if |s| == 0 then 0 else ParseDigits(s[..|s| - 1]) * 10 + DigitValue(s[|s| - 1])
  }

  /** The ASCII characters Python counts as whitespace: tab, line feed, vertical tab, form
      feed, carriage return, the four separators 0x1C to 0x1F, and space. */
  predicate IsSpace(c: char)
  {
    '\t' <= c <= '\r' || '\U{1C}' <= c <= ' '
  }

  predicate AllSpace(s: string)
  {
    forall i :: 0 <= i < |s| ==> IsSpace(s[i])
  }

  /** `s` with its leading whitespace removed. */
  function TrimLeft(s: string): string
  {
    if |s| > 0 && IsSpace(s[0]) then TrimLeft(s[1..]) else s
  }

  /** `s` with its trailing whitespace removed. */
  function TrimRight(s: string): string
  {
    if |s| > 0 && IsSpace(s[|s| - 1]) then TrimRight(s[..|s| - 1]) else s
  }

  /** `s` with the whitespace at both ends removed, as `int()` does before reading digits. */
  function Trim(s: string): string
  {
    TrimRight(TrimLeft(s))
  }

  /** Trimming removes a whitespace prefix and returns the rest, which does not start with
      whitespace. */
  lemma {:induction false} TrimLeftShape(s: string) returns (i: nat)
    ensures i <= |s| && TrimLeft(s) == s[i..] && AllSpace(s[..i]) && (i < |s| ==> !IsSpace(s[i]))
  {
    if |s| > 0 && IsSpace(s[0]) {
      var k := TrimLeftShape(s[1..]);
      i := k + 1;
      assert s[1..][k..] == s[i..];
      assert forall m :: 0 < m < i ==> s[..i][m] == s[1..][..k][m - 1];
    } else {
      i := 0;
    }
  }

  /** Trimming the end removes a whitespace suffix and returns the rest, which does not end
      with whitespace. */
  lemma {:induction false} TrimRightShape(s: string) returns (j: nat)
    ensures j <= |s| && TrimRight(s) == s[..j] && AllSpace(s[j..]) && (j > 0 ==> !IsSpace(s[j - 1]))
  {
    if |s| > 0 && IsSpace(s[|s| - 1]) {
      var init := s[..|s| - 1];
      j := TrimRightShape(init);
      assert init[..j] == s[..j];
      assert forall m :: j <= m < |s| - 1 ==> s[m] == init[j..][m - j];
    } else {
      j := |s|;
    }
  }

  /** `Trim(s)` is the slice `s[i..j]`, with only whitespace before and after it and none at
      either of its ends. */
  lemma TrimShape(s: string) returns (i: nat, j: nat)
    ensures i <= j <= |s| && Trim(s) == s[i..j] && AllSpace(s[..i]) && AllSpace(s[j..])
    ensures |Trim(s)| > 0 ==> !IsSpace(Trim(s)[0]) && !IsSpace(Trim(s)[|Trim(s)| - 1])
  {
    i := TrimLeftShape(s);
    var l := s[i..];
    var k := TrimRightShape(l);
    j := i + k;
    assert l[..k] == s[i..j];
    assert forall m :: j <= m < |s| ==> s[m] == l[k..][m - j];
  }

  /** Whitespace around a string that neither starts nor ends with whitespace is trimmed off,
      and nothing else. */
  lemma TrimAround(a: string, t: string, b: string)
    requires AllSpace(a) && AllSpace(b) && |t| > 0 && !IsSpace(t[0]) && !IsSpace(t[|t| - 1])
    ensures Trim(a + t + b) == t
  {
    TrimLeftSpaces(a, t + b);
    assert a + t + b == a + (t + b);
    TrimRightSpaces(t, b);
  }

  lemma {:induction false} TrimLeftSpaces(a: string, t: string)
    requires AllSpace(a) && |t| > 0 && !IsSpace(t[0])
    ensures TrimLeft(a + t) == t
    decreases |a|
  {
    if |a| > 0 {
      assert (a + t)[1..] == a[1..] + t;
      TrimLeftSpaces(a[1..], t);
    } else {
      assert a + t == t;
    }
  }

  lemma {:induction false} TrimRightSpaces(t: string, b: string)
    requires AllSpace(b) && |t| > 0 && !IsSpace(t[|t| - 1])
    ensures TrimRight(t + b) == t
    decreases |b|
  {
    if |b| > 0 {
      assert (t + b)[..|t + b| - 1] == t + b[..|b| - 1];
      TrimRightSpaces(t, b[..|b| - 1]);
    } else {
      assert t + b == t;
    }
  }

  /** Python's `int(text)` for text of ASCII whitespace around ASCII digits: the whitespace is
      dropped and the digits read; anything else is refused. */
  function ParseInt(s: string): (r: Option<nat>)
    ensures r.Some? <==> |Trim(s)| > 0 && AllDigits(Trim(s))
    ensures r.Some? ==> r.value < Pow10(|Trim(s)|)
  {
    var t := Trim(s);
    if |t| > 0 && AllDigits(t) then Some(ParseDigits(t)) else None
  }

  /** A digit string with whitespace around it reads as the digits' value: `int(' 1020')` is
      1020. */
  lemma ParseIntSpaced(a: string, digits: string, b: string)
    requires AllSpace(a) && AllSpace(b) && |digits| > 0 && AllDigits(digits)
    ensures ParseInt(a + digits + b) == Some(ParseDigits(digits))
  {
    assert !IsSpace(digits[0]) && !IsSpace(digits[|digits| - 1]);
    TrimAround(a, digits, b);
  }

  /** Text `int()` accepts holds nothing but whitespace and digits. */
  lemma ParsedChars(s: string)
    requires ParseInt(s).Some?
    ensures forall c :: c in s ==> IsSpace(c) || IsDigit(c)
  {
    var i, j := TrimShape(s);
    forall c | c in s
      ensures IsSpace(c) || IsDigit(c)
    {
      var m :| 0 <= m < |s| && s[m] == c;
      if m < i {
        assert s[..i][m] == c;
      } else if m < j {
        assert Trim(s)[m - i] == c;
      } else {
        assert s[j..][m - j] == c;
      }
    }
  }

  /** The last `w` decimal digits of `n`, most significant first (zero-filled on the left). */
  function FixedDigits(n: nat, w: nat): (r: string)
    ensures |r| == w && AllDigits(r)
  {
    if w == 0 then "" else FixedDigits(n / 10, w - 1) + [DigitChar(n % 10)]
  }

  /** The number of digits `str(n)` has. */
  function DigitCount(n: nat): (k: nat)
    ensures k >= 1 && n < Pow10(k)
    ensures k > 1 ==> Pow10(k - 1) <= n
  {
    if n < 10 then 1 else 1 + DigitCount(n / 10)
  }

  /** Reading back `w` fixed digits of a number below `10^w` gives the number. */
  lemma {:induction false} ParseFixed(n: nat, w: nat)
    requires n < Pow10(w)
    ensures ParseDigits(FixedDigits(n, w)) == n
  {
    if w > 0 {
      var s := FixedDigits(n, w);
      assert s[..|s| - 1] == FixedDigits(n / 10, w - 1);
      ParseFixed(n / 10, w - 1);
    }
  }

  /** Writing a digit string's value back with as many digits gives the string, leading zeros
      included. */
  lemma {:induction false} FixedParse(s: string)
    requires AllDigits(s)
    ensures FixedDigits(ParseDigits(s), |s|) == s
  {
    if |s| > 0 {
      var init := s[..|s| - 1];
      var n := ParseDigits(s);
      assert n / 10 == ParseDigits(init) && n % 10 == DigitValue(s[|s| - 1]);
      FixedParse(init);
      assert DigitChar(n % 10) == s[|s| - 1];
      assert init + [s[|s| - 1]] == s;
    }
  }

  /** `str(n)`: the digits of `n` with no leading zero. */
  function Decimal(n: nat): string
  {
    FixedDigits(n, DigitCount(n))
  }

  /** `str(n)` is a digit string of value `n` without a leading zero. */
  lemma DecimalSpec(n: nat)
    ensures var r := Decimal(n); |r| >= 1 && AllDigits(r) && ParseDigits(r) == n && (|r| > 1 ==> r[0] != '0')
  {
    var k := DigitCount(n);
    ParseFixed(n, k);
    LeadingDigitNonZero(n, k);
  }

  lemma {:induction false} LeadingDigitNonZero(n: nat, k: nat)
    requires k >= 1 && n < Pow10(k) && (k > 1 ==> Pow10(k - 1) <= n)
    ensures k > 1 ==> FixedDigits(n, k)[0] != '0'
  {
    if k == 1 {
    } else if k == 2 {
      assert FixedDigits(n / 10, 1) == [DigitChar((n / 10) % 10)];
      assert FixedDigits(n, k)[0] == FixedDigits(n / 10, 1)[0];
    } else {
      LeadingDigitNonZero(n / 10, k - 1);
      assert FixedDigits(n, k)[0] == FixedDigits(n / 10, k - 1)[0];
    }
  }

  function Spaces(k: nat): (r: string)
    ensures |r| == k && forall i :: 0 <= i < k ==> r[i] == ' '
  {
    if k == 0 then "" else Spaces(k - 1) + " "
  }

  /** One `%d` conversion of the natural number `n`: `%0Wd` fills with zeros up to width `W`,
      `%Wd` with spaces, and a number wider than `W` is written in full. */
  function FormatInt(n: nat, zeroPad: bool, width: nat): string
  {
    var k := DigitCount(n);
    if zeroPad then FixedDigits(n, if width > k then width else k)
    else Spaces(if width > k then width - k else 0) + Decimal(n)
  }

  /** The conversion is as wide as the width asks, or as the number needs if that is more, and
      a zero-filled one reads back as the number. */
  lemma FormatIntSpec(n: nat, zeroPad: bool, width: nat)
    ensures var r := FormatInt(n, zeroPad, width);
      && |r| == (if width > DigitCount(n) then width else DigitCount(n))
      && (zeroPad ==> AllDigits(r) && ParseDigits(r) == n)
  {
    var k := DigitCount(n);
    DecimalSpec(n);
    if zeroPad {
      var w := if width > k then width else k;
      Pow10Monotone(k, w);
      ParseFixed(n, w);
    }
  }

  /** A zero-filled conversion of a number that fits in the width has exactly the width. */
  lemma ZeroPadFits(n: nat, width: nat)
    requires 1 <= width && n < Pow10(width)
    ensures FormatInt(n, true, width) == FixedDigits(n, width)
  {
    DigitCountAtMost(n, width);
  }

  /** A number below `10^w` has at most `w` digits. */
  lemma {:induction false} DigitCountAtMost(n: nat, w: nat)
    requires 1 <= w && n < Pow10(w)
    ensures DigitCount(n) <= w
  {
    if n >= 10 {
      assert w >= 2;
      DigitCountAtMost(n / 10, w - 1);
    }
  }

  lemma {:induction false} Pow10Monotone(a: nat, b: nat)
    requires a <= b
    ensures Pow10(a) <= Pow10(b)
    decreases b
  {
    if a < b { Pow10Monotone(a, b - 1); }
  }

  /** The longest run of digits at the start of `s`. */
  function LeadingDigits(s: string): (r: string)
    ensures r <= s && AllDigits(r)
    ensures |r| < |s| ==> !IsDigit(s[|r|])
  {
    if |s| > 0 && IsDigit(s[0]) then [s[0]] + LeadingDigits(s[1..]) else ""
  }

  /** A path template with one `%[0][W]d` conversion: the text before and after it, whether it
      fills with zeros, and its width. */
  datatype Template = Template(prefix: string, zeroPad: bool, width: nat, suffix: string)

  /** The template a path stands for, if it has exactly one `%` and that `%` starts a `d`
      conversion; any other use of `%` is refused. */
  function ParseTemplate(s: string): (r: Option<Template>)
    ensures r.Some? ==> '%' in s && '%' !in r.value.prefix && '%' !in r.value.suffix
  {
    var parts := Split(s, '%');
    if |parts| != 2 then None
    else
      var conv := parts[1];
      var zero := |conv| > 0 && conv[0] == '0';
      var rest := if zero then conv[1..] else conv;
      var w := LeadingDigits(rest);
      if |w| < |rest| && rest[|w|] == 'd' then
        assert '%' in s by { SplitJoin(s, '%'); assert Join(parts, '%') == parts[0] + ['%'] + parts[1]; }
        Some(Template(parts[0], zero, ParseDigits(w), rest[|w| + 1..]))
      else None
  }

  /** `template % n`, or `None` where Python would raise. */
  function Interpolate(s: string, n: nat): Option<string>
  {
    match ParseTemplate(s)
    case None => None
    case Some(t) => Some(t.prefix + FormatInt(n, t.zeroPad, t.width) + t.suffix)
  }

  /** The `%0Wd` template with a one-digit width, the form sequence detection produces. */
  function PaddedConversion(width: nat): (r: string)
    requires width < 10
    ensures '%' in r && r[0] == '%' && forall i :: 1 <= i < |r| ==> r[i] != '%'
  {
    "%0" + [DigitChar(width)] + "d"
  }

  /** Substituting into `a + "%0Wd" + b` fills the number in between `a` and `b`. */
  lemma InterpolatePadded(a: string, b: string, width: nat, n: nat)
    requires width < 10 && '%' !in a && '%' !in b
    ensures Interpolate(a + PaddedConversion(width) + b, n) == Some(a + FormatInt(n, true, width) + b)
  {
    var conv := "0" + [DigitChar(width)] + "d" + b;
    assert a + PaddedConversion(width) + b == a + ['%'] + conv;
    assert '%' !in conv;
    SplitAtOnly(a, conv, '%');
    var rest := conv[1..];
    assert rest == [DigitChar(width)] + "d" + b;
    assert LeadingDigits(rest[1..]) == "";
    assert LeadingDigits(rest) == [DigitChar(width)];
    assert ParseDigits([DigitChar(width)]) == width by {
      assert [DigitChar(width)][..0] == "";
    }
    assert rest[2..] == b;
  }
}

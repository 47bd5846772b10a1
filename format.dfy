/** The pieces of Go's `fmt`, `strings` and `path/filepath` that the
    copier's names are built from: `%d` and `%0Nd` for integers,
    `filepath.Ext`, `strings.ToLower` (ASCII letters) and `strings.Join`. */
module Format {

  predicate IsDigit(c: char) {
    '0' <= c <= '9'
  }

  predicate IsDigits(s: string) {
    forall i :: 0 <= i < |s| ==> IsDigit(s[i])
  }

  function DigitChar(d: nat): (c: char)
    requires d < 10
    ensures IsDigit(c) && (c as int) - ('0' as int) == d
  {
    (('0' as int) + d) as char
  }

  /** The decimal digits of `n`, without leading zeros (Go's `%d` of a non-negative value). */
  function Decimal(n: nat): (s: string)
    ensures 1 <= |s|
    decreases n
  {
    if n < 10 then [DigitChar(n)] else Decimal(n / 10) + [DigitChar(n % 10)]
  }

  /** The value of a string of decimal digits; leading zeros do not count. */
  function DigitsValue(s: string): nat
    requires IsDigits(s)
  {
    if s == [] then 0
    else DigitsValue(s[..|s| - 1]) * 10 + ((s[|s| - 1] as int) - ('0' as int))
  }

  /** `Decimal` writes only digits, reading back as `n`, with no leading zero. */
  lemma {:induction false} DecimalRoundTrip(n: nat)
    ensures IsDigits(Decimal(n)) && DigitsValue(Decimal(n)) == n
    ensures Decimal(n)[0] == '0' ==> n == 0
    decreases n
  {
    if n >= 10 {
      DecimalRoundTrip(n / 10);
      var s := Decimal(n);
      assert s[..|s| - 1] == Decimal(n / 10);
      assert s[0] == Decimal(n / 10)[0];
    }
  }

  /** Left-pads `s` with '0' up to `width` characters; a longer `s` is left alone. */
  function ZeroPad(s: string, width: nat): (r: string)
    ensures |r| == if |s| < width then width else |s|
    decreases width - |s|
  {
    if |s| >= width then s else ZeroPad("0" + s, width)
  }

  /** The padded text ends with `s` and is '0' before it. */
  lemma {:induction false} ZeroPadShape(s: string, width: nat)
    ensures var r := ZeroPad(s, width);
      r[|r| - |s|..] == s && forall i :: 0 <= i < |r| - |s| ==> r[i] == '0'
    decreases width - |s|
  {
    if |s| < width {
      var t := "0" + s;
      var r := ZeroPad(t, width);
      ZeroPadShape(t, width);
      assert r[|r| - |s|..] == r[|r| - |t|..][1..];
      forall i | 0 <= i < |r| - |s| ensures r[i] == '0' {
        if i == |r| - |t| {
          assert r[i] == r[|r| - |t|..][0];
        }
      }
    }
  }

  lemma {:induction false} LeadingZeroValue(s: string)
    requires IsDigits(s)
    ensures IsDigits("0" + s) && DigitsValue("0" + s) == DigitsValue(s)
    decreases |s|
  {
    if s != [] {
      var t := "0" + s;
      assert t[..|t| - 1] == "0" + s[..|s| - 1];
      LeadingZeroValue(s[..|s| - 1]);
    }
  }

  lemma {:induction false} ZeroPadValue(s: string, width: nat)
    requires IsDigits(s)
    ensures IsDigits(ZeroPad(s, width)) && DigitsValue(ZeroPad(s, width)) == DigitsValue(s)
    decreases width - |s|
  {
    if |s| < width {
      LeadingZeroValue(s);
      ZeroPadValue("0" + s, width);
    }
  }

  /** Go's `fmt.Sprintf("%0<width>d", n)`: the sign, when there is one, counts in the width
      and the zeros go between the sign and the digits. `FormatInt(n, 0)` is `%d`. */
  function FormatInt(n: int, width: nat): string {
    if n < 0 then "-" + ZeroPad(Decimal(-n), if width == 0 then 0 else width - 1)
    else ZeroPad(Decimal(n), width)
  }

  predicate IsSignedDigits(s: string) {
    if |s| > 0 && s[0] == '-' then IsDigits(s[1..]) else IsDigits(s)
  }

  /** Reads back an optionally signed decimal. */
  function ParseInt(s: string): int
    requires IsSignedDigits(s)
  {
    if |s| > 0 && s[0] == '-' then -(DigitsValue(s[1..]) as int) else DigitsValue(s)
  }

  /** `FormatInt` loses nothing: its text reads back as the number it was given. */
  lemma FormatIntRoundTrip(n: int, width: nat)
    ensures IsSignedDigits(FormatInt(n, width))
    ensures ParseInt(FormatInt(n, width)) == n
  {
    if n < 0 {
      var w := if width == 0 then 0 else width - 1;
      var t := ZeroPad(Decimal(-n), w);
      DecimalRoundTrip(-n);
      ZeroPadValue(Decimal(-n), w);
      var s := "-" + t;
      assert s == FormatInt(n, width);
      assert s[1..] == t;
      assert DigitsValue(t) == -n;
    } else {
      var t := ZeroPad(Decimal(n), width);
      DecimalRoundTrip(n);
      ZeroPadValue(Decimal(n), width);
      assert t == FormatInt(n, width);
      assert IsDigit(t[0]);
    }
  }

  lemma FormatIntInjective(a: int, b: int, width: nat)
    requires FormatInt(a, width) == FormatInt(b, width)
    ensures a == b
  {
    FormatIntRoundTrip(a, width);
    FormatIntRoundTrip(b, width);
  }

  /** A number below 10^width needs at most `width` digits. */
  lemma {:induction false} DecimalLength(n: nat, width: nat)
    requires n < Pow10(width)
    ensures |Decimal(n)| <= if width == 0 then 1 else width
    decreases n
  {
    if n >= 10 {
      DecimalLength(n / 10, width - 1);
    }
  }

  /** So `%0<width>d` writes such a number with exactly `width` characters. */
  lemma PaddedLength(n: nat, width: nat)
    requires 1 <= width && n < Pow10(width)
    ensures |FormatInt(n, width)| == width
  {
    DecimalLength(n, width);
  }

  function Pow10(k: nat): (p: nat)
    ensures p >= 1
  {
    if k == 0 then 1 else 10 * Pow10(k - 1)
  }

  /** Go's `filepath.Ext`: the suffix from the last '.' of the final path element,
      or "" when that element has no '.'. */
  function Ext(s: string): (e: string)
    ensures |e| <= |s|
  {
    if |s| == 0 then ""
    else if s[|s| - 1] == '/' then ""
    else if s[|s| - 1] == '.' then "."
    else
      var e := Ext(s[..|s| - 1]);
      if e == "" then "" else e + [s[|s| - 1]]
  }

  /** What `filepath.Ext` promises: the extension is empty or a suffix of `s` starting
      at a '.', with no further '.' and no separator in it; it is empty exactly when
      no '.' follows the last separator. */
  lemma {:induction false} ExtShape(s: string)
    ensures var e := Ext(s); e == "" || (e[0] == '.' && s[|s| - |e|..] == e)
    ensures var e := Ext(s); forall i :: 0 < i < |e| ==> e[i] != '.' && e[i] != '/'
    ensures Ext(s) == "" ==> forall i :: 0 <= i < |s| && s[i] == '.' ==> '/' in s[i..]
    decreases |s|
  {
    if |s| > 0 && s[|s| - 1] != '/' && s[|s| - 1] != '.' {
      var init := s[..|s| - 1];
      ExtShape(init);
      var e := Ext(init);
      if e == "" {
        forall i | 0 <= i < |s| && s[i] == '.' ensures '/' in s[i..] {
          assert init[i] == s[i];
          var j :| j in init[i..] && j == '/';
          assert init[i..] <= s[i..];
        }
      } else {
        assert s[|s| - |e| - 1..] == e + [s[|s| - 1]];
      }
    }
  }

  predicate IsUpper(c: char) {
    'A' <= c <= 'Z'
  }

  function LowerChar(c: char): char {
    if IsUpper(c) then ((c as int) + 32) as char else c
  }

  /** `strings.ToLower` on the ASCII letters. */
  function ToLower(s: string): string {
    seq(|s|, i requires 0 <= i < |s| => LowerChar(s[i]))
  }

  /** Lower-casing leaves no ASCII capital behind, so doing it twice changes nothing. */
  lemma ToLowerIdempotent(s: string)
    ensures forall i :: 0 <= i < |s| ==> !IsUpper(ToLower(s)[i])
    ensures ToLower(ToLower(s)) == ToLower(s)
  {
  }

  /** Go's `strings.Join`. */
  function Join(xs: seq<string>, sep: string): string {
    if |xs| == 0 then ""
    else if |xs| == 1 then xs[0]
    else xs[0] + sep + Join(xs[1..], sep)
  }
}

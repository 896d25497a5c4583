/** The Java library text routines the field type relies on:
    `java.util.StringTokenizer`, `Byte.parseByte` (through `Integer.parseInt`),
    the decimal form of an integer that string concatenation writes,
    `NumberFormat` with a minimum of two integer digits, and `List.toString`. */
module JavaText {
  import opened Wrappers

  /** Java's `byte`. */
  newtype int8 = x: int | -128 <= x < 128

  /** The delimiters of the `resolutions` setting: comma and space. */
  const ListDelims: set<char> := {',', ' '}

  /** A token of a `StringTokenizer`: non-empty, free of delimiters. */
  predicate IsToken(t: string, delims: set<char>)
  {
    t != [] && forall i :: 0 <= i < |t| ==> t[i] !in delims
  }

  /** Length of the longest delimiter-free prefix of `s`. */
  function RunLength(s: string, delims: set<char>): (n: nat)
    ensures n <= |s|
    ensures forall k :: 0 <= k < n ==> s[k] !in delims
    ensures n < |s| ==> s[n] in delims
  {
    if s == [] || s[0] in delims then 0 else 1 + RunLength(s[1..], delims)
  }

  /** The tokens a `StringTokenizer` over `s` hands out: the maximal runs of
      non-delimiter characters, in order; delimiters are never returned. */
  function Tokenize(s: string, delims: set<char>): (tokens: seq<string>)
    ensures forall k :: 0 <= k < |tokens| ==> IsToken(tokens[k], delims)
    decreases |s|
  {
    if s == [] then []
    else if s[0] in delims then Tokenize(s[1..], delims)
    else
      var n := RunLength(s, delims);
      [s[..n]] + Tokenize(s[n..], delims)
  }

  /** The tokens joined with a separator between each two. */
  function Join(ts: seq<string>, sep: string): string
  {
    if ts == [] then [] else if |ts| == 1 then ts[0] else ts[0] + sep + Join(ts[1..], sep)
  }

  /** `List.toString` of a list of strings: `[a, b, c]`. */
  function ListToString(ts: seq<string>): (s: string)
    ensures |s| >= 2 && s[0] == '[' && s[|s| - 1] == ']'
    ensures s[1..|s| - 1] == Join(ts, ", ")
  {
    var s := "[" + Join(ts, ", ") + "]";
    assert s[1..|s| - 1] == Join(ts, ", ");
    s
  }

  lemma RunLengthOfToken(t: string, u: string, delims: set<char>)
    requires IsToken(t, delims)
    requires u == [] || u[0] in delims
    ensures RunLength(t + u, delims) == |t|
  {
    assert forall k :: 0 <= k < |t| ==> (t + u)[k] == t[k];
    if u != [] {
      assert (t + u)[|t|] == u[0];
    }
  }

  /** A token followed by a delimiter (or by nothing) is handed out whole. */
  lemma TokenizeToken(t: string, u: string, delims: set<char>)
    requires IsToken(t, delims)
    requires u == [] || u[0] in delims
    ensures Tokenize(t + u, delims) == [t] + Tokenize(u, delims)
  {
    var s := t + u;
    RunLengthOfToken(t, u, delims);
    assert s[0] == t[0];
    assert s[..|t|] == t;
    assert s[|t|..] == u;
  }

  /** Leading delimiters are skipped. */
  lemma {:induction false} TokenizeSkipsDelims(d: string, rest: string, delims: set<char>)
    requires forall i :: 0 <= i < |d| ==> d[i] in delims
    ensures Tokenize(d + rest, delims) == Tokenize(rest, delims)
  {
    if d != [] {
      assert (d + rest)[0] == d[0];
      assert (d + rest)[1..] == d[1..] + rest;
      TokenizeSkipsDelims(d[1..], rest, delims);
    } else {
      assert d + rest == rest;
    }
  }

  /** Joining tokens with a non-empty run of delimiters and tokenizing the
      result gives the tokens back. */
  lemma {:induction false} TokenizeJoin(ts: seq<string>, sep: string, delims: set<char>)
    requires forall k :: 0 <= k < |ts| ==> IsToken(ts[k], delims)
    requires sep != [] && forall i :: 0 <= i < |sep| ==> sep[i] in delims
    ensures Tokenize(Join(ts, sep), delims) == ts
  {
    if ts == [] {
    } else if |ts| == 1 {
      TokenizeToken(ts[0], [], delims);
      assert ts[0] + [] == ts[0];
      assert Tokenize([], delims) == [];
    } else {
      var rest := Join(ts[1..], sep);
      assert Join(ts, sep) == ts[0] + (sep + rest);
      TokenizeToken(ts[0], sep + rest, delims);
      TokenizeSkipsDelims(sep, rest, delims);
      TokenizeJoin(ts[1..], sep, delims);
      assert ts == [ts[0]] + ts[1..];
    }
  }

  /** The elements of a listed token list, read between the brackets with the
      comma-and-space delimiters, are the tokens themselves, in order. */
  lemma ListToStringTokens(ts: seq<string>)
    requires forall k :: 0 <= k < |ts| ==> IsToken(ts[k], ListDelims)
    ensures var s := ListToString(ts); Tokenize(s[1..|s| - 1], ListDelims) == ts
  {
    assert ", "[0] in ListDelims && ", "[1] in ListDelims;
    TokenizeJoin(ts, ", ", ListDelims);
  }

  predicate IsDigit(c: char)
  {
    '0' <= c <= '9'
  }

  predicate AllDigits(s: string)
  {
    forall i :: 0 <= i < |s| ==> IsDigit(s[i])
  }

  function DigitChar(d: nat): (c: char)
    requires d < 10
    ensures IsDigit(c) && c as int - '0' as int == d
  {
    ('0' as int + d) as char
  }

  /** The decimal digits of a natural number, without leading zeros. */
  function Digits(n: nat): (s: string)
    ensures s != [] && AllDigits(s)
    ensures (s[0] == '0') == (n == 0)
    ensures n == 0 ==> s == "0"
  {
    if n < 10 then [DigitChar(n)] else Digits(n / 10) + [DigitChar(n % 10)]
  }

  /** The value of a string of decimal digits. */
  function DigitsValue(s: string): nat
    requires AllDigits(s)
  {
    if s == [] then 0 else DigitsValue(s[..|s| - 1]) * 10 + (s[|s| - 1] as int - '0' as int)
  }

  /** An integer as Java's string concatenation writes it. */
  function DecimalString(n: int): string
  {
    if n < 0 then "-" + Digits(-n) else Digits(n)
  }

  const MinInt: int := -0x8000_0000
  const MaxInt: int := 0x7FFF_FFFF

  /** An optional sign followed by at least one decimal digit, read as an
      unbounded integer. */
  function ParseDecimal(s: string): Option<int>
  {
    if s == [] then None
    else if s[0] == '-' || s[0] == '+' then
      if |s| == 1 || !AllDigits(s[1..]) then None
      else if s[0] == '-' then Some(-(DigitsValue(s[1..]) as int))
      else Some(DigitsValue(s[1..]))
    else if AllDigits(s) then Some(DigitsValue(s))
    else None
  }

  /** `Integer.parseInt(s)` in radix 10: a signed decimal whose value fits in
      an `int`; `None` stands for the `NumberFormatException`. */
  function ParseInt(s: string): (r: Option<int>)
    ensures r.Some? <==> ParseDecimal(s).Some? && MinInt <= ParseDecimal(s).value <= MaxInt
    ensures r.Some? ==> r.value == ParseDecimal(s).value
  {
    match ParseDecimal(s)
    case Some(v) => if MinInt <= v <= MaxInt then Some(v) else None
    case None => None
  }

  /** `Byte.parseByte(s)`: `Integer.parseInt` followed by a range check. */
  function ParseByte(s: string): (r: Option<int8>)
    ensures r.Some? <==> ParseInt(s).Some? && -128 <= ParseInt(s).value < 128
    ensures r.Some? ==> r.value as int == ParseInt(s).value
  {
    match ParseInt(s)
    case Some(v) => if -128 <= v < 128 then Some(v as int8) else None
    case None => None
  }

  lemma {:induction false} DigitsRoundTrip(n: nat)
    ensures DigitsValue(Digits(n)) == n
  {
    if n >= 10 {
      var s := Digits(n);
      assert s[..|s| - 1] == Digits(n / 10);
      DigitsRoundTrip(n / 10);
    }
  }

  /** The decimal form of any integer reads back as that integer. */
  lemma ParseDecimalRoundTrip(n: int)
    ensures ParseDecimal(DecimalString(n)) == Some(n)
  {
    var s := DecimalString(n);
    if n < 0 {
      var d := Digits(-n);
      assert s[1..] == d;
      DigitsRoundTrip(-n);
      assert s[0] == '-' && |s| > 1 && AllDigits(s[1..]);
    } else {
      DigitsRoundTrip(n);
      assert IsDigit(s[0]);
    }
  }

  /** `Integer.parseInt` reads back what string concatenation writes, for
      every `int`. */
  lemma ParseIntDecimal(n: int)
    requires MinInt <= n <= MaxInt
    ensures ParseInt(DecimalString(n)) == Some(n)
  {
    ParseDecimalRoundTrip(n);
  }

  /** `Byte.parseByte` reads back the decimal form of every byte. */
  lemma ParseByteDecimal(b: int8)
    ensures ParseByte(DecimalString(b as int)) == Some(b)
  {
    ParseIntDecimal(b as int);
  }

  /** Two integers with the same decimal form are equal. */
  lemma DecimalStringInjective(a: int, b: int)
    requires DecimalString(a) == DecimalString(b)
    ensures a == b
  {
    ParseDecimalRoundTrip(a);
    ParseDecimalRoundTrip(b);
  }

  /** `NumberFormat.getIntegerInstance()` with `setMinimumIntegerDigits(2)`:
      the magnitude is padded with one leading zero when it has one digit. */
  function TwoDigit(n: int): (s: string)
    ensures s != [] && (s[0] == '-' <==> n < 0)
    ensures |s| >= (if n < 0 then 3 else 2)
  {
    var mag := if n < 0 then -n else n;
    var digits := if mag < 10 then "0" + Digits(mag) else Digits(mag);
    if n < 0 then "-" + digits else digits
  }

  /** A leading zero does not change the value of a digit string. */
  lemma {:induction false} LeadingZeroValue(s: string)
    requires AllDigits(s)
    ensures AllDigits("0" + s) && DigitsValue("0" + s) == DigitsValue(s)
  {
    var z := "0" + s;
    if s != [] {
      assert z[..|z| - 1] == "0" + s[..|s| - 1];
      assert z[|z| - 1] == s[|s| - 1];
      LeadingZeroValue(s[..|s| - 1]);
    } else {
      assert z[..0] == [];
    }
  }

  /** `Integer.parseInt` reads a padded level back as the level. */
  lemma ParseIntTwoDigit(n: int)
    requires MinInt <= n <= MaxInt
    ensures ParseInt(TwoDigit(n)) == Some(n)
  {
    var mag := if n < 0 then -n else n;
    var t := TwoDigit(n);
    var digits := if mag < 10 then "0" + Digits(mag) else Digits(mag);
    DigitsRoundTrip(mag);
    if mag < 10 {
      LeadingZeroValue(Digits(mag));
    }
    assert AllDigits(digits) && DigitsValue(digits) == mag;
    if n < 0 {
      assert t[1..] == digits;
    } else {
      assert t == digits && IsDigit(t[0]);
    }
  }

  /** A padded one-digit number is never the decimal form of any number. */
  lemma TwoDigitShortDiffers(n: int, m: int)
    requires -10 < n < 10
    ensures TwoDigit(n) != DecimalString(m)
  {
    var t, d := TwoDigit(n), DecimalString(m);
    if 0 <= n {
      assert t[0] == '0' && |t| == 2;
      if m < 0 {
        assert d[0] == '-';
      } else {
        assert |d| == 2 ==> d[0] != '0';
      }
    } else {
      assert t[0] == '-' && t[1] == '0' && |t| == 3;
      if m < 0 {
        assert d[1..] == Digits(-m);
        assert |d| == 3 ==> d[1] != '0';
      } else {
        assert IsDigit(d[0]);
      }
    }
  }

  /** The two-digit form of `n` equals the plain decimal form of `m` exactly
      when they are the same number and it has at least two digits. */
  lemma TwoDigitMatchesDecimal(n: int, m: int)
    ensures TwoDigit(n) == DecimalString(m) <==> n == m && (n <= -10 || 10 <= n)
  {
    if -10 < n < 10 {
      TwoDigitShortDiffers(n, m);
    } else {
      assert TwoDigit(n) == DecimalString(n);
      if TwoDigit(n) == DecimalString(m) {
        DecimalStringInjective(n, m);
      }
    }
  }
}

/** The Java library text conversions the monitored system relies on: Integer/Long/String.valueOf formatting,
    Integer.parseInt and Long.parseLong in radix 10, Double.toString of a whole number, and a restricted
    Double.parseDouble. */
module JavaText {
  import opened Outcomes
  import opened SeqUtil

  const INT_MIN: int := -0x8000_0000
  const INT_MAX: int := 0x7FFF_FFFF
  const LONG_MIN: int := -0x8000_0000_0000_0000
  const LONG_MAX: int := 0x7FFF_FFFF_FFFF_FFFF

  predicate IsDigit(c: char) {
    '0' <= c <= '9'
  }

  predicate AllDigits(s: string) {
    forall i :: 0 <= i < |s| ==> IsDigit(s[i])
  }

  function DigitChar(d: nat): (c: char)
    requires d < 10
    ensures IsDigit(c) && c as int - '0' as int == d
  {
    ('0' as int + d) as char
  }

  /** The number written by a string of decimal digits (leading zeros allowed). */
  function DigitsValue(s: string): nat
    requires AllDigits(s)
  {
    if s == [] then 0 else 10 * DigitsValue(s[..|s| - 1]) + (s[|s| - 1] as int - '0' as int)
  }

  /** The shortest decimal digit string of `n`. */
  function NatDigits(n: nat): (s: string)
    ensures |s| >= 1 && AllDigits(s)
    ensures DigitsValue(s) == n
    decreases n
  {
    if n < 10 then [DigitChar(n)]
    else
      var s := NatDigits(n / 10) + [DigitChar(n % 10)];
      assert s[..|s| - 1] == NatDigits(n / 10);
      s
  }

  /** Integer.toString, Long.toString and String.valueOf(int): a minus sign for negative numbers, then the digits
      of the magnitude. */
  function FormatInt(n: int): (s: string)
    ensures |s| >= 1 && (s[0] == '-' <==> n < 0)
    ensures AllDigits(if n < 0 then s[1..] else s)
  {
    if n < 0 then "-" + NatDigits(-n) else NatDigits(n)
  }

  /** The text after an optional leading sign character. */
  function Unsigned(s: string): string {
    if |s| > 0 && (s[0] == '-' || s[0] == '+') then s[1..] else s
  }

  /** Integer.parseInt (bounds INT_MIN..INT_MAX) and Long.parseLong (bounds LONG_MIN..LONG_MAX) in radix 10,
      restricted to ASCII digits: an optional '+' or '-', at least one digit '0'..'9' and nothing else, with a
      value inside the bounds. Every other text is None; Java also accepts the other Unicode decimal digits. */
  function ParseInteger(s: string, lo: int, hi: int): (r: Option<int>)
    ensures r.Some? ==> lo <= r.value <= hi
    ensures r.Some? ==> |Unsigned(s)| > 0 && AllDigits(Unsigned(s))
  {
    var digits := Unsigned(s);
    if |digits| == 0 || !AllDigits(digits) then None
    else
      var magnitude: int := DigitsValue(digits);
      var v := if s[0] == '-' then -magnitude else magnitude;
      if lo <= v <= hi then Some(v) else None
  }

  function ParseInt(s: string): Option<int> {
    ParseInteger(s, INT_MIN, INT_MAX)
  }

  function ParseLong(s: string): Option<int> {
    ParseInteger(s, LONG_MIN, LONG_MAX)
  }

  /** Parsing reads back every number that formatting writes, whenever it lies inside the parser's bounds. */
  lemma FormatIntRoundTrip(n: int, lo: int, hi: int)
    requires lo <= n <= hi
    ensures ParseInteger(FormatInt(n), lo, hi) == Some(n)
  {
    var s := FormatInt(n);
    if n < 0 {
      assert Unsigned(s) == NatDigits(-n);
    } else {
      assert Unsigned(s) == NatDigits(n);
    }
  }

  /** Formatting never maps two numbers to the same text. */
  lemma FormatIntInjective(m: int, n: int)
    requires FormatInt(m) == FormatInt(n)
    ensures m == n
  {
    var lo := if m < n then m else n;
    var hi := if m < n then n else m;
    FormatIntRoundTrip(m, lo, hi);
    FormatIntRoundTrip(n, lo, hi);
  }

  /** Double.toString of a whole number below ten million in magnitude (Java switches to scientific notation from
      there): the integer's digits followed by ".0". */
  function WholeDoubleText(v: int): string
    requires -10_000_000 < v < 10_000_000
  {
    FormatInt(v) + ".0"
  }

  function Pow10(k: nat): (r: nat)
    ensures r >= 1
  {
    if k == 0 then 1 else 10 * Pow10(k - 1)
  }

  /** String.trim: drops the leading and trailing characters whose code is at most that of ' '. */
  function Trim(s: string): string {
    TrimEnd(TrimStart(s))
  }

  function TrimStart(s: string): string {
    if |s| > 0 && s[0] <= ' ' then TrimStart(s[1..]) else s
  }

  function TrimEnd(s: string): string {
    if |s| > 0 && s[|s| - 1] <= ' ' then TrimEnd(s[..|s| - 1]) else s
  }

  /** Position of the first `c` in `s`, or |s| when there is none. */
  function IndexOf(s: string, c: char): (r: nat)
    ensures r <= |s|
    ensures forall i :: 0 <= i < r ==> s[i] != c
    ensures r < |s| ==> s[r] == c
  {
    if s == [] then 0 else if s[0] == c then 0 else 1 + IndexOf(s[1..], c)
  }

  /** Double.parseDouble on plain decimal literals: after String.trim, an optional sign, digits, and an optional
      '.' followed by digits, with at least one digit in all; the value is exact. */
  function ParseDouble(s: string): Option<real> {
    var t := Trim(s);
    match UnsignedDecimal(Unsigned(t))
    case None => None
    case Some(magnitude) => Some(if t[0] == '-' then -magnitude else magnitude)
  }

  /** The value of digits with an optional '.' and fraction digits, at least one digit in all. */
  function UnsignedDecimal(body: string): (r: Option<real>)
    ensures r.Some? ==> |body| > 0
  {
    var dot := IndexOf(body, '.');
    var whole := body[..dot];
    var fraction := if dot < |body| then body[dot + 1..] else "";
    if !AllDigits(whole) || !AllDigits(fraction) || |whole| + |fraction| == 0 then None
    else Some(DecimalValue(whole, fraction))
  }

  /** The number written as `whole` "." `fraction`. */
  function DecimalValue(whole: string, fraction: string): real
    requires AllDigits(whole) && AllDigits(fraction)
  {
    DigitsValue(whole) as real + DigitsValue(fraction) as real / Pow10(|fraction|) as real
  }

  lemma {:induction false} IndexOfAfter(a: string, b: string, c: char)
    requires forall i :: 0 <= i < |a| ==> a[i] != c
    ensures IndexOf(a + b, c) == |a| + IndexOf(b, c)
    decreases |a|
  {
    if a != [] {
      assert a[0] != c;
      assert a + b != [] && (a + b)[0] == a[0];
      assert (a + b)[1..] == a[1..] + b;
      IndexOfAfter(a[1..], b, c);
    } else {
      assert a + b == b;
    }
  }

  /** Text that starts and ends with a visible character is left alone by String.trim. */
  lemma TrimVisible(s: string)
    requires |s| > 0 && s[0] > ' ' && s[|s| - 1] > ' '
    ensures Trim(s) == s
  {
  }

  /** After the sign, a formatted integer followed by `rest` is the magnitude's digits followed by `rest`. */
  lemma FormattedBody(n: int, rest: string)
    ensures Unsigned(FormatInt(n) + rest) == NatDigits(if n < 0 then -n else n) + rest
  {
    if n < 0 {
      var tail := NatDigits(-n) + rest;
      AppendAssoc("-", NatDigits(-n), rest);
      assert ("-" + tail)[1..] == tail;
    } else {
      var digits := NatDigits(n);
      assert IsDigit(digits[0]);
      assert (digits + rest)[0] == digits[0];
    }
  }

  lemma DigitsThenDot(digits: string, fraction: string)
    requires AllDigits(digits) && |digits| > 0
    ensures UnsignedDecimal(digits + "." + fraction) ==
            if AllDigits(fraction) then Some(DecimalValue(digits, fraction)) else None
  {
    var body := digits + ("." + fraction);
    assert digits + "." + fraction == body;
    assert forall i :: 0 <= i < |digits| ==> digits[i] != '.' by {
      forall i | 0 <= i < |digits| ensures digits[i] != '.' {
        assert IsDigit(digits[i]);
      }
    }
    IndexOfAfter(digits, "." + fraction, '.');
    var dot := IndexOf(body, '.');
    assert dot == |digits| < |body|;
    assert body[..dot] == digits;
    assert body[dot + 1..] == fraction;
  }

  lemma ZeroFraction(whole: string)
    requires AllDigits(whole)
    ensures AllDigits("0") && DecimalValue(whole, "0") == DigitsValue(whole) as real
  {
    assert "0"[..0] == [];
    assert DigitsValue("0") == 0;
    assert Pow10(1) == 10;
  }

  /** Double.parseDouble reads back what Double.toString writes for a whole number. */
  lemma ParseWholeDoubleText(v: int)
    requires -10_000_000 < v < 10_000_000
    ensures ParseDouble(WholeDoubleText(v)) == Some(v as real)
  {
    var text := WholeDoubleText(v);
    var digits := NatDigits(if v < 0 then -v else v);
    assert text[|text| - 1] == '0';
    TrimVisible(text);
    FormattedBody(v, ".0");
    assert Unsigned(text) == digits + "." + "0";
    DigitsThenDot(digits, "0");
    ZeroFraction(digits);
    assert UnsignedDecimal(Unsigned(text)) == Some(if v < 0 then -v as real else v as real);
    assert text[0] == '-' <==> v < 0;
  }

  /** Double.parseDouble rejects a whole number's text followed by ".0%", the form the saturation simulator emits:
      the fraction is not all digits. */
  lemma ParsePercentTextFails(v: int)
    requires -10_000_000 < v < 10_000_000
    ensures ParseDouble(WholeDoubleText(v) + "%") == None
  {
    var text := WholeDoubleText(v) + "%";
    var digits := NatDigits(if v < 0 then -v else v);
    assert text == FormatInt(v) + ".0%";
    TrimVisible(text);
    FormattedBody(v, ".0%");
    assert Unsigned(text) == digits + "." + "0%";
    DigitsThenDot(digits, "0%");
    assert !IsDigit("0%"[1]);
  }
}

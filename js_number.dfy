/** JavaScript's `Number(string)` conversion, as the year sort applies it to
    text fields, and the decimal rendering that `Date.now().toString()`
    produces for record ids. A `None` result stands for NaN. */
module JsNumber {
  import opened Wrappers

  /** The WhiteSpace and LineTerminator code points of ECMAScript, which
      `Number` strips from both ends of a string before reading it. */
  predicate IsJsSpace(c: char) {
    || c == '\t' || c == '\n' || c == '\U{000B}' || c == '\U{000C}' || c == '\r'
    || c == ' ' || c == '\U{00A0}' || c == '\U{1680}' || ('\U{2000}' <= c <= '\U{200A}')
    || c == '\U{2028}' || c == '\U{2029}' || c == '\U{202F}' || c == '\U{205F}'
    || c == '\U{3000}' || c == '\U{FEFF}'
  }

  predicate IsDigit(c: char) {
    '0' <= c <= '9'
  }

  predicate AllDigits(s: string) {
    forall i :: 0 <= i < |s| ==> IsDigit(s[i])
  }

  /** Drops leading white space: the result is the suffix of `s` that starts
      at its first non-space character. */
  function TrimStart(s: string): (r: string)
    ensures |r| <= |s| && r == s[|s| - |r|..]
    ensures forall i :: 0 <= i < |s| - |r| ==> IsJsSpace(s[i])
    ensures r == [] || !IsJsSpace(r[0])
  {
    if s != [] && IsJsSpace(s[0]) then TrimStart(s[1..]) else s
  }

  /** Drops trailing white space: the result is the prefix of `s` that ends
      at its last non-space character. */
  function TrimEnd(s: string): (r: string)
    ensures |r| <= |s| && r == s[..|r|]
    ensures forall i :: |r| <= i < |s| ==> IsJsSpace(s[i])
    ensures r == [] || !IsJsSpace(r[|r| - 1])
  {
    if s != [] && IsJsSpace(s[|s| - 1]) then TrimEnd(s[..|s| - 1]) else s
  }

  function Trim(s: string): string {
    TrimEnd(TrimStart(s))
  }

  function DigitValue(c: char): nat
    requires IsDigit(c)
  {
    (c as int) - ('0' as int)
  }

  function DigitChar(d: nat): (c: char)
    requires d < 10
    ensures IsDigit(c) && DigitValue(c) == d
  {
    ('0' as int + d) as char
  }

  /** The value of a string of decimal digits, most significant first. */
  function DigitsValue(s: string): nat
    requires AllDigits(s)
  {
    if s == [] then 0 else 10 * DigitsValue(s[..|s| - 1]) + DigitValue(s[|s| - 1])
  }

  function Pow10(n: nat): (p: nat)
    ensures p >= 1
  {
    if n == 0 then 1 else 10 * Pow10(n - 1)
  }

  /** Index of the first occurrence of `c` in `s`, or `|s|` when there is none. */
  function IndexOf(s: string, c: char): (i: nat)
    ensures i <= |s|
    ensures i < |s| ==> s[i] == c
    ensures forall j :: 0 <= j < i ==> s[j] != c
  {
    if s == [] then 0 else if s[0] == c then 0 else 1 + IndexOf(s[1..], c)
  }

  /** An unsigned decimal literal: digits, optionally a point and more digits,
      with at least one digit in all ("1990", "1990.", ".5", "12.25"). */
  function UnsignedDecimal(t: string): (r: Option<real>)
    ensures r.Some? ==> r.value >= 0.0
  {
    var i := IndexOf(t, '.');
    if i == |t| then
      if t != [] && AllDigits(t) then Some(DigitsValue(t) as real) else None
    else
      var whole, frac := t[..i], t[i + 1..];
      if AllDigits(whole) && AllDigits(frac) && |whole| + |frac| > 0 then
        Some(DigitsValue(whole) as real + (DigitsValue(frac) as real) / (Pow10(|frac|) as real))
      else
        None
  }

  /** The characters the literals read here are made of: digits, white
      space, the two signs and the decimal point. */
  predicate IsNumeralChar(c: char) {
    IsDigit(c) || IsJsSpace(c) || c == '+' || c == '-' || c == '.'
  }

  /** `s` holds a character that no literal read here can contain. */
  predicate HasNonNumeral(s: string) {
    exists c :: c in s && !IsNumeralChar(c)
  }

  /** A character that is not white space survives trimming at the front. */
  lemma TrimStartKeeps(s: string, i: nat)
    requires i < |s| && !IsJsSpace(s[i])
    ensures |s| - |TrimStart(s)| <= i && TrimStart(s)[i - (|s| - |TrimStart(s)|)] == s[i]
  {
  }

  /** A character that is not white space survives trimming at the back. */
  lemma TrimEndKeeps(s: string, i: nat)
    requires i < |s| && !IsJsSpace(s[i])
    ensures i < |TrimEnd(s)| && TrimEnd(s)[i] == s[i]
  {
  }

  lemma TrimKeepsNonNumeral(s: string)
    ensures HasNonNumeral(s) ==> HasNonNumeral(Trim(s))
  {
    if HasNonNumeral(s) {
      var c :| c in s && !IsNumeralChar(c);
      var i :| 0 <= i < |s| && s[i] == c;
      TrimStartKeeps(s, i);
      var u := TrimStart(s);
      var k := i - (|s| - |u|);
      TrimEndKeeps(u, k);
      assert Trim(s)[k] == c;
    }
  }

  lemma SignKeepsNonNumeral(t: string)
    requires t != [] && (t[0] == '-' || t[0] == '+')
    ensures HasNonNumeral(t) ==> HasNonNumeral(t[1..])
  {
    if HasNonNumeral(t) {
      var c :| c in t && !IsNumeralChar(c);
      var i :| 0 <= i < |t| && t[i] == c;
      assert t[1..][i - 1] == c;
    }
  }

  lemma NonNumeralIsNotUnsigned(t: string)
    ensures HasNonNumeral(t) ==> UnsignedDecimal(t) == None
  {
    if HasNonNumeral(t) {
      var c :| c in t && !IsNumeralChar(c);
      var j :| 0 <= j < |t| && t[j] == c;
      var i := IndexOf(t, '.');
      if i == |t| {
        assert !IsDigit(t[j]);
      } else if j < i {
        assert t[..i][j] == c;
      } else {
        assert t[i + 1..][j - i - 1] == c;
      }
    }
  }

  /** `Number(s)` for a string `s`: white space trimmed, the empty string
      reads as 0, an optional sign before an unsigned decimal literal. A
      string holding any other character is NaN. */
  function StringToNumber(s: string): (r: Option<real>)
    ensures (forall i :: 0 <= i < |s| ==> IsJsSpace(s[i])) ==> r == Some(0.0)
    ensures HasNonNumeral(s) ==> r == None
  {
    var t := Trim(s);
    TrimKeepsNonNumeral(s);
    if t == [] then Some(0.0)
    else if t[0] == '-' then
      SignKeepsNonNumeral(t);
      NonNumeralIsNotUnsigned(t[1..]);
      match UnsignedDecimal(t[1..])
      case Some(v) => Some(-v)
      case None => None
    else if t[0] == '+' then
      SignKeepsNonNumeral(t);
      NonNumeralIsNotUnsigned(t[1..]);
      UnsignedDecimal(t[1..])
    else
      NonNumeralIsNotUnsigned(t);
      UnsignedDecimal(t)
  }

  /** `n.toString()` for a non-negative integer `n`: its shortest decimal
      digits, which read back as `n`. */
  function Decimal(n: nat): (s: string)
    ensures |s| > 0 && AllDigits(s)
    ensures DigitsValue(s) == n
    ensures |s| > 1 ==> s[0] != '0'
  {
    if n < 10 then [DigitChar(n)]
    else
      var prefix := Decimal(n / 10);
      var s := prefix + [DigitChar(n % 10)];
      assert s[..|s| - 1] == prefix;
      s
  }

  lemma DigitIsNotSpace(c: char)
    requires IsDigit(c)
    ensures !IsJsSpace(c)
  {
  }

  lemma DigitsAreNotSpace(s: string)
    requires AllDigits(s)
    ensures Trim(s) == s
  {
    if s != [] {
      DigitIsNotSpace(s[0]);
      assert TrimStart(s) == s;
      DigitIsNotSpace(s[|s| - 1]);
      assert TrimEnd(s) == s;
    }
  }

  lemma UnsignedDigits(s: string)
    requires s != [] && AllDigits(s)
    ensures UnsignedDecimal(s) == Some(DigitsValue(s) as real)
  {
    assert !IsDigit('.');
  }

  /** `Number(String(n)) == n`: the decimal rendering of a clock value or a
      year reads back as the same number. */
  lemma NumberOfDecimal(n: nat)
    ensures StringToNumber(Decimal(n)) == Some(n as real)
  {
    var s := Decimal(n);
    DigitsAreNotSpace(s);
    assert IsDigit(s[0]);
    UnsignedDigits(s);
  }
}

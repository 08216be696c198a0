/**
 * The two Python built-ins the poll cycle applies to a UPS variable value:
 * `str.lower` followed by `str.startswith`, and `int(...)` on a string.
 * Both are modelled on ASCII: lower-casing maps 'A'..'Z' to 'a'..'z' and
 * leaves every other character alone; an integer literal is an optional
 * sign followed by one or more decimal digits.
 */
module PyText {
  import opened Wrappers

  function AsciiLower(c: char): (r: char)
    ensures 'A' <= c <= 'Z' ==> 'a' <= r <= 'z' && r as int - c as int == 32
    ensures !('A' <= c <= 'Z') ==> r == c
  {
    if 'A' <= c <= 'Z' then (c as int + 32) as char else c
  }

  /** `s.lower()`: the same length, every character lower-cased in place. */
  function Lower(s: string): (r: string)
    ensures |r| == |s|
    ensures forall i :: 0 <= i < |s| ==> r[i] == AsciiLower(s[i])
  {
    if s == [] then [] else [AsciiLower(s[0])] + Lower(s[1..])
  }

  /** `s.startswith(p)` */
  predicate StartsWith(s: string, p: string) {
    |p| <= |s| && s[..|p|] == p
  }

  /**
   * `s.lower().startswith(p)` for a lower-case `p` holds exactly when every
   * character of the prefix of `s` equals the corresponding character of `p`
   * up to case.
   */
  lemma LowerStartsWith(s: string, p: string)
    requires forall i :: 0 <= i < |p| ==> AsciiLower(p[i]) == p[i]
    ensures StartsWith(Lower(s), p) <==>
              |p| <= |s| && forall i :: 0 <= i < |p| ==> AsciiLower(s[i]) == p[i]
  {
    var l := Lower(s);
    if |p| <= |s| && forall i :: 0 <= i < |p| ==> AsciiLower(s[i]) == p[i] {
      assert forall i :: 0 <= i < |p| ==> l[..|p|][i] == p[i];
      assert l[..|p|] == p;
    }
    if StartsWith(l, p) {
      forall i | 0 <= i < |p| ensures AsciiLower(s[i]) == p[i] {
        assert l[..|p|][i] == p[i];
      }
    }
  }

  // ---------------------------------------------------------------------
  // int(...) on a string

  predicate IsDigit(c: char) {
    '0' <= c <= '9'
  }

  predicate AllDigits(s: string) {
    forall i :: 0 <= i < |s| ==> IsDigit(s[i])
  }

  function DigitValue(c: char): (d: nat)
    requires IsDigit(c)
    ensures d < 10
  {
    c as int - '0' as int
  }

  function DigitChar(d: nat): (c: char)
    requires d < 10
    ensures IsDigit(c) && DigitValue(c) == d
  {
    ('0' as int + d) as char
  }

  /** The value of a run of decimal digits, most significant first. */
  function DigitsValue(s: string): nat
    requires AllDigits(s)
  {
    if s == [] then 0 else 10 * DigitsValue(s[..|s| - 1]) + DigitValue(s[|s| - 1])
  }

  /** An optional '+' or '-' sign, then one or more decimal digits. */
  predicate IsIntLiteral(s: string) {
    |s| > 0 &&
    if s[0] == '+' || s[0] == '-' then |s| > 1 && AllDigits(s[1..]) else AllDigits(s)
  }

  /**
   * `int(s)` for a string `s`: `Some(n)` when `s` is an optional '+' or '-'
   * followed by one or more decimal digits, `None` where Python raises
   * `ValueError`.
   */
  function ParseInt(s: string): (r: Option<int>)
    ensures r.Some? <==> IsIntLiteral(s)
    ensures r.Some? && s[0] == '-' ==> r.value == -(DigitsValue(s[1..]) as int)
    ensures r.Some? && s[0] == '+' ==> r.value == DigitsValue(s[1..])
    ensures AllDigits(s) && s != [] ==> r == Some(DigitsValue(s))
  {
    if s == [] then None
    else if s[0] == '+' || s[0] == '-' then
      var body := s[1..];
      if body != [] && AllDigits(body) then
        var v: int := DigitsValue(body);
        Some(if s[0] == '-' then -v else v)
      else None
    else if AllDigits(s) then Some(DigitsValue(s))
    else None
  }

  /** Decimal digits of a natural number, no leading zeros (Python's `str(n)` for n >= 0). */
  function NatDigits(n: nat): (s: string)
    ensures s != [] && AllDigits(s)
    decreases n
  {
    if n < 10 then [DigitChar(n)] else NatDigits(n / 10) + [DigitChar(n % 10)]
  }

  /** Python's `str(n)` for an integer. */
  function FormatInt(n: int): (s: string) {
    if n < 0 then "-" + NatDigits(-n) else NatDigits(n)
  }

  lemma {:induction false} NatDigitsValue(n: nat)
    ensures DigitsValue(NatDigits(n)) == n
    decreases n
  {
    var s := NatDigits(n);
    if n >= 10 {
      NatDigitsValue(n / 10);
      assert s[..|s| - 1] == NatDigits(n / 10);
    }
  }

  /** Reading back what `str` wrote gives the same integer. */
  lemma ParseFormat(n: int)
    ensures ParseInt(FormatInt(n)) == Some(n)
  {
    if n < 0 {
      NatDigitsValue(-n);
      assert FormatInt(n)[1..] == NatDigits(-n);
    } else {
      NatDigitsValue(n);
    }
  }

  /** Text that is not a number (for example "n/a" or "") is refused. */
  lemma ParseRejectsNonNumeric(s: string)
    requires s != [] && !IsDigit(s[0]) && s[0] != '+' && s[0] != '-'
    ensures ParseInt(s).None?
  {
  }

  /**
   * Text with a valid first character but anything else after it is refused,
   * and signs and leading zeros are read as Python reads them.
   */
  lemma ParseExamples()
    ensures ParseInt("95.0").None? && ParseInt("12%").None?
    ensures ParseInt("+").None? && ParseInt("-").None?
    ensures ParseInt("+5") == Some(5) && ParseInt("-007") == Some(-7)
  {
    assert "95.0"[2] == '.' && "12%"[2] == '%';
    assert "+5"[1..] == "5" && "-007"[1..] == "007";
    assert "007"[..2] == "00" && "00"[..1] == "0";
  }
}

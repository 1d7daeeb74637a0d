/** JavaScript numbers as the dashboard forms produce and print them:
    `parseInt` of a form field and `toString` of an integer. */
module Numbers {

  /** What `parseInt` / `parseFloat` produce: a number, or NaN when the text
      holds no number. */
  datatype Parsed<+T> = Num(value: T) | NaN

  predicate IsDigit(c: char)
  {
    '0' <= c <= '9'
  }

  predicate AllDigits(s: string)
  {
    forall i :: 0 <= i < |s| ==> IsDigit(s[i])
  }

  function DigitChar(d: nat): (c: char)
    requires d < 10
    ensures IsDigit(c) && c as int - '0' as int == d
  {
    ('0' as int + d) as char
  }

  /** The value of a string of decimal digits, most significant first. */
  function DigitsValue(s: string): nat
    requires AllDigits(s)
  {
    if s == [] then 0 else DigitsValue(s[..|s| - 1]) * 10 + (s[|s| - 1] as int - '0' as int)
  }

  /** Decimal text of a natural number, without leading zeros:
      it reads back as the number it was made from. */
  function NatToString(n: nat): (s: string)
    ensures |s| > 0 && AllDigits(s)
    ensures n > 0 ==> s[0] != '0'
    ensures DigitsValue(s) == n
    decreases n
  {
    if n < 10 then [DigitChar(n)]
    else
      var front := NatToString(n / 10);
      var s := front + [DigitChar(n % 10)];
      assert s[..|s| - 1] == front;
      s
  }

  /** `Number.prototype.toString()` of an integer (below 10^21, where
      JavaScript switches to exponent notation). */
  function IntToString(n: int): (s: string)
    ensures |s| > 0
    ensures n >= 0 ==> s == NatToString(n)
    ensures n < 0 ==> s == "-" + NatToString(-n)
  {
    if n < 0 then "-" + NatToString(-n) else NatToString(n)
  }

  /** `toString()` of a value parseInt produced. */
  function IntText(p: Parsed<int>): (s: string)
    ensures |s| > 0
  {
    match p
    case NaN => "NaN"
    case Num(n) => IntToString(n)
  }

  /** Length of the run of decimal digits at the start of `s`. */
  function DigitRun(s: string): (k: nat)
    ensures k <= |s| && AllDigits(s[..k])
    ensures k < |s| ==> !IsDigit(s[k])
  {
    if |s| > 0 && IsDigit(s[0]) then
      var k := 1 + DigitRun(s[1..]);
      assert s[..k] == [s[0]] + s[1..][..k - 1];
      k
    else 0
  }

  /** `parseInt(s)` with the default radix: an optional sign, then the longest
      run of decimal digits, the rest ignored; NaN when there is no digit. */
  function ParseInt(s: string): (r: Parsed<int>)
    ensures r.NaN? <==> DigitRun(if |s| > 0 && (s[0] == '-' || s[0] == '+') then s[1..] else s) == 0
  {
    var negative := |s| > 0 && s[0] == '-';
    var body := if |s| > 0 && (s[0] == '-' || s[0] == '+') then s[1..] else s;
    var k := DigitRun(body);
    if k == 0 then NaN
    else
      var magnitude: int := DigitsValue(body[..k]);
      Num(if negative then -magnitude else magnitude)
  }

  lemma {:induction false} DigitRunOfDigits(s: string)
    requires AllDigits(s)
    ensures DigitRun(s) == |s|
  {
    if |s| > 0 {
      DigitRunOfDigits(s[1..]);
    }
  }

  /** Printing a parsed integer and parsing the text again gives it back. */
  lemma {:induction false} ParseIntText(p: Parsed<int>)
    ensures ParseInt(IntText(p)) == p
  {
    match p
    case NaN =>
      assert IntText(p) == "NaN";
    case Num(n) =>
      var digits := NatToString(if n < 0 then -n else n);
      DigitRunOfDigits(digits);
      assert digits[..|digits|] == digits;
      if n < 0 {
        assert IntText(p)[1..] == digits;
      }
  }
}

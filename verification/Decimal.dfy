// Decimal text of integers: Python's `str(n)` and `int(text)` on that text.
// It is used inside cursors, token subjects and the value of a link state.
module Decimal {
  import opened Wrappers

  predicate IsDigit(c: char) {
    '0' <= c <= '9'
  }

  function Digit(d: nat): (c: char)
    requires d < 10
    ensures IsDigit(c)
  {
    ('0' as int + d) as char
  }

  function DigitValue(c: char): nat
    requires IsDigit(c)
  {
    c as int - '0' as int
  }

  function NatText(n: nat): string {
    if n < 10 then [Digit(n)] else NatText(n / 10) + [Digit(n % 10)]
  }

  /** `str(n)` */
  function IntText(n: int): string {
    if n < 0 then "-" + NatText(-n) else NatText(n)
  }

  function ParseNat(s: string): Option<nat> {
    if s == [] || !IsDigit(s[|s| - 1]) then
      None
    else if |s| == 1 then
      Some(DigitValue(s[0]))
    else
      match ParseNat(s[..|s| - 1])
      case None => None
      case Some(k) => Some(10 * k + DigitValue(s[|s| - 1]))
  }

  /** `int(s)`, for an optional minus sign and ASCII digits; anything else is refused. */
  function ParseInt(s: string): Option<int> {
    if s != [] && s[0] == '-' then
      match ParseNat(s[1..])
      case None => None
      case Some(k) => Some(-(k as int))
    else
      match ParseNat(s)
      case None => None
      case Some(k) => Some(k as int)
  }

  lemma {:induction false} NatTextDigits(n: nat)
    ensures NatText(n) != []
    ensures forall i :: 0 <= i < |NatText(n)| ==> IsDigit(NatText(n)[i])
  {
    if n >= 10 {
      NatTextDigits(n / 10);
    }
  }

  lemma {:induction false} ParseNatText(n: nat)
    ensures ParseNat(NatText(n)) == Some(n)
  {
    if n >= 10 {
      var s := NatText(n);
      NatTextDigits(n / 10);
      ParseNatText(n / 10);
      assert s[..|s| - 1] == NatText(n / 10);
    }
  }

  lemma ParseNegative(k: nat)
    ensures ParseInt("-" + NatText(k)) == Some(-(k as int))
  {
    var s := "-" + NatText(k);
    assert s[0] == '-' && s[1..] == NatText(k);
    ParseNatText(k);
  }

  /** `int(str(n)) == n` for every integer. */
  lemma ParseIntText(n: int)
    ensures ParseInt(IntText(n)) == Some(n)
  {
    if n < 0 {
      ParseNegative(-n);
    } else {
      ParseNatText(n);
      NatTextDigits(n);
      assert NatText(n)[0] != '-';
    }
  }

  /** The other way round: digits without a leading zero are the text of the number they are read as. */
  lemma {:induction false} NatTextParse(s: string)
    requires s != [] && (forall i :: 0 <= i < |s| ==> IsDigit(s[i])) && (s[0] == '0' ==> |s| == 1)
    ensures ParseNat(s).Some? && NatText(ParseNat(s).value) == s
    ensures |s| > 1 ==> ParseNat(s).value > 0
  {
    if |s| > 1 {
      var front := s[..|s| - 1];
      assert front[0] == s[0];
      NatTextParse(front);
      var k, d := ParseNat(front).value, DigitValue(s[|s| - 1]);
      assert |front| == 1 ==> k == DigitValue(s[0]) > 0;
      LastDigit(k, d);
      assert s == front + [s[|s| - 1]];
    }
  }

  lemma LastDigit(k: nat, d: nat)
    requires k > 0 && d < 10
    ensures NatText(10 * k + d) == NatText(k) + [Digit(d)]
  {
    assert (10 * k + d) / 10 == k && (10 * k + d) % 10 == d;
  }

  lemma TextOf907()
    ensures IntText(-907) == "-907" && IntText(0) == "0"
  {
    assert NatText(90) == "90";
    assert NatText(907) == "907";
  }

  lemma IntTextInjective(m: int, n: int)
    requires IntText(m) == IntText(n)
    ensures m == n
  {
    ParseIntText(m);
    ParseIntText(n);
  }

  /** Only a minus sign and digits occur in `str(n)`. */
  lemma IntTextChars(n: int)
    ensures IntText(n) != []
    ensures forall i :: 0 <= i < |IntText(n)| ==> IntText(n)[i] == '-' || IsDigit(IntText(n)[i])
  {
    NatTextDigits(if n < 0 then -n else n);
  }
}

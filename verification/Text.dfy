/** Decimal numerals and joining, for failure summaries. */
module Text {

  function Decimal(n: nat): (s: string)
    ensures s != ""
  {
    var digit := ['0' + (n % 10) as char];
    if n < 10 then digit else Decimal(n / 10) + digit
  }

  predicate IsDigit(c: char) {
    '0' <= c <= '9'
  }

  lemma {:induction false} DecimalIsDigits(n: nat)
    ensures forall i :: 0 <= i < |Decimal(n)| ==> IsDigit(Decimal(n)[i])
  {
    if n >= 10 {
      DecimalIsDigits(n / 10);
    }
  }

  lemma {:induction false} DecimalIsLong(n: nat)
    ensures |Decimal(n)| == 1 <==> n < 10
  {
  }

  lemma {:induction false} DecimalLastDigit(n: nat)
    ensures var s := Decimal(n);
            && s[|s| - 1] == '0' + (n % 10) as char
            && (n >= 10 ==> s[..|s| - 1] == Decimal(n / 10))
  {
  }

  /** Different numbers have different numerals. */
  lemma {:induction false} DecimalIsInjective(m: nat, n: nat)
    requires Decimal(m) == Decimal(n)
    ensures m == n
  {
    DecimalIsLong(m);
    DecimalIsLong(n);
    DecimalLastDigit(m);
    DecimalLastDigit(n);
    assert m % 10 == n % 10;
    if m >= 10 {
      DecimalIsInjective(m / 10, n / 10);
    }
  }

  /** A text that starts with a numeral and goes on with something else determines both. */
  lemma {:induction false} NumeralThen(m: nat, a: string, n: nat, b: string)
    requires Decimal(m) + a == Decimal(n) + b
    requires a != "" && !IsDigit(a[0]) && b != "" && !IsDigit(b[0])
    ensures m == n && a == b
  {
    var s, t := Decimal(m), Decimal(n);
    DecimalIsDigits(m);
    DecimalIsDigits(n);
    var whole := s + a;
    assert whole[|s|] == a[0] && whole[|t|] == b[0];
    assert forall i :: 0 <= i < |s| ==> whole[i] == s[i];
    assert forall i :: 0 <= i < |t| ==> whole[i] == t[i];
    assert |s| == |t|;
    assert (s + a)[..|s|] == s && (t + b)[..|s|] == t;
    assert (s + a)[|s|..] == a && (t + b)[|s|..] == b;
    DecimalIsInjective(m, n);
  }

  lemma {:induction false} SamePrefix(prefix: string, a: string, b: string)
    requires prefix + a == prefix + b
    ensures a == b
  {
    assert (prefix + a)[|prefix|..] == a && (prefix + b)[|prefix|..] == b;
  }

  lemma {:induction false} CountThen(m: nat, n: nat, middle: string, a: string, b: string)
    requires Decimal(m) + middle + a == Decimal(n) + middle + b
    requires middle != "" && !IsDigit(middle[0])
    ensures m == n && a == b
  {
    assert Decimal(m) + (middle + a) == Decimal(m) + middle + a;
    assert Decimal(n) + (middle + b) == Decimal(n) + middle + b;
    NumeralThen(m, middle + a, n, middle + b);
    SamePrefix(middle, a, b);
  }

  /** Text in brackets after text without any determines both. */
  lemma {:induction false} Bracketed(x: string, d: string, y: string, e: string)
    requires x + " (" + d + ")" == y + " (" + e + ")"
    requires forall i :: 0 <= i < |x| ==> x[i] != '('
    requires forall i :: 0 <= i < |y| ==> y[i] != '('
    ensures x == y && d == e
  {
    var whole := x + " (" + d + ")";
    assert forall i :: 0 <= i < |x| ==> whole[i] == x[i];
    assert forall i :: 0 <= i < |y| ==> whole[i] == y[i];
    assert whole[|x| + 1] == '(' && whole[|y| + 1] == '(';
    assert whole[|x|] == ' ' && whole[|y|] == ' ';
    assert |x| == |y|;
    assert whole[..|x|] == x && whole[..|y|] == y;
    assert whole[|x| + 2..|whole| - 1] == d && whole[|y| + 2..|whole| - 1] == e;
  }

  function Join(parts: seq<string>, separator: string): string {
    if parts == [] then ""
    else if |parts| == 1 then parts[0]
    else Join(parts[..|parts| - 1], separator) + separator + parts[|parts| - 1]
  }
}

/** The `m:ss` rendering of the elapsed game time. */
module Clock {

  predicate IsDigit(c: char) {
    '0' <= c <= '9'
  }

  function DigitChar(d: nat): (c: char)
    requires d < 10
    ensures IsDigit(c)
  {
    "0123456789"[d]
  }

  function DigitValue(c: char): (d: nat)
    requires IsDigit(c)
    ensures d < 10
  {
    (c as int - '0' as int) as nat
  }

  /** The number whose decimal digits, most significant first, are `s`. */
  function DigitsValue(s: string): nat
    requires forall i :: 0 <= i < |s| ==> IsDigit(s[i])
  {
    if |s| == 0 then 0 else DigitsValue(s[..|s| - 1]) * 10 + DigitValue(s[|s| - 1])
  }

  /** The rendering of a whole number in a template literal: its decimal
      digits, with no leading zero except for 0 itself. JavaScript renders a
      number this way below 1e21, and integer arithmetic on numbers is exact
      below 2^53; elapsed seconds stay far below both. */
  function Decimal(n: nat): (s: string)
    ensures 0 < |s|
    ensures forall i :: 0 <= i < |s| ==> IsDigit(s[i])
    ensures s[0] == '0' ==> n == 0 && |s| == 1
    ensures n < 10 <==> |s| == 1
  {
    if n < 10 then [DigitChar(n)] else Decimal(n / 10) + [DigitChar(n % 10)]
  }

  /** Reading the digits back gives the number that was rendered. */
  lemma {:induction false} DecimalRoundTrip(n: nat)
    ensures DigitsValue(Decimal(n)) == n
  {
    var s := Decimal(n);
    if n >= 10 {
      DecimalRoundTrip(n / 10);
      assert s[..|s| - 1] == Decimal(n / 10);
    }
  }

  /** The seconds field: below 60, zero-padded to exactly two digits. */
  function TwoDigits(n: nat): (t: string)
    requires n < 60
    ensures |t| == 2 && IsDigit(t[0]) && IsDigit(t[1])
    ensures DigitsValue(t) == n
  {
    var t := (if n < 10 then "0" else "") + Decimal(n);
    DecimalRoundTrip(n);
    assert n < 10 ==> t[..1] == "0";
    t
  }

  /** The layout `m:ss`: the minutes are everything before the colon and
      the seconds the two characters after it. */
  lemma MinutesColonSeconds(m: string, t: string)
    requires 0 < |m| && forall i :: 0 <= i < |m| ==> IsDigit(m[i])
    requires |t| == 2 && IsDigit(t[0]) && IsDigit(t[1])
    ensures var r := m + ":" + t;
      && r[|r| - 3] == ':' && r[0] == m[0]
      && (forall i :: 0 <= i < |r| && i != |r| - 3 ==> IsDigit(r[i]))
      && r[..|r| - 3] == m && r[|r| - 2..] == t
  {
    var r := m + ":" + t;
    assert r[..|r| - 3] == m;
    assert r[|r| - 2..] == t;
  }

  /** formatTime: whole minutes, a colon, then the seconds padded to two digits. */
  function FormatTime(seconds: nat): (r: string)
    ensures 4 <= |r| && r[|r| - 3] == ':'
    ensures forall i :: 0 <= i < |r| && i != |r| - 3 ==> IsDigit(r[i])
    ensures r[0] == '0' ==> |r| == 4
    ensures DigitsValue(r[|r| - 2..]) < 60
    ensures DigitsValue(r[..|r| - 3]) * 60 + DigitsValue(r[|r| - 2..]) == seconds
  {
    var m := Decimal(seconds / 60);
    var t := TwoDigits(seconds % 60);
    MinutesColonSeconds(m, t);
    DecimalRoundTrip(seconds / 60);
    m + ":" + t
  }
}

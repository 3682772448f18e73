/** What digits denote: the positional system, and the text of a number. */
module DigitTexts {
  import opened CType
  import opened Integers
  import opened Options
  import opened Wrappers

  const CAPITALS := "0123456789ABCDEFGHIJKLMNOPQRSTUVWXYZ"
  const SMALLS := "0123456789abcdefghijklmnopqrstuvwxyz"

  /** A character is a digit if and only if it is written in one of the two rows, and then its place
      there is its value. */
  lemma DigitIff(c: char, d: nat)
    requires d < 36
    ensures Digit(c) == d <==> c == CAPITALS[d] || c == SMALLS[d]
  {
    if d < 10 {
      assert CAPITALS[d] as int == '0' as int + d;
    } else {
      assert CAPITALS[d] as int == 'A' as int + (d - 10);
    }
  }

  function Power(base: nat, n: nat): nat {
    if n == 0 then 1 else base * Power(base, n - 1)
  }

  /** Digits in front of others count for as many times the base as there are others. */
  lemma {:induction false} Positional(front: string, back: string, base: nat)
    ensures Magnitude(front + back, base) == Magnitude(front, base) * Power(base, |back|) + Magnitude(back, base)
    decreases |back|
  {
    if back == "" {
      assert front + back == front;
    } else {
      var n := |back| - 1;
      var all := front + back;
      assert all[..|all| - 1] == front + back[..n] && all[|all| - 1] == back[n];
      hide Digit;
      Positional(front, back[..n], base);
      OneMore(Magnitude(front, base), Power(base, n), Magnitude(back[..n], base), base);
    }
  }

  lemma OneMore(f: nat, p: nat, b: nat, base: nat)
    ensures (f * p + b) * base == f * (base * p) + b * base
  {
    assert (f * p) * base == f * (base * p);
  }

  /** The text of a number. */
  function TextIn(n: nat, base: nat): (s: string)
    requires 2 <= base <= 36
    ensures s != ""
    decreases n
  {
    if n < base then [SMALLS[n]] else TextIn(n / base, base) + [SMALLS[n % base]]
  }

  lemma MagnitudeSnoc(front: string, c: char, base: nat)
    ensures Magnitude(front + [c], base) == Magnitude(front, base) * base + Digit(c)
  {
    hide Digit;
    var s := front + [c];
    assert s[..|s| - 1] == front && s[|s| - 1] == c;
  }

  lemma TextStep(n: nat, base: nat) returns (q: nat, d: nat)
    requires 2 <= base <= n && base <= 36
    ensures q < n && d < base && q * base + d == n
    ensures TextIn(n, base) == TextIn(q, base) + [SMALLS[d]]
  {
    q, d := n / base, n % base;
  }

  lemma DigitsJoin(front: string, c: char, base: nat)
    requires (forall k :: 0 <= k < |front| ==> Digit(front[k]) < base) && Digit(c) < base
    ensures forall k :: 0 <= k < |front + [c]| ==> Digit((front + [c])[k]) < base
  {
    hide Digit;
  }

  /** It is made of digits, and has the value of the number. */
  lemma {:induction false} TextMagnitude(n: nat, base: nat)
    requires 2 <= base <= 36
    ensures Magnitude(TextIn(n, base), base) == n
    ensures forall k :: 0 <= k < |TextIn(n, base)| ==> Digit(TextIn(n, base)[k]) < base
    decreases n
  {
    if n < base {
      OneDigit(n, base);
    } else {
      hide *;
      var q, d := TextStep(n, base);
      DigitIff(SMALLS[d], d);
      TextMagnitude(q, base);
      MagnitudeSnoc(TextIn(q, base), SMALLS[d], base);
      DigitsJoin(TextIn(q, base), SMALLS[d], base);
    }
  }

  lemma OneDigit(n: nat, base: nat)
    requires n < base <= 36 && 2 <= base
    ensures Magnitude(TextIn(n, base), base) == n
    ensures forall k :: 0 <= k < |TextIn(n, base)| ==> Digit(TextIn(n, base)[k]) < base
  {
    hide Digit, Magnitude;
    DigitIff(SMALLS[n], n);
    assert "" + [SMALLS[n]] == [SMALLS[n]];
    MagnitudeSnoc("", SMALLS[n], base);
    NoMagnitude(base);
  }

  lemma NoMagnitude(base: nat)
    ensures Magnitude("", base) * base == 0
  {
  }

  function Magnified(v: int): nat {
    if v < 0 then -v else v
  }

  function SignOf(v: int): string {
    if v < 0 then "-" else ""
  }

  /** The decimal text of every integer means that integer. */
  lemma DecimalMeans(v: int)
    ensures Meaning(SignOf(v) + TextIn(Magnified(v), 10)) == Some(v)
  {
    TextMagnitude(Magnified(v), 10);
    assert SignOf(v) == "" || SignOf(v) == "-";
    var digits := TextIn(Magnified(v), 10);
    hide *;
    var l := DecimalText(SignOf(v), digits);
    DecimalValue(l, v);
    MeaningOfText(l);
  }

  lemma DecimalText(sign: string, digits: string) returns (l: Literal)
    requires (sign == "" || sign == "-") && digits != "" && forall k :: 0 <= k < |digits| ==> Digit(digits[k]) < 10
    ensures l == Decimal(Numeral("", sign, "", digits), "", "") && l.Proper() && l.Text() == sign + digits
  {
    var n := Numeral("", sign, "", digits);
    l := Decimal(n, "", "");
    hide Digit, ToUpper, IsSpace, Alike;
    assert n.Text() == sign + digits && l.Text() == sign + digits;
  }

  lemma DecimalValue(l: Literal, v: int)
    requires l.Decimal? && l.unit == "" && l.number.sign == SignOf(v) && Magnitude(l.number.digits, 10) == Magnified(v)
    ensures l.Value() == v
  {
    assert !Alike("", "KB") && !Alike("", "MB") && !Alike("", "GB");
    hide Magnitude, Alike;
  }

  function BaseOf(letter: char): nat {
    if letter in "xX" then 16 else if letter in "oO" then 8 else 2
  }

  lemma LetterBase(letter: char, n: Numeral)
    requires letter in "xXoObB"
    ensures Based("", "", letter, n, "", "").Base() == BaseOf(letter)
    ensures ToUpper(letter) == 'X' || ToUpper(letter) == 'O' || ToUpper(letter) == 'B'
  {
  }

  /** And so does its text in another base, behind the letter for it. */
  lemma BasedMeans(v: int, letter: char)
    requires letter in "xXoObB"
    ensures Meaning(SignOf(v) + ['0', letter] + TextIn(Magnified(v), BaseOf(letter))) == Some(v)
  {
    TextMagnitude(Magnified(v), BaseOf(letter));
    assert SignOf(v) == "" || SignOf(v) == "-";
    var digits := TextIn(Magnified(v), BaseOf(letter));
    hide *;
    var l := BasedText(SignOf(v), letter, digits);
    BasedValue(l, v);
    MeaningOfText(l);
  }

  lemma BasedText(sign: string, letter: char, digits: string) returns (l: Literal)
    requires letter in "xXoObB" && (sign == "" || sign == "-") && digits != ""
    requires forall k :: 0 <= k < |digits| ==> Digit(digits[k]) < BaseOf(letter)
    ensures l == Based("", sign, letter, Numeral("", "", "", digits), "", "") && l.Base() == BaseOf(letter)
    ensures l.Proper() && l.Text() == sign + ['0', letter] + digits
  {
    var n := Numeral("", "", "", digits);
    l := Based("", sign, letter, n, "", "");
    LetterBase(letter, n);
    hide Digit, ToUpper, IsSpace, Alike, BaseOf;
    assert n.Text() == digits && "" + sign == sign && digits + ("" + "") == digits;
  }

  lemma BasedValue(l: Literal, v: int)
    requires l.Based? && l.unit == "" && l.number.sign == "" && l.sign == SignOf(v)
    requires Magnitude(l.number.digits, l.Base()) == Magnified(v)
    ensures l.Value() == v
  {
    assert !Alike("", "KB") && !Alike("", "MB") && !Alike("", "GB");
    hide Magnitude, Alike;
  }
}

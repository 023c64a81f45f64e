/** `to_string`, the rendering of a BigInteger as text. */
module Rendering {
  import opened Digits
  import opened Errors
  import opened Parsing

  /** The character of a digit. */
  function DigitChar(x: int): (c: char)
    requires IsDigit(x)
    ensures IsDigitChar(c) && CharDigit(c) == x
  {
    ('0' as int + x) as char
  }

  /** The decimal text of a natural number, most significant digit first. */
  function NatText(x: nat): (t: string)
    ensures |t| >= 1 && forall i :: 0 <= i < |t| ==> IsDigitChar(t[i])
  {
    if x < 10 then [DigitChar(x)] else NatText(x / 10) + [DigitChar(x % 10)]
  }

  /** `std::to_string` of an int: its decimal text, with a minus sign when it is
      negative. */
  function IntText(x: int): string {
    if x < 0 then "-" + NatText(-x) else NatText(x)
  }

  /** What `to_string` produces: from the most significant digit down, the text
      of the int `digit + '0'`, that is of the character CODE of the digit. */
  function Render(s: seq<int>): string {
    if |s| == 0 then "" else Render(s[1..]) + IntText(s[0] + '0' as int)
  }

  /** `to_string`: walks the digits from the top and appends
      `std::to_string(digit + '0')` for each. */
  method ToString(digits: seq<int>) returns (numbers: string)
    ensures numbers == Render(digits)
  {
    numbers := "";
    var i := |digits| - 1;
    assert digits[|digits|..] == [];
    while i >= 0
      invariant -1 <= i < |digits|
      invariant numbers == Render(digits[i + 1..])
    {
      assert digits[i..][1..] == digits[i + 1..];
      numbers := numbers + IntText(digits[i] + '0' as int);
      i := i - 1;
    }
    assert digits[0..] == digits;
  }

  /** The text of the code of a digit: the two characters '4' and '8' + d - 8
      for d in 0..1, '5' and the digit d - 2 for d in 2..9. */
  lemma CodeText(d: int)
    requires IsDigit(d)
    ensures |IntText(d + '0' as int)| == 2
    ensures IntText(d + '0' as int)[0] == (if d < 2 then '4' else '5')
    ensures IntText(d + '0' as int)[1] == DigitChar((d + 8) % 10)
  {
    var x := d + '0' as int;
    assert NatText(x / 10) == [DigitChar(x / 10)];
  }

  /** Every digit turns into TWO characters, so the text is twice as long as
      the number has digits, and it is made of decimal digits. */
  lemma {:induction false} RenderShape(s: seq<int>)
    requires AllDigits(s)
    ensures |Render(s)| == 2 * |s|
    ensures forall i :: 0 <= i < |Render(s)| ==> IsDigitChar(Render(s)[i])
    ensures |s| >= 1 ==> Render(s)[0] == (if s[|s| - 1] < 2 then '4' else '5')
  {
    if |s| > 0 {
      RenderShape(s[1..]);
      CodeText(s[0]);
      if |s| == 1 {
        assert Render(s) == IntText(s[0] + '0' as int);
      } else {
        assert s[1..][|s[1..]| - 1] == s[|s| - 1];
      }
    }
  }

  /** The digit 5 renders as "53", the code of the character '5'. */
  lemma RenderFive()
    ensures Render([5]) == "53"
    ensures ParseSpec(Render([5])) == Ok([3, 5])
  {
    assert Render([5]) == IntText(53) by {
      assert [5][1..] == [];
    }
    assert NatText(53) == NatText(5) + [DigitChar(3)];
    var text := "53";
    assert IsNumber(text);
    assert LeadingZerosFrom(text, 0) == 0;
    assert text[0..] == text;
    assert text[1..] == "3";
    assert FromText("3") == [3] by {
      assert "3"[1..] == "";
    }
    assert FromText(text) == [3, 5];
  }

  /** Parsing the text `to_string` produces never gives back the number: the
      text is always accepted, with a leading '4' or '5', so nothing is dropped
      and the result has twice the digits. */
  lemma ToStringNeverRoundTrips(s: seq<int>)
    requires Canonical(s)
    ensures ParseSpec(Render(s)).Ok?
    ensures |ParseSpec(Render(s)).value| == 2 * |s|
    ensures ParseSpec(Render(s)) != Ok(s)
  {
    var text := Render(s);
    RenderShape(s);
    assert IsNumber(text);
    assert LeadingZeros(text) == 0;
    assert text[0..] == text;
  }

  /** The rendering `to_string` is evidently meant to produce: the character of
      each digit, most significant first. */
  function ToDecimal(s: seq<int>): (t: string)
    requires AllDigits(s)
    ensures |t| == |s|
  {
    if |s| == 0 then "" else ToDecimal(s[1..]) + [DigitChar(s[0])]
  }

  /** ToDecimal is the inverse of the digit reversal the string constructor
      performs. */
  lemma {:induction false} FromTextToDecimal(s: seq<int>)
    requires AllDigits(s)
    ensures FromText(ToDecimal(s)) == s
    ensures forall i :: 0 <= i < |s| ==> IsDigitChar(ToDecimal(s)[i])
    ensures |s| >= 1 ==> ToDecimal(s)[0] == DigitChar(s[|s| - 1])
  {
    if |s| > 0 {
      var rest, t := ToDecimal(s[1..]), ToDecimal(s);
      FromTextToDecimal(s[1..]);
      assert t == rest + [DigitChar(s[0])];
      if |s| == 1 {
        assert t == [DigitChar(s[0])];
        assert FromText(t) == FromText("") + [s[0]];
      } else {
        assert s[1..][|s| - 2] == s[|s| - 1];
        FromTextSnoc(rest, DigitChar(s[0]));
        assert [s[0]] + s[1..] == s;
      }
    }
  }

  /** Adding a character at the least significant end puts its digit first. */
  lemma {:induction false} FromTextSnoc(text: string, c: char)
    ensures FromText(text + [c]) == [CharDigit(c)] + FromText(text)
  {
    if |text| > 0 {
      assert (text + [c])[1..] == text[1..] + [c];
      FromTextSnoc(text[1..], c);
    } else {
      assert FromText([c]) == FromText("") + [CharDigit(c)];
    }
  }

  /** A canonical number survives rendering then parsing. */
  lemma ParseToDecimal(s: seq<int>)
    requires Canonical(s)
    ensures ParseSpec(ToDecimal(s)) == Ok(s)
  {
    var text := ToDecimal(s);
    FromTextToDecimal(s);
    assert IsNumber(text);
    if |s| > 1 {
      assert text[0] != '0';
    }
    assert LeadingZeros(text) == 0;
    assert text[0..] == text;
  }

  /** A numeral survives parsing then rendering, up to its leading zeros. */
  lemma ToDecimalParse(text: string)
    requires IsNumber(text)
    ensures ParseSpec(text).Ok? && Canonical(ParseSpec(text).value)
    ensures ToDecimal(ParseSpec(text).value) == text[LeadingZeros(text)..]
  {
    ParseSpecCorrect(text);
    ToDecimalFromText(text[LeadingZeros(text)..]);
  }

  lemma {:induction false} ToDecimalFromText(text: string)
    requires forall i :: 0 <= i < |text| ==> IsDigitChar(text[i])
    ensures AllDigits(FromText(text)) && ToDecimal(FromText(text)) == text
  {
    if |text| > 0 {
      var c, rest := text[0], text[1..];
      ToDecimalFromText(rest);
      var digits := FromText(rest) + [CharDigit(c)];
      assert FromText(text) == digits;
      ToDecimalSnoc(FromText(rest), CharDigit(c));
      assert DigitChar(CharDigit(c)) == c;
      assert [c] + rest == text;
    }
  }

  /** Adding a top digit puts its character first. */
  lemma {:induction false} ToDecimalSnoc(s: seq<int>, x: int)
    requires AllDigits(s) && IsDigit(x)
    ensures AllDigits(s + [x]) && ToDecimal(s + [x]) == [DigitChar(x)] + ToDecimal(s)
  {
    if |s| > 0 {
      assert (s + [x])[1..] == s[1..] + [x];
      ToDecimalSnoc(s[1..], x);
    } else {
      assert (s + [x])[1..] == [];
    }
  }
}

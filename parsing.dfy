/** `is_number`, the BigInteger constructors and `copy`. */
module Parsing {
  import opened Digits
  import opened Errors

  predicate IsDigitChar(c: char) {
    '0' <= c <= '9'
  }

  /** `is_number`: a non-empty text made of ASCII decimal digits only. */
  predicate IsNumber(text: string) {
    |text| > 0 && forall i :: 0 <= i < |text| ==> IsDigitChar(text[i])
  }

  /** The digit a character stands for (`c - '0'`). */
  function CharDigit(c: char): int {
    c as int - '0' as int
  }

  /** The decimal value of a numeral written most significant digit first. */
  function DecimalValue(text: string): int {
    if |text| == 0 then 0
    else CharDigit(text[0]) * Pow10(|text| - 1) + DecimalValue(text[1..])
  }

  /** The characters of a numeral, reversed into little-endian digits. */
  function FromText(text: string): (r: seq<int>)
    ensures |r| == |text|
  {
    if |text| == 0 then [] else FromText(text[1..]) + [CharDigit(text[0])]
  }

  /** The first index the constructor keeps: leading '0's are skipped, but
      never the last character. */
  function LeadingZeros(text: string): (k: nat)
    requires |text| >= 1
    ensures k < |text|
  {
    LeadingZerosFrom(text, 0)
  }

  function LeadingZerosFrom(text: string, i: nat): (k: nat)
    requires i < |text|
    ensures i <= k < |text|
    ensures forall j :: i <= j < k ==> text[j] == '0'
    ensures k == |text| - 1 || text[k] != '0'
    decreases |text| - i
  {
    if i < |text| - 1 && text[i] == '0' then LeadingZerosFrom(text, i + 1) else i
  }

  /** What the string constructor produces, as a function of the text. */
  function ParseSpec(text: string): Result<seq<int>> {
    if !IsNumber(text) then Err(NotANumber)
    else Ok(FromText(text[LeadingZeros(text)..]))
  }

  lemma {:induction false} FromTextDigits(text: string)
    requires forall i :: 0 <= i < |text| ==> IsDigitChar(text[i])
    ensures AllDigits(FromText(text))
    ensures Value(FromText(text)) == DecimalValue(text)
    ensures |text| >= 1 ==> FromText(text)[|text| - 1] == CharDigit(text[0])
  {
    if |text| > 0 {
      FromTextDigits(text[1..]);
      ValuePush(FromText(text[1..]), CharDigit(text[0]));
      ShiftPow(CharDigit(text[0]), |text| - 1);
    }
  }

  /** Leading zero characters do not change the value of a numeral. */
  lemma {:induction false} DecimalValueDropZeros(text: string, k: nat)
    requires k <= |text|
    requires forall j :: 0 <= j < k ==> text[j] == '0'
    ensures DecimalValue(text[k..]) == DecimalValue(text)
  {
    if k > 0 {
      assert text[1..][k - 1..] == text[k..];
      DecimalValueDropZeros(text[1..], k - 1);
    }
  }

  /** A valid numeral parses to a canonical sequence with the numeral's value;
      anything else is refused. */
  lemma ParseSpecCorrect(text: string)
    ensures ParseSpec(text).Err? <==> !IsNumber(text)
    ensures ParseSpec(text).Err? ==> ParseSpec(text).error == NotANumber
    ensures ParseSpec(text).Ok? ==> Canonical(ParseSpec(text).value)
    ensures ParseSpec(text).Ok? ==> Value(ParseSpec(text).value) == DecimalValue(text)
  {
    if IsNumber(text) {
      var k := LeadingZeros(text);
      var kept := text[k..];
      FromTextDigits(kept);
      DecimalValueDropZeros(text, k);
      assert kept[0] == text[k];
      if |kept| > 1 {
        assert text[k] != '0';
      }
    }
  }

  /** The texts the string constructor refuses: the empty text, and texts with
      a letter or a space. */
  lemma ParseRefusals()
    ensures ParseSpec("") == Err(NotANumber)
    ensures ParseSpec("12a") == Err(NotANumber)
    ensures ParseSpec(" 5") == Err(NotANumber)
  {
    assert !IsDigitChar("12a"[2]);
    assert !IsDigitChar(" 5"[0]);
  }

  /** The zero-skipping loop of the string constructor: all zeros keep one zero,
      and only LEADING zeros are dropped. */
  lemma ParseZeros()
    ensures ParseSpec("000") == Ok([0])
    ensures ParseSpec("0120") == Ok([0, 2, 1])
  {
    assert IsNumber("000");
    assert LeadingZerosFrom("000", 2) == 2;
    assert LeadingZerosFrom("000", 1) == 2;
    assert "000"[2..] == "0";
    assert FromText("0") == [0] by {
      assert "0"[1..] == "";
    }
    assert IsNumber("0120");
    assert LeadingZerosFrom("0120", 1) == 1;
    var kept := "0120"[1..];
    assert kept == "120";
    assert kept[1..] == "20" && kept[1..][1..] == "0";
    assert FromText("20") == [0, 2];
    assert FromText("120") == [0, 2, 1];
  }

  /** The string constructor: validates the text, skips leading zeros and stores
      the digits in reverse order. */
  method Parse(text: string) returns (r: Result<seq<int>>)
    ensures r == ParseSpec(text)
    ensures r.Err? <==> !IsNumber(text)
    ensures r.Ok? ==> Canonical(r.value) && Value(r.value) == DecimalValue(text)
  {
    ParseSpecCorrect(text);
    if !IsNumber(text) {
      return Err(NotANumber);
    }
    var firstNotZero := 0;
    while firstNotZero < |text| - 1 && text[firstNotZero] == '0'
      invariant 0 <= firstNotZero < |text|
      invariant LeadingZerosFrom(text, firstNotZero) == LeadingZeros(text)
    {
      firstNotZero := firstNotZero + 1;
    }
    var digits := seq(|text| - firstNotZero, _ => 0);
    var i := |text| - 1;
    while i >= firstNotZero
      invariant firstNotZero - 1 <= i < |text|
      invariant |digits| == |text| - firstNotZero
      invariant digits[..|text| - 1 - i] == FromText(text[i + 1..])
    {
      assert text[i..][1..] == text[i + 1..];
      assert digits[|text| - i - 1 := CharDigit(text[i])][..|text| - i]
          == digits[..|text| - 1 - i] + [CharDigit(text[i])];
      digits := digits[|text| - i - 1 := CharDigit(text[i])];
      i := i - 1;
    }
    assert digits == digits[..|text| - 1 - i];
    r := Ok(digits);
  }

  /** The default constructor: the number zero. */
  function Zero(): (r: seq<int>)
    ensures Canonical(r) && Value(r) == 0
  {
    [0]
  }

  /** The int constructor. A negative value is refused; zero yields the EMPTY
      sequence, which is not canonical; a positive value yields its canonical
      digits. */
  method FromInt(value: int) returns (r: Result<seq<int>>)
    ensures r.Err? <==> value < 0
    ensures r.Err? ==> r.error == NegativeValue
    ensures r.Ok? ==> AllDigits(r.value) && Value(r.value) == value
    ensures value == 0 ==> r == Ok([])
    ensures value > 0 ==> r.Ok? && Canonical(r.value)
  {
    if value < 0 {
      return Err(NegativeValue);
    }
    var digits: seq<int> := [];
    var x := value;
    while x > 0
      invariant x >= 0
      invariant AllDigits(digits)
      invariant Value(digits) + Shift(x, |digits|) == value
      invariant |digits| >= 1 && x == 0 ==> digits[|digits| - 1] != 0
      invariant value == 0 ==> digits == []
      invariant value > 0 ==> x > 0 || |digits| >= 1
    {
      ValuePush(digits, x % 10);
      SplitCarry(x, x % 10, x / 10, |digits|);
      digits := digits + [x % 10];
      x := x / 10;
    }
    ShiftZero(|digits|);
    r := Ok(digits);
  }

  /** `copy`: element-by-element copy into a fresh vector of the same size. */
  method Copy(source: seq<int>) returns (destination: seq<int>)
    ensures destination == source
  {
    destination := seq(|source|, _ => 0);
    for i := 0 to |source|
      invariant |destination| == |source|
      invariant destination[..i] == source[..i]
    {
      destination := destination[i := source[i]];
    }
    assert destination == destination[..|source|];
  }
}

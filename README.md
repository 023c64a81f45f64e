# Decimal BigInteger kernel in Dafny

This project models the arithmetic kernel of a small C++ BigInteger class
(`main.cpp`). A number is a vector of base-10 digits stored least significant
digit first. Its value is the sum of `d[i] * 10^i`. The class keeps the vector canonical:
at least one digit, every element in 0..9, and no zero at the most significant
end unless the number is zero, which is `[0]`.

The model follows the source file's structure:

- `Digits` (digits.dfy): the representation. It defines `Value`, `Canonical`, the
  reference representation `NatToDigits`, the trimming of top zeros `Trim`, and
  the lemmas about place values that all the loop proofs use. `Shift(x, n)` is
  `x * 10^n`, written with multiplications by 10 only.
- `Errors` (errors.dfy): the exceptions of the class. Each becomes a tag in a
  `Result` type.
- `Parsing` (parsing.dfy): `is_number`, the string, `int` and default
  constructors, and `copy`.
- `Ordering` (ordering.dfy): `is_less`, as a function. The lemmas relate it to
  the order of the values.
- `Scalar` (scalar.dfy): `multiply(vector<int>&, int)`. The vector is a
  `DigitVector` object that the method updates in place.
- `Arithmetic` (arithmetic.dfy): `operator+`, `operator-` and `operator*`. Each
  is a method with the source's carry or borrow loop. Each is proved to
  compute the value's sum, difference or product and, for canonical operands,
  exactly `NatToDigits` of it.
- `Division` (division.dfy): the normalization prefix of `operator/`
  (section 4.3.1 of Knuth's "The Art of Computer Programming", volume 2,
  Algorithm D, step D1), the first quotient-digit estimate, and its correction
  step.
- `Rendering` (rendering.dfy): `to_string` as written. It also has the decimal
  rendering that `to_string` evidently intends, with round trips against parsing.

Some behaviour is modelled as the code does it, not as a clean design would:

- `BigInteger(int)` with value 0 produces the EMPTY vector, not `[0]`.
- `operator-` refuses exactly when `is_less(a, b)`. For non-canonical operands
  that can differ from `a < b` on values.
- A dividend shorter than the divisor makes `vector<int> q(m)` throw. The model
  returns `Err(LengthError)` there, where a clean design would return the
  quotient `[0]`.
- A zero divisor is not refused. Normalization scales `[0]` by 10 and goes on.
  A clean design would raise a division-by-zero error.
- `to_string` renders each digit as the decimal text of its character code.
  See Findings.

## Model

| member | source | states |
|---|---|---|
| Parsing.IsNumber | main.cpp:10-17 | `is_number`: a non-empty text of characters '0'..'9' only; its meaning for parsing is stated by ParseSpecCorrect and ParseRefusals |
| Parsing.ParseSpec | main.cpp:79-92 | the string constructor as a function of the text: NotANumber unless IsNumber, otherwise the reversed digits after the skipped leading zeros; ParseSpecCorrect states its value and canonical form, and Parse is proved equal to it |
| Parsing.ParseSpecCorrect | main.cpp:79-92 | the string constructor refuses (with NotANumber) exactly the texts that are not numerals; an accepted numeral gives a canonical sequence whose value is the numeral's decimal value |
| Parsing.Parse | main.cpp:79-92 | the constructor's two loops compute ParseSpec: an error exactly when `is_number` fails, otherwise canonical digits with the numeral's decimal value |
| Parsing.ParseRefusals | main.cpp:10-17 | "", "12a" and " 5" are refused with NotANumber |
| Parsing.ParseZeros | main.cpp:84-91 | "000" gives [0] and "0120" gives [0, 2, 1]: only leading zeros are dropped, and never the last character |
| Parsing.LeadingZerosFrom | main.cpp:84-87 | the first kept index: every skipped character is '0', and the scan stops at the first non-'0' or at the last character |
| Parsing.DecimalValueDropZeros | main.cpp:84-87 | skipping leading '0' characters does not change the decimal value |
| Parsing.FromTextDigits | main.cpp:88-91 | reversing a numeral gives digits whose value is the numeral's decimal value, with the first character as the top digit |
| Parsing.Zero | main.cpp:94-96 | the default constructor gives a canonical zero |
| Parsing.FromInt | main.cpp:67-76 | a negative argument is refused with NegativeValue; otherwise the digits have the argument's value, are canonical for a positive argument, and are empty for zero |
| Parsing.Copy | main.cpp:35-40 | the copy equals the source element for element |
| Ordering.IsLess | main.cpp:19-33 | `is_less`: length first, then the first differing digit from the top; it is the order of values via IsLessValue and a strict total order via IsLessTrichotomy and IsLessTransitive |
| Ordering.LessFrom | main.cpp:26-31 | the top-down comparison loop over the low i positions; LessFromValue relates it to the values of the low i digits and LessFromTransitive proves it transitive |
| Ordering.IsLessValue | main.cpp:19-33 | for canonical operands, `is_less(a, b)` holds exactly when value(a) < value(b) |
| Ordering.ShorterIsSmaller | main.cpp:20-22 | a canonical number with fewer digits has a smaller value, which justifies deciding on length first |
| Ordering.LessFromValue | main.cpp:26-31 | on equal lengths the top-down loop over the low i positions is true exactly when the low i digits of the first number have a smaller value |
| Ordering.IsLessTrichotomy | main.cpp:19-33 | `is_less` is irreflexive and trichotomous on all sequences: equal sequences are not less, and of two different ones exactly one is less |
| Ordering.IsLessTransitive | main.cpp:19-33 | `is_less` is transitive on all sequences, so with trichotomy it is a strict total order |
| Ordering.LessFromTransitive | main.cpp:26-31 | the top-down comparison loop over the low i positions is transitive |
| Scalar.Multiply | main.cpp:42-55 | scaling in place by v in 0..10 leaves only digits with value old value * v; a non-empty vector ends canonical, and [0] when v is 0 |
| Arithmetic.EraseTrailingZeros | main.cpp:137-143 | the erase loop computes Trim: top zeros are removed down to length 1 |
| Digits.Trim | main.cpp:161-168 | the trimmed vector is a prefix of the input, only zeros are removed, and it keeps at least one digit and no zero top digit |
| Digits.TrimValue | main.cpp:137-143 | trimming keeps the value, and a non-empty digit vector trims to a canonical one |
| Arithmetic.Add | main.cpp:103-118 | the sum's value is value(a) + value(b), its length is the longer length or one more (then its top digit is 1), and for canonical operands it is canonical and equals NatToDigits of the sum |
| Arithmetic.Subtract | main.cpp:120-145 | an error exactly when `is_less(a, b)`; otherwise only digits, at most len(a) of them, trimmed, with value value(a) - value(b) when a >= b (else that plus 10^len(a)); for canonical operands it succeeds exactly when a >= b and gives NatToDigits of the difference |
| Arithmetic.Multiply | main.cpp:147-170 | the product's value is value(a) * value(b), it has at most len(a) + len(b) digits, every slot stays a digit, it is trimmed to canonical form and for canonical operands equals NatToDigits of the product |
| Arithmetic.MultiplyCarry | main.cpp:157-159 | after row i the residual carry is added to slot i + len(b), which is still 0, so every slot stays a digit, the slots above stay 0, and the accumulator holds the low i + 1 digits of a times b |
| Digits.NatToDigits | main.cpp:61 | every natural number has canonical digits with that value |
| Digits.CanonicalUnique | main.cpp:61 | a canonical vector is NatToDigits of its value, so each number has exactly one canonical vector |
| Digits.CanonicalZero | main.cpp:61 | the only canonical vector of value 0 is [0] |
| Division.NormalizePrefix | main.cpp:173-183 | refuses exactly when the dividend is shorter; otherwise d = 10 / (t + 1), both operands scaled by d, the dividend padded to exactly m + n + 1 digits, the divisor canonical; for t >= 1 d <= 5 and the divisor keeps n digits with top digit >= 5; a zero divisor stays [0] with d = 10 |
| Division.ScaleFactorBounds | main.cpp:178 | d = 10 / (t + 1) is 10 for t = 0, and for t >= 1 at most 5 with t * d >= 5 and (t + 1) * d <= 10 |
| Division.ScaledLength | main.cpp:179-183 | scaling a canonical number by 1..10 keeps its length or adds one digit, which is why one pad suffices |
| Division.ScaledDivisor | main.cpp:180 | scaling a divisor with non-zero top digit t by 10 / (t + 1) keeps its length and makes its top digit at least 5 |
| Division.ScaleWindow | main.cpp:178-180 | a number in [t * p, (t + 1) * p) scaled by such a d lies in [5 * p, 10 * p) |
| Division.InitialEstimate | main.cpp:185-187 | the estimate q_hat is just the window's top digit and r_hat the next one, since the divisor does not take part |
| Division.TooLarge | main.cpp:188-191 | the correction test: the estimate equals the base, or q_hat * v[n-2] exceeds 10 * r_hat + u[j+n-2]; TestNeedsPositiveEstimate shows it fires only on an estimate of at least 1, and CorrectEstimate states when it fires |
| Division.CorrectEstimate | main.cpp:188-195 | q_hat is lowered at most twice; the first decrement happens exactly when the test fires and the second exactly when the remainder stays below 10 and the test fires again; q_hat * v_top + r_hat is preserved; on exit the test no longer fires unless two decrements were made or r_hat >= 10; with non-negative inputs q_hat never drops below 0 |
| Division.TestNeedsPositiveEstimate | main.cpp:188 | the test only fires on an estimate of at least 1 when its other operands are non-negative |
| Rendering.IntText | main.cpp:234 | `std::to_string(int)`: the decimal text, with a minus sign for a negative value; CodeText states its two characters for a digit code |
| Rendering.Render | main.cpp:231-237 | `to_string` as a function: top digit first, the text of each digit's code; ToString is proved equal to it, and RenderShape, RenderFive and ToStringNeverRoundTrips state its shape |
| Rendering.ToString | main.cpp:231-237 | the loop builds Render: from the top digit down, the `std::to_string` of `digit + '0'` |
| Rendering.NatText | main.cpp:234 | `std::to_string` of a non-negative int is a non-empty string of decimal digit characters |
| Rendering.CodeText | main.cpp:234 | each digit d renders as two characters: '4' or '5' followed by the last digit of 48 + d |
| Rendering.RenderShape | main.cpp:231-237 | the text has exactly twice as many characters as there are digits, all decimal digits, starting with '4' or '5' |
| Rendering.RenderFive | main.cpp:234 | the number 5 renders as "53", which parses back as 35 |
| Rendering.ToStringNeverRoundTrips | main.cpp:231-237 | for every canonical number, parsing the output of `to_string` succeeds with twice the digits and never gives the number back |
| Rendering.ToDecimal | main.cpp:231-237 | the intended rendering has one character per digit |
| Rendering.FromTextToDecimal | main.cpp:88-91 | the intended rendering is undone by the constructor's digit reversal |
| Rendering.ParseToDecimal | main.cpp:79-92 | parsing the intended rendering of a canonical number gives the number back |
| Rendering.ToDecimalParse | main.cpp:79-92 | the intended rendering of a parsed numeral is the numeral without its leading zeros |

## Left out

- The `main` read-evaluate loop (main.cpp:240-258) is console input and output, locale setup and timing.
- The body of the quotient loop after the estimate (main.cpp:196-227) is left out, and so is the quotient the loop returns. The code does not compute a correct quotient:
  - `q` has m slots but `q[m]` is written.
  - The result of the trial subtraction is never written back.
  - The add-back indexes `v[i - n]` below 0.
  - Non-canonical windows are passed to `is_less` and `operator-`.
- Division.CorrectEstimate takes `v[n-2]` and `u[j+n-2]` as parameters. It does not model the two out-of-range reads when the divisor has one digit (main.cpp:188, main.cpp:191): `v[n-2]` is `v[-1]`, and for j = 0 `u[j+n-2]` is `u[-1]`.
- Division.InitialEstimate models the estimate as written. It is not Knuth's `(u[j+n]*10 + u[j+n-1]) / v[n-1]`, and the model does not relate it to the true quotient digit.
- The texts of the exception messages (main.cpp:81-82, main.cpp:122-126) are left out. Errors are tags. `operator-` calls `to_string` only to build its message.
- `operator=` (main.cpp:98-101) is left out. It replaces the digit vector, and the model's operators return values.
- The private vector constructor (main.cpp:63-65) only calls `copy`, which Parsing.Copy models.
- Machine integer widths and `size_t`/`int` conversions are left out. Digits, carries and lengths are unbounded integers. Every digit sum, digit product and carry in the carry loops stays below 100, and the argument of `BigInteger(int)` only shrinks in its loop, so no int overflow is left out.
- Scalar.Multiply: factors outside 0..10 are not modelled. Its callers pass `d <= 10` and `q_hat <= 9`. With a larger factor the final carry could exceed one digit.

## Findings

| source | as written | input that shows it | evidently intended | confidence | as-written member | corrected member |
|---|---|---|---|---|---|---|
| main.cpp:234 | `std::to_string(digits[i] + '0')` renders the int code of each digit's character | the number 5 renders as "53"; every number renders with twice its digits and does not parse back to itself | append the character `'0' + digit`, giving "5" | not executed | Rendering.ToStringNeverRoundTrips | Rendering.ParseToDecimal |

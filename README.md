# Finnish Business ID (Y-tunnus) checksum and validator

A Dafny model of the `fi-business-id` module (`src/index.ts`). A Business ID
is a seven-digit base, a `-` and a check number. The check number is computed
from the base's digits:

1. Each digit is weighted by the fixed table `7, 9, 10, 5, 8, 4, 2`.
2. The products are summed.
3. `pad` gives the amount that rounds the sum up to the next multiple of 11.
4. That amount is reduced mod 11.

`buildBusinessId` appends `-` and the check number's decimal text to a
seven-character base. `isValidBusinessId` takes the part of an identifier
before its first `-` as the base. A six-character base is the legacy form:
the validator puts a `0` in front of the base and also in front of the
whole string it compares. It then checks that the identifier equals what
`buildBusinessId` makes of that base.

Files:

- `wrappers.dfy` (module `Wrappers`): `Option` and `Result`.
- `business_id.dfy` (module `BusinessId`): the model and its lemmas.

Each `throw new Error(...)` of the source becomes an `Err` value of
`Result`. Its `Error` constructor names the throw site: `ChecksumInputLength`,
`BaseLength` or `IdBaseLength`. The reference definition the proofs compare
against is `StandardCheck`. It writes out the weighted sum term by term and
takes `(11 - sum % 11) % 11`.

Behaviour of the code that a reader might not expect:

- The validator has no shape check. It throws when the part before the first
  `-` is neither six nor seven characters long (src/index.ts:28-30).
- The builder takes only a string. It neither pads it nor converts numbers,
  and it throws for any length but seven (src/index.ts:15-17).
- The test suite expects `isValidBusinessId('helloworld-4')` to be `false`
  (test/validation.test.ts:22). The code throws for it. `MalformedExample`
  proves the model's result is `Err(IdBaseLength)`.

The check number 10 can occur (for the base `0000006`, say). The code does
not reject it: it produces the ten-character identifier `0000006-10`, and
the validator accepts that identifier. The model keeps this behaviour.

## Model

| member | source | states |
|---|---|---|
| `BusinessId.WeightedChangeNotMultiple` | src/index.ts:1 | no weight of the table times a digit change of 1 to 9 either way is a multiple of 11 |
| `BusinessId.SingleDigitChangeDetected` | src/index.ts:1 | with this weight table, two seven-digit lists that differ in exactly one position get different checksums |
| `BusinessId.CeilDiv` | src/index.ts:4 | the result is the exact ceiling of a / b: (q - 1) * b < a <= q * b |
| `BusinessId.Pad` | src/index.ts:3-5 | pad lies in [0, 10], value + pad is a multiple of 11, and pad is 0 exactly when value is a multiple of 11 |
| `BusinessId.PadUnique` | src/index.ts:3-5 | any k in [0, 10] that makes value + k a multiple of 11 equals pad(value) |
| `BusinessId.PadIsComplement` | src/index.ts:3-5 | pad(value) == (11 - value % 11) % 11 for every integer value |
| `BusinessId.BuildCheckSum` | src/index.ts:7-12 | fails, with the checksum's length error, exactly when the input is not seven long; a result is in [0, 10] |
| `BusinessId.SumAppend` | src/index.ts:11 | the reduce `Sum` is a left fold of `+`: appending x to a list adds x to its sum |
| `BusinessId.WeightedSumIsStandard` | src/index.ts:11 | the map with the multiplier table followed by the sum reduce equals 7*d0 + 9*d1 + 10*d2 + 5*d3 + 8*d4 + 4*d5 + 2*d6 |
| `BusinessId.CheckSumIsStandard` | src/index.ts:11 | for seven digits the checksum is the standard check number (11 - S % 11) % 11, and the trailing % 11 leaves the padded value unchanged |
| `BusinessId.WeightedSumBounds` | src/index.ts:11 | for seven decimal digits the weighted sum lies in [0, 405] |
| `BusinessId.CheckSumTenReachable` | src/index.ts:11 | the digits 0,0,0,0,0,0,6 give checksum 10, which is returned, not rejected |
| `BusinessId.DigitValue` | src/index.ts:18 | parseInt of a digit character is a value in [0, 9] |
| `BusinessId.DigitChar` | src/index.ts:18 | the character of a digit n in [0, 9] is a decimal digit that parses back to n |
| `BusinessId.ParseDigits` | src/index.ts:18 | the digit list exists exactly when every character is a decimal digit; it has one digit in [0, 9] per character and spells the input again |
| `BusinessId.DecimalText` | src/index.ts:18 | the check number's text is non-empty and all digits, has no leading zero, is one character exactly below 10 and at most two below 100 |
| `BusinessId.DecimalTextRoundTrip` | src/index.ts:18 | reading the decimal text back as a number gives the number |
| `BusinessId.DecimalTextInjective` | src/index.ts:18 | two numbers with the same decimal text are equal |
| `BusinessId.BuildBusinessId` | src/index.ts:14-19 | throws the length error exactly for a length other than seven; for seven characters succeeds exactly on all digits; the output has the base as prefix, '-' at position 7 and length 9 or 10 |
| `BusinessId.BuildBusinessIdIsStandard` | src/index.ts:14-19 | for a seven-digit base the output is base + "-" + the decimal text of the standard check number, and has length 10 exactly when that number is 10 |
| `BusinessId.BaseSegment` | src/index.ts:23 | the segment is a prefix of the input with no '-', followed in the input by '-' or by the end |
| `BusinessId.BaseSegmentOf` | src/index.ts:23 | the segment of b + "-" + rest is b when b has no '-' |
| `BusinessId.AllDigitsZero` | src/index.ts:25 | a '0' in front keeps a string all-digit, and keeps a string with a non-digit not all-digit |
| `BusinessId.BaseSegmentZero` | src/index.ts:23-26 | a '0' in front of the input joins its segment |
| `BusinessId.IsValidBusinessId` | src/index.ts:21-32 | throws the validator's length error exactly when the segment before the first '-' is neither six nor seven long; otherwise fails exactly when that segment has a non-digit |
| `BusinessId.ValidIffCheckMatches` | src/index.ts:21-31 | for a seven-digit base, base + "-" + t validates, with result true exactly when t is the decimal text of the standard check number, and false otherwise |
| `BusinessId.ValidRoundTrip` | src/index.ts:14-31 | every seven-digit base builds, and the identifier built validates as true |
| `BusinessId.WrongCheckDigitRejected` | src/index.ts:21-31 | a seven-digit base followed by '-' and any digit other than its check text validates as false |
| `BusinessId.LegacyForm` | src/index.ts:24-27 | when the segment before '-' has six characters, validating the identifier is the same as validating it with a '0' in front |
| `BusinessId.LegacyFormOf` | src/index.ts:24-27 | base + "-" + t with a six-character base free of '-' validates as ("0" + base) + "-" + t |
| `BusinessId.LegacyValidIffCheckMatches` | src/index.ts:21-31 | for a six-digit base, base + "-" + t validates, with result true exactly when t is the check text of "0" + base, and false otherwise |
| `BusinessId.AcceptedShape` | src/index.ts:21-31 | an accepted identifier is a six- or seven-digit base, '-' and the decimal text of the standard check number of the base widened to seven digits |
| `BusinessId.BaseCheck1572860` | test/validation.test.ts:7 | the standard check number of 1572860 is 0 |
| `BusinessId.BaseCheck0737546` | test/validation.test.ts:17 | the standard check number of 0737546 is 2 |
| `BusinessId.BaseCheck0000006` | src/index.ts:11 | the standard check number of 0000006 is 10 |
| `BusinessId.BuildExample` | test/validation.test.ts:7 | buildBusinessId("1572860") is "1572860-0" |
| `BusinessId.BuildErrorExample` | test/validation.test.ts:10 | buildBusinessId("ASD") fails with the builder's length error |
| `BusinessId.BuildTenExample` | src/index.ts:18 | buildBusinessId("0000006") is "0000006-10" |
| `BusinessId.BuildExample0737546` | test/validation.test.ts:17 | buildBusinessId("0737546") is "0737546-2" |
| `BusinessId.ValidExample1572860` | test/validation.test.ts:15 | "1572860-0" validates as true |
| `BusinessId.InvalidExample1572860` | test/validation.test.ts:16 | "1572860-1" validates as false |
| `BusinessId.ValidExample0737546` | test/validation.test.ts:17 | "0737546-2" validates as true |
| `BusinessId.InvalidExample0737546` | test/validation.test.ts:18 | "0737546-9" validates as false |
| `BusinessId.LegacyExampleWiden` | test/validation.test.ts:25-26 | a '0' in front of 737546 gives 0737546, whose identifier is "0737546-2" |
| `BusinessId.LegacyExampleValid` | test/validation.test.ts:25 | the legacy "737546-2" validates as true |
| `BusinessId.LegacyExampleInvalid` | test/validation.test.ts:26 | the legacy "737546-9" validates as false |
| `BusinessId.MalformedExample` | test/validation.test.ts:22 | "helloworld-4" makes the validator throw its length error, as the code does; the test expects false |

## Left out

- BuildBusinessId: a base character that is not a decimal digit makes `parseInt` return NaN, and the source then renders the checksum as the text `NaN`. The model returns `Err(NotADigit)` instead and does not model NaN arithmetic.
- IsValidBusinessId: for a six- or seven-character base with a non-digit, the source compares the identifier with the base followed by `-NaN`. It returns true exactly when the identifier is that string (for example `abcdefg-NaN`), and false otherwise. The model returns `Err(NotADigit)` in all these cases.
- Pad: `Math.ceil(value / 11)` is floating-point. The model uses exact integer ceiling division. The two agree for the sums that occur, which are integers in [0, 405].
- Strings: JavaScript measures length in UTF-16 code units. The model's strings are sequences of Unicode characters. The two agree on digits and `-`. A character outside the Basic Multilingual Plane before the first `-` counts as two code units in the source and as one character in the model, so the segment lengths differ: for `1234` followed by U+1F600 and `-1` the source sees a six-unit segment, widens it and returns false, while the model sees five characters and returns `Err(IdBaseLength)`. Such inputs can turn a source result (false, or true for a `-NaN` check text such as `1234` followed by U+1F600 and `-NaN`) into `Err(IdBaseLength)`, and the source's length error (for `1234` followed by two U+1F600 and `-1`, eight code units) into `Err(NotADigit)`.
- `getMultiplier` and `getBaseId` are imported at test/validation.test.ts:1 and exercised at test/validation.test.ts:29-37. They are not defined in `src/index.ts`, so they are not part of this model.
- The test harnesses, build configuration and type branding have no logic to model.

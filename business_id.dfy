/**
  The Finnish Business ID (Y-tunnus): a seven-digit base, a '-' and a check
  number derived from the base by weighting its digits with 7, 9, 10, 5, 8,
  4, 2 and rounding the weighted sum up to a multiple of 11.
  `BuildBusinessId` appends the check number to a base; `IsValidBusinessId`
  recomputes it for an identifier, accepting the legacy six-digit base.
  The errors `src/index.ts` throws are the `Err` side of a `Result`.
*/
module BusinessId {
  import opened Wrappers

  /** The throw sites of the module, plus the one place parseInt gives NaN. */
  datatype Error =
    | ChecksumInputLength  // buildCheckSum: the digit list is not seven long
    | BaseLength           // buildBusinessId: the base is not seven characters
    | IdBaseLength         // isValidBusinessId: the part before '-' is neither six nor seven long
    | NotADigit            // a base character is not a decimal digit

  /** The weights of the seven base digits, in order. */
  const Multi: seq<int> := [7, 9, 10, 5, 8, 4, 2]

  // ---------------------------------------------------------------- pad

  /** Exact ceiling of a / b, for the `Math.ceil(value / 11)` of pad. */
  function CeilDiv(a: int, b: int): (q: int)
    requires b > 0
    ensures (q - 1) * b < a <= q * b
  {
    -((-a) / b)
  }

  /** The amount that rounds `value` up to the next multiple of 11. */
  function Pad(value: int): (p: int)
    ensures 0 <= p <= 10
    ensures (value + p) % 11 == 0
    ensures p == 0 <==> value % 11 == 0
  {
    CeilDiv(value, 11) * 11 - value
  }

  /** Pad is the only amount in [0, 10] that makes `value` a multiple of 11. */
  lemma PadUnique(value: int, k: int)
    requires 0 <= k <= 10 && (value + k) % 11 == 0
    ensures k == Pad(value)
  {
    var p := Pad(value);
    assert (k - p) % 11 == 0 by {
      assert k - p == (value + k) - (value + p);
    }
  }

  /** Pad in the textbook form of the check: 11 minus the remainder, mod 11. */
  lemma PadIsComplement(value: int)
    ensures Pad(value) == (11 - value % 11) % 11
  {
    var k := (11 - value % 11) % 11;
    assert value == 11 * (value / 11) + value % 11;
    if value % 11 == 0 {
      assert k == 0;
    } else {
      assert k == 11 - value % 11;
      assert value + k == 11 * (value / 11 + 1);
    }
    PadUnique(value, k);
  }

  // ------------------------------------------------------ buildCheckSum

  /** `data.map((value, idx) => multi[idx] * value)`. */
  function Weighted(data: seq<int>): (w: seq<int>)
    requires |data| <= |Multi|
    ensures |w| == |data|
    ensures forall i :: 0 <= i < |data| ==> w[i] == Multi[i] * data[i]
  {
    seq(|data|, i requires 0 <= i < |data| => Multi[i] * data[i])
  }

  /** `reduce((prev, curr) => prev + curr)`: a left fold of `+`. */
  function Sum(s: seq<int>): int
  {
    if s == [] then 0 else Sum(s[..|s| - 1]) + s[|s| - 1]
  }

  /** The weighted digit sum of the standard, written out term by term. */
  function StandardSum(d: seq<int>): int
    requires |d| == 7
  {
    7 * d[0] + 9 * d[1] + 10 * d[2] + 5 * d[3] + 8 * d[4] + 4 * d[5] + 2 * d[6]
  }

  /** The check number of the standard: 11 minus the sum's remainder, mod 11. */
  function StandardCheck(d: seq<int>): nat
    requires |d| == 7
  {
    (11 - StandardSum(d) % 11) % 11
  }

  /** The checksum of a digit list; any length but seven throws. */
  function BuildCheckSum(data: seq<int>): (r: Result<nat, Error>)
    ensures r.Err? <==> |data| != 7
    ensures r.Err? ==> r.error == ChecksumInputLength
    ensures r.Ok? ==> r.value <= 10
  {
    if |data| != 7 then Err(ChecksumInputLength)
    else Ok(Pad(Sum(Weighted(data))) % 11)
  }

  /** The reduce is a left fold: appending a term adds it to the sum. */
  lemma SumAppend(s: seq<int>, x: int)
    ensures Sum(s + [x]) == Sum(s) + x
  {
    assert (s + [x])[..|s|] == s;
  }

  /** The map-and-reduce of the source is the standard weighted sum. */
  lemma WeightedSumIsStandard(data: seq<int>)
    requires |data| == 7
    ensures Sum(Weighted(data)) == StandardSum(data)
  {
    var w := Weighted(data);
    // the reduce adds the products one at a time, left to right
    assert w[..1] == [] + [w[0]];
    SumAppend([], w[0]);
    assert w[..2] == w[..1] + [w[1]];
    SumAppend(w[..1], w[1]);
    assert w[..3] == w[..2] + [w[2]];
    SumAppend(w[..2], w[2]);
    assert w[..4] == w[..3] + [w[3]];
    SumAppend(w[..3], w[3]);
    assert w[..5] == w[..4] + [w[4]];
    SumAppend(w[..4], w[4]);
    assert w[..6] == w[..5] + [w[5]];
    SumAppend(w[..5], w[5]);
    assert w == w[..6] + [w[6]];
    SumAppend(w[..6], w[6]);
  }

  /** For seven digits the checksum is the standard check number, and the
      trailing `% 11` on the padded sum changes nothing. */
  lemma CheckSumIsStandard(data: seq<int>)
    requires |data| == 7
    ensures BuildCheckSum(data) == Ok(StandardCheck(data))
    ensures Pad(Sum(Weighted(data))) % 11 == Pad(Sum(Weighted(data)))
  {
    WeightedSumIsStandard(data);
    PadIsComplement(StandardSum(data));
  }

  /** A base of decimal digits has a weighted sum in [0, 405]. */
  lemma WeightedSumBounds(data: seq<int>)
    requires |data| == 7
    requires forall i :: 0 <= i < 7 ==> 0 <= data[i] <= 9
    ensures 0 <= Sum(Weighted(data)) <= 405
  {
    WeightedSumIsStandard(data);
  }

  /** No weight of the table is a multiple of 11, so a change of one digit,
      by at most nine either way, moves the weighted sum by an amount that is
      not a multiple of 11. */
  lemma WeightedChangeNotMultiple(i: nat, delta: int)
    requires i < |Multi|
    requires -9 <= delta <= 9 && delta != 0
    ensures (Multi[i] * delta) % 11 != 0
  {
    var m := Multi[i];
    assert m == 7 || m == 9 || m == 10 || m == 5 || m == 8 || m == 4 || m == 2;
  }

  /** Two sums with the same standard check number differ by a multiple of 11. */
  lemma SameCheckSameRemainder(a: int, b: int)
    requires (11 - a % 11) % 11 == (11 - b % 11) % 11
    ensures (a - b) % 11 == 0
  {
    assert a % 11 == b % 11;
    assert a - b == 11 * (a / 11 - b / 11);
  }

  /** The weights make the checksum catch every single-digit error: two digit
      lists that differ in exactly one position get different checksums. */
  lemma SingleDigitChangeDetected(d: seq<int>, e: seq<int>, i: nat)
    requires |d| == 7 && |e| == 7 && i < 7
    requires forall j :: 0 <= j < 7 ==> 0 <= d[j] <= 9 && 0 <= e[j] <= 9
    requires forall j :: 0 <= j < 7 && j != i ==> d[j] == e[j]
    requires d[i] != e[i]
    ensures BuildCheckSum(d) != BuildCheckSum(e)
  {
    CheckSumIsStandard(d);
    CheckSumIsStandard(e);
    var sd, se := StandardSum(d), StandardSum(e);
    assert sd - se == Multi[i] * (d[i] - e[i]) by {
      assert forall j :: 0 <= j < 7 && j != i ==> d[j] - e[j] == 0;
    }
    WeightedChangeNotMultiple(i, d[i] - e[i]);
    if StandardCheck(d) == StandardCheck(e) {
      SameCheckSameRemainder(sd, se);
    }
  }

  /** The check number 10 occurs and is returned, not rejected. */
  lemma CheckSumTenReachable()
    ensures BuildCheckSum([0, 0, 0, 0, 0, 0, 6]) == Ok(10)
  {
    CheckSumIsStandard([0, 0, 0, 0, 0, 0, 6]);
  }

  // ------------------------------------------------------------ digits

  predicate IsDigit(c: char)
  {
    '0' <= c <= '9'
  }

  predicate AllDigits(s: string)
  {
    forall i :: 0 <= i < |s| ==> IsDigit(s[i])
  }

  /** `parseInt(c, 10)` of a digit character. */
  function DigitValue(c: char): (n: nat)
    requires IsDigit(c)
    ensures n <= 9
  {
    (c as int) - ('0' as int)
  }

  /** The character of a decimal digit. */
  function DigitChar(n: nat): (c: char)
    requires n <= 9
    ensures IsDigit(c) && DigitValue(c) == n
  {
    ('0' as int + n) as char
  }

  /** `idData.split('').map((c) => parseInt(c, 10))`; None where a character
      would parse as NaN. The digits it returns spell `s` again. */
  function ParseDigits(s: string): (r: Option<seq<nat>>)
    ensures r.Some? <==> AllDigits(s)
    ensures r.Some? ==> |r.value| == |s|
    ensures r.Some? ==> forall i :: 0 <= i < |s| ==> r.value[i] <= 9 && DigitChar(r.value[i]) == s[i]
  {
    if AllDigits(s) then Some(seq(|s|, i requires 0 <= i < |s| => DigitValue(s[i]))) else None
  }

  // ------------------------------------------------------ decimal text

  /** The decimal text of a non-negative number, as `'-' + n` renders it. */
  function DecimalText(n: nat): (t: string)
    ensures |t| >= 1 && AllDigits(t)
    ensures |t| == 1 <==> n < 10
    ensures n < 100 ==> |t| <= 2
    ensures t[0] == '0' ==> n == 0
  {
    if n < 10 then [DigitChar(n)] else DecimalText(n / 10) + [DigitChar(n % 10)]
  }

  /** The number a string of decimal digits denotes. */
  function DecimalValue(t: string): nat
    requires AllDigits(t)
  {
    if t == [] then 0 else 10 * DecimalValue(t[..|t| - 1]) + DigitValue(t[|t| - 1])
  }

  /** Reading the decimal text back gives the number. */
  lemma {:induction false} DecimalTextRoundTrip(n: nat)
    ensures DecimalValue(DecimalText(n)) == n
  {
    var t := DecimalText(n);
    if n < 10 {
      assert t[..0] == [];
    } else {
      DecimalTextRoundTrip(n / 10);
      assert t[..|t| - 1] == DecimalText(n / 10);
    }
  }

  /** Different numbers have different decimal texts. */
  lemma DecimalTextInjective(m: nat, n: nat)
    requires DecimalText(m) == DecimalText(n)
    ensures m == n
  {
    DecimalTextRoundTrip(m);
    DecimalTextRoundTrip(n);
  }

  // ---------------------------------------------------- buildBusinessId

  /** The full identifier of a seven-character base: the base, '-' and the
      checksum's decimal text. Any other length throws. */
  function BuildBusinessId(idData: string): (r: Result<string, Error>)
    ensures |idData| != 7 ==> r == Err(BaseLength)
    ensures |idData| == 7 ==> (r.Ok? <==> AllDigits(idData))
    ensures |idData| == 7 && r.Err? ==> r.error == NotADigit
    ensures r.Ok? ==> (|r.value| == 9 || |r.value| == 10) && idData <= r.value && r.value[7] == '-'
  {
    if |idData| != 7 then Err(BaseLength)
    else
      match ParseDigits(idData)
      case None => Err(NotADigit)
      case Some(digits) =>
        match BuildCheckSum(digits)
        case Err(e) => Err(e)
        case Ok(check) => Ok(idData + "-" + DecimalText(check))
  }

  /** The check number the standard gives a seven-digit base. */
  function BaseCheck(base: string): nat
    requires |base| == 7 && AllDigits(base)
  {
    StandardCheck(ParseDigits(base).value)
  }

  /** For a seven-digit base the identifier is the base, '-' and the decimal
      text of the standard check number; it is ten characters long exactly
      when that number is 10. */
  lemma BuildBusinessIdIsStandard(base: string)
    requires |base| == 7 && AllDigits(base)
    ensures BaseCheck(base) <= 10
    ensures BuildBusinessId(base) == Ok(base + "-" + DecimalText(BaseCheck(base)))
    ensures |BuildBusinessId(base).value| == 10 <==> BaseCheck(base) == 10
  {
    CheckSumIsStandard(ParseDigits(base).value);
  }

  // -------------------------------------------------- isValidBusinessId

  /** `s.split('-')[0]`: the part of `s` before its first '-', or all of `s`. */
  function BaseSegment(s: string): (b: string)
    ensures b <= s
    ensures '-' !in b
    ensures |b| < |s| ==> s[|b|] == '-'
  {
    if s == [] || s[0] == '-' then [] else [s[0]] + BaseSegment(s[1..])
  }

  /** The segment before the first '-' of `b + "-" + rest` is `b`, if `b` has no '-'. */
  lemma {:induction false} BaseSegmentOf(b: string, rest: string)
    requires '-' !in b
    ensures BaseSegment(b + "-" + rest) == b
  {
    if b != [] {
      assert (b + "-" + rest)[1..] == b[1..] + "-" + rest;
      BaseSegmentOf(b[1..], rest);
      assert b == [b[0]] + b[1..];
    }
  }

  /** Prefixing a '0' keeps a string all-digit, or not. */
  lemma AllDigitsZero(s: string)
    ensures AllDigits("0" + s) <==> AllDigits(s)
  {
    assert forall i :: 0 <= i < |s| ==> ("0" + s)[i + 1] == s[i];
  }

  /** A leading '0' joins the base segment. */
  lemma BaseSegmentZero(s: string)
    ensures BaseSegment("0" + s) == "0" + BaseSegment(s)
  {
    assert ("0" + s)[1..] == s;
  }

  /** Whether `id` is the identifier its base yields; a six-character base is
      the legacy form and gets a '0' in front, of the base and of `id`. A base
      of any other length throws (the test suite expects false for
      'helloworld-4'; the code throws, and the model follows the code). */
  function IsValidBusinessId(id: string): (r: Result<bool, Error>)
    ensures r == Err(IdBaseLength) <==> |BaseSegment(id)| != 6 && |BaseSegment(id)| != 7
    ensures |BaseSegment(id)| == 6 || |BaseSegment(id)| == 7 ==>
              (r.Err? <==> !AllDigits(BaseSegment(id)))
  {
    var segment := BaseSegment(id);
    var idData := if |segment| == 6 then "0" + segment else segment;
    var idToCompare := if |segment| == 6 then "0" + id else id;
    if |idData| != 7 then Err(IdBaseLength)
    else
      AllDigitsZero(segment);
      match BuildBusinessId(idData)
      case Err(e) => Err(e)
      case Ok(expected) => Ok(idToCompare == expected)
  }

  /** A seven-digit base and a check text validate exactly when the text is
      the decimal text of the base's standard check number. */
  lemma ValidIffCheckMatches(base: string, check: string)
    requires |base| == 7 && AllDigits(base)
    ensures IsValidBusinessId(base + "-" + check) == Ok(check == DecimalText(BaseCheck(base)))
  {
    assert forall i :: 0 <= i < |base| ==> base[i] != '-';
    BaseSegmentOf(base, check);
    BuildBusinessIdIsStandard(base);
    var expected := base + "-" + DecimalText(BaseCheck(base));
    if base + "-" + check == expected {
      assert check == expected[8..];
    }
  }

  /** Every identifier the builder produces validates. */
  lemma ValidRoundTrip(base: string)
    requires |base| == 7 && AllDigits(base)
    ensures BuildBusinessId(base).Ok?
    ensures IsValidBusinessId(BuildBusinessId(base).value) == Ok(true)
  {
    BuildBusinessIdIsStandard(base);
    ValidIffCheckMatches(base, DecimalText(BaseCheck(base)));
  }

  /** Replacing the check digit by any other digit makes the identifier invalid. */
  lemma WrongCheckDigitRejected(base: string, c: char)
    requires |base| == 7 && AllDigits(base)
    requires IsDigit(c) && [c] != DecimalText(BaseCheck(base))
    ensures IsValidBusinessId(base + "-" + [c]) == Ok(false)
  {
    ValidIffCheckMatches(base, [c]);
  }

  /** A legacy identifier, six characters before the '-', validates as the
      same identifier with a '0' in front. */
  lemma LegacyForm(id: string)
    requires |BaseSegment(id)| == 6
    ensures IsValidBusinessId(id) == IsValidBusinessId("0" + id)
  {
    BaseSegmentZero(id);
  }

  /** A legacy identifier with base `base` validates as the identifier with
      base "0" + `base` and the same check text. */
  lemma LegacyFormOf(base: string, check: string)
    requires |base| == 6 && '-' !in base
    ensures IsValidBusinessId(base + "-" + check) == IsValidBusinessId(("0" + base) + "-" + check)
  {
    var id := base + "-" + check;
    BaseSegmentOf(base, check);
    LegacyForm(id);
    ZeroPrefixRegroups(base, check);
  }

  /** Regrouping the '0' prefix of the legacy comparison string. */
  lemma ZeroPrefixRegroups(base: string, check: string)
    ensures "0" + (base + "-" + check) == ("0" + base) + "-" + check
  {
  }

  /** A six-digit (legacy) base and a check text validate exactly when the
      text is the check text of the base with a '0' in front. */
  lemma LegacyValidIffCheckMatches(base: string, check: string)
    requires |base| == 6 && AllDigits(base)
    ensures |"0" + base| == 7 && AllDigits("0" + base)
    ensures IsValidBusinessId(base + "-" + check) == Ok(check == DecimalText(BaseCheck("0" + base)))
  {
    AllDigitsZero(base);
    assert forall i :: 0 <= i < |base| ==> base[i] != '-';
    LegacyFormOf(base, check);
    ValidIffCheckMatches("0" + base, check);
  }

  /** What an accepted identifier looks like: a six- or seven-digit base, '-'
      and the decimal text of the standard check number of the base widened
      to seven digits. With ValidIffCheckMatches and
      LegacyValidIffCheckMatches this characterises acceptance completely. */
  lemma AcceptedShape(id: string)
    requires IsValidBusinessId(id) == Ok(true)
    ensures var b := BaseSegment(id);
            && (|b| == 6 || |b| == 7)
            && AllDigits(b)
            && var wide := if |b| == 6 then "0" + b else b;
               |wide| == 7 && AllDigits(wide)
               && id == b + "-" + DecimalText(BaseCheck(wide))
  {
    var b := BaseSegment(id);
    assert |b| == 6 || |b| == 7;
    assert AllDigits(b);
    var wide := if |b| == 6 then "0" + b else b;
    assert AllDigits(wide) by {
      AllDigitsZero(b);
    }
    var text := DecimalText(BaseCheck(wide));
    assert BuildBusinessId(wide) == Ok(wide + "-" + text) by {
      BuildBusinessIdIsStandard(wide);
    }
    var compared := if |b| == 6 then "0" + id else id;
    assert compared == wide + "-" + text;
    if |b| == 6 {
      assert id == compared[1..];
      assert compared[1..] == b + "-" + text;
    }
  }

  // ---------------------------------------------- the test suite's cases

  lemma BaseCheck1572860()
    ensures BaseCheck("1572860") == 0
  {
    assert ParseDigits("1572860").value == [1, 5, 7, 2, 8, 6, 0];
  }

  lemma BaseCheck0737546()
    ensures BaseCheck("0737546") == 2
  {
    assert ParseDigits("0737546").value == [0, 7, 3, 7, 5, 4, 6];
  }

  lemma BaseCheck0000006()
    ensures BaseCheck("0000006") == 10
  {
    assert ParseDigits("0000006").value == [0, 0, 0, 0, 0, 0, 6];
  }

  lemma BuildExample()
    ensures BuildBusinessId("1572860") == Ok("1572860-0")
  {
    BuildBusinessIdIsStandard("1572860");
    BaseCheck1572860();
    assert DecimalText(0) == "0";
    assert "1572860" + "-" + "0" == "1572860-0" by {
      assert forall i | 0 <= i < 9 :: ("1572860" + "-" + "0")[i] == "1572860-0"[i];
    }
  }

  lemma BuildErrorExample()
    ensures BuildBusinessId("ASD") == Err(BaseLength)
  {
  }

  /** A base whose check number is 10 gets a ten-character identifier. */
  lemma BuildTenExample()
    ensures BuildBusinessId("0000006") == Ok("0000006-10")
  {
    BuildBusinessIdIsStandard("0000006");
    BaseCheck0000006();
    assert DecimalText(10) == "10" by {
      assert DecimalText(1) == "1";
    }
    assert "0000006" + "-" + "10" == "0000006-10" by {
      assert forall i | 0 <= i < 10 :: ("0000006" + "-" + "10")[i] == "0000006-10"[i];
    }
  }

  lemma BuildExample0737546()
    ensures BuildBusinessId("0737546") == Ok("0737546-2")
  {
    BuildBusinessIdIsStandard("0737546");
    BaseCheck0737546();
    assert DecimalText(2) == "2";
    assert "0737546" + "-" + "2" == "0737546-2" by {
      assert forall i | 0 <= i < 9 :: ("0737546" + "-" + "2")[i] == "0737546-2"[i];
    }
  }

  /** BaseSegmentOf for an identifier given as one piece of text. */
  lemma BaseSegmentOfText(b: string, rest: string, id: string)
    requires '-' !in b
    requires |id| == |b| + 1 + |rest|
    requires forall i | 0 <= i < |id| :: id[i] == (b + "-" + rest)[i]
    ensures BaseSegment(id) == b
  {
    assert id == b + "-" + rest;
    BaseSegmentOf(b, rest);
  }

  lemma ValidExample1572860()
    ensures IsValidBusinessId("1572860-0") == Ok(true)
  {
    BuildExample();
    BaseSegmentOfText("1572860", "0", "1572860-0");
  }

  lemma InvalidExample1572860()
    ensures IsValidBusinessId("1572860-1") == Ok(false)
  {
    BuildExample();
    BaseSegmentOfText("1572860", "1", "1572860-1");
    assert "1572860-1"[8] != "1572860-0"[8];
  }

  lemma ValidExample0737546()
    ensures IsValidBusinessId("0737546-2") == Ok(true)
  {
    BuildExample0737546();
    BaseSegmentOfText("0737546", "2", "0737546-2");
  }

  lemma InvalidExample0737546()
    ensures IsValidBusinessId("0737546-9") == Ok(false)
  {
    BuildExample0737546();
    BaseSegmentOfText("0737546", "9", "0737546-9");
    assert "0737546-9"[8] != "0737546-2"[8];
  }

  /** The legacy base 737546 widens to 0737546. */
  lemma LegacyExampleWiden()
    ensures BuildBusinessId("0" + "737546") == Ok("0737546-2")
    ensures "0" + "737546-2" == "0737546-2"
    ensures "0" + "737546-9" == "0737546-9"
  {
    assert "0" + "737546" == "0737546" by {
      assert forall i | 0 <= i < 7 :: ("0" + "737546")[i] == "0737546"[i];
    }
    BuildExample0737546();
    assert forall i | 0 <= i < 9 :: ("0" + "737546-2")[i] == "0737546-2"[i];
    assert forall i | 0 <= i < 9 :: ("0" + "737546-9")[i] == "0737546-9"[i];
  }

  /** A legacy identifier validates as its seven-digit form. */
  lemma LegacyExampleValid()
    ensures IsValidBusinessId("737546-2") == Ok(true)
  {
    LegacyExampleWiden();
    BaseSegmentOfText("737546", "2", "737546-2");
  }

  lemma LegacyExampleInvalid()
    ensures IsValidBusinessId("737546-9") == Ok(false)
  {
    LegacyExampleWiden();
    BaseSegmentOfText("737546", "9", "737546-9");
    assert "0737546-9"[8] != "0737546-2"[8];
  }

  /** The test suite expects false for this input; the code throws, and so
      does the model. */
  lemma MalformedExample()
    ensures IsValidBusinessId("helloworld-4") == Err(IdBaseLength)
  {
    BaseSegmentOfText("helloworld", "4", "helloworld-4");
  }
}

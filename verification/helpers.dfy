/**
 * The formatting helpers of the server: visa numbers, `DD-MM-YYYY` dates,
 * upper-cased trimmed text and verification codes.
 */
module Helpers {
  import opened Wrappers
  import opened Text
  import opened Digits
  import opened Calendar

  const VisaNumberPrefix: string := "E-VVL/DGM/DG/CAB/"

  /**
   * `generateVisaNumber(sequence)`: the prefix, then the sequence padded with
   * zeros to at least seven characters.
   */
  function GenerateVisaNumber(sequence: int): (r: string)
    ensures StartsWith(r, VisaNumberPrefix)
    ensures |r| >= |VisaNumberPrefix| + 7
  {
    VisaNumberPrefix + PadStart(IntToDecimal(sequence), 7, '0')
  }

  /** The sequence a visa number carries, when it is the prefix followed by digits. */
  function ParseVisaNumber(s: string): Option<nat> {
    if StartsWith(s, VisaNumberPrefix) && |s| > |VisaNumberPrefix|
       && AllDigits(s[|VisaNumberPrefix|..])
    then Some(DecimalValue(s[|VisaNumberPrefix|..]))
    else None
  }

  /**
   * For a non-negative sequence the number reads back as that sequence; it is
   * exactly 24 characters below ten million and is never truncated above.
   */
  lemma VisaNumberRoundTrip(n: nat)
    ensures ParseVisaNumber(GenerateVisaNumber(n)) == Some(n)
    ensures GenerateVisaNumber(n)[|VisaNumberPrefix|..] == ZeroPad(n, 7)
    ensures |NatToDecimal(n)| <= 7 ==> |GenerateVisaNumber(n)| == |VisaNumberPrefix| + 7
    ensures |NatToDecimal(n)| > 7 ==> GenerateVisaNumber(n) == VisaNumberPrefix + NatToDecimal(n)
  {
    var r := GenerateVisaNumber(n);
    assert IntToDecimal(n) == NatToDecimal(n);
    assert r[|VisaNumberPrefix|..] == ZeroPad(n, 7);
  }

  /** Distinct non-negative sequences give distinct visa numbers. */
  lemma VisaNumberInjective(m: nat, n: nat)
    ensures GenerateVisaNumber(m) == GenerateVisaNumber(n) ==> m == n
  {
    VisaNumberRoundTrip(m);
    VisaNumberRoundTrip(n);
  }

  /** `formatDateDDMMYYYY(d)`: two-digit day, two-digit month (counted from 1), then the year. */
  function FormatDateDDMMYYYY(day: int): (r: string)
    ensures |r| >= 7 && r[2] == '-' && r[5] == '-'
    ensures CivilFromDays(day).year >= 0 ==> ParseDDMMYYYY(r) == Some(day)
  {
    var c := CivilFromDays(day);
    var ds := ZeroPad(c.day, 2);
    var ms := ZeroPad(c.month, 2);
    var ys := IntToDecimal(c.year);
    DecimalLength(c.month, 2);
    DaysInMonthBounds(c.year, c.month);
    DecimalLength(c.day, 2);
    DayMonthYearFields(ds, ms, ys);
    ds + "-" + ms + "-" + ys
  }

  /** Reads `DD-MM-YYYY` back into a day number, for years written without a sign. */
  function ParseDDMMYYYY(s: string): Option<int> {
    if |s| >= 7 && s[2] == '-' && s[5] == '-'
       && AllDigits(s[..2]) && AllDigits(s[3..5]) && AllDigits(s[6..])
    then
      var c := Civil(DecimalValue(s[6..]), DecimalValue(s[3..5]), DecimalValue(s[..2]));
      if ValidCivil(c) then Some(DaysFromCivil(c)) else None
    else None
  }

  /** Where the three fields sit in a `DD-MM-YYYY` string. */
  lemma DayMonthYearFields(ds: string, ms: string, ys: string)
    requires |ds| == 2 && |ms| == 2 && |ys| >= 1
    ensures var s := ds + "-" + ms + "-" + ys;
      |s| >= 7 && s[2] == '-' && s[5] == '-' && s[..2] == ds && s[3..5] == ms && s[6..] == ys
  {
    var s := ds + "-" + ms + "-" + ys;
    assert s[..2] == ds;
    assert s[3..5] == ms;
    assert s[6..] == ys;
  }

  /** For every date from year 0 on, the formatted date reads back as the same day. */
  lemma FormatDateRoundTrip(day: int)
    requires CivilFromDays(day).year >= 0
    ensures ParseDDMMYYYY(FormatDateDDMMYYYY(day)) == Some(day)
  {
  }

  /** `safeUpper(s)`: `null` and `undefined` become `""`, anything else is trimmed and upper-cased. */
  function SafeUpper(s: Option<string>): (r: string)
    ensures s.None? ==> r == ""
    ensures NoLowerCase(r)
    ensures r == [] || (!IsSpace(r[0]) && !IsSpace(r[|r| - 1]))
    ensures r == [] <==> IsBlank(s.GetOr(""))
  {
    var t := Trim(s.GetOr(""));
    UpperHasNoLowerCase(t);
    UpperKeepsSpace(t);
    ToUpper(t)
  }

  /** Applying `safeUpper` to its own result changes nothing. */
  lemma SafeUpperIdempotent(s: Option<string>)
    ensures SafeUpper(Some(SafeUpper(s))) == SafeUpper(s)
  {
    var r := SafeUpper(s);
    TrimTrimmed(r);
    ToUpperIdempotent(Trim(s.GetOr("")));
  }

  const VerificationPrefix: string := "VFY-"

  /**
   * `generateVerificationCode()`, given the clock and the random draw: `VFY-`,
   * the millisecond clock in base 36, `-`, and the first four base-36 digits of
   * the random fraction (`randomDigits` stands for the text after `0.` that
   * `Math.random().toString(36)` writes), all upper-cased.
   */
  function GenerateVerificationCode(nowMs: nat, randomDigits: string): (r: string)
    ensures StartsWith(r, VerificationPrefix)
    ensures NoLowerCase(r)
    ensures |r| <= |VerificationPrefix| + |ToRadix(nowMs, 36)| + 5
  {
    var time := ToUpper(ToRadix(nowMs, 36));
    var rnd := ToUpper(Take(randomDigits, 4));
    UpperHasNoLowerCase(ToRadix(nowMs, 36));
    UpperHasNoLowerCase(Take(randomDigits, 4));
    var r := VerificationPrefix + time + "-" + rnd;
    assert r[..4] == VerificationPrefix;
    r
  }

  /** Base-36 digits as JavaScript writes them contain no capital letters. */
  lemma RadixDigitsLowerCase(s: string)
    requires AllRadixDigits(s, 36)
    ensures NoUpperCase(s) && '-' !in s
  {
    assert forall k :: 0 <= k < |s| ==> IsRadixDigit(s[k], 36);
  }

  /**
   * A verification code splits at `-` into the prefix, the clock and the random
   * part, and the clock part reads back as the clock.
   */
  lemma VerificationCodeFields(nowMs: nat, randomDigits: string)
    requires AllRadixDigits(randomDigits, 36)
    ensures var parts := Split(GenerateVerificationCode(nowMs, randomDigits), '-');
      && |parts| == 3
      && parts[0] == "VFY"
      && parts[2] == ToUpper(Take(randomDigits, 4))
      && AllRadixDigits(ToLower(parts[1]), 36)
      && RadixValue(ToLower(parts[1]), 36) == nowMs
  {
    var digits := ToRadix(nowMs, 36);
    var time := ToUpper(digits);
    var rnd := ToUpper(Take(randomDigits, 4));
    RadixDigitsLowerCase(digits);
    RadixDigitsLowerCase(Take(randomDigits, 4));
    DashFreeUpper(digits);
    DashFreeUpper(Take(randomDigits, 4));
    CodeSplit(time, rnd);
    LowerUndoesUpper(digits);
    RadixRoundTrip(nowMs, 36);
  }

  lemma DashFreeUpper(s: string)
    requires '-' !in s
    ensures '-' !in ToUpper(s)
  {
    forall k | 0 <= k < |s|
      ensures ToUpper(s)[k] != '-'
    {
      assert s[k] != '-';
    }
  }

  lemma CodeSplit(time: string, rnd: string)
    requires '-' !in time && '-' !in rnd
    ensures Split(VerificationPrefix + time + "-" + rnd, '-') == ["VFY", time, rnd]
  {
    assert VerificationPrefix + time + "-" + rnd == "VFY" + ['-'] + (time + ['-'] + rnd);
    SplitAfter("VFY", '-', time + ['-'] + rnd);
    SplitAfter(time, '-', rnd);
    SplitWithout(rnd, '-');
  }
}

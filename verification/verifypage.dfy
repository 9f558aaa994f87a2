/**
 * The visa verification page of `client/src/pages/verify.tsx`: how a typed or
 * linked code becomes the code that is looked up, how the holder's passport
 * number is masked, and how the validity banner follows the answer.
 */
module VerifyPage {
  import opened Wrappers
  import opened Text
  import opened Schema
  import Helpers

  /** The page state: the input and the last submitted code (`null` before any). */
  datatype Page = Page(searchCode: string, submittedCode: Option<string>)

  /** The page as it opens: a truthy `:code` route parameter fills the input and is submitted unchanged. */
  function Open(codeParam: Option<string>): (p: Page)
    ensures Present(codeParam) ==> p == Page(codeParam.value, codeParam)
    ensures !Present(codeParam) ==> p == Page("", None)
  {
    if Present(codeParam) then Page(codeParam.value, codeParam) else Page("", None)
  }

  /** Typing in the input: the text is upper-cased as it is typed. */
  function Type(p: Page, input: string): (r: Page)
    ensures r.submittedCode == p.submittedCode
    ensures |r.searchCode| == |input| && NoLowerCase(r.searchCode)
    ensures ToLower(r.searchCode) == ToLower(input)
  {
    UpperHasNoLowerCase(input);
    assert forall k :: 0 <= k < |input| ==> LowerChar(UpperChar(input[k])) == LowerChar(input[k]);
    p.(searchCode := ToUpper(input))
  }

  /** `handleSearch`: a blank input is not submitted; otherwise its trim, upper-cased. */
  function HandleSearch(p: Page): (r: Page)
    ensures r.searchCode == p.searchCode
    ensures IsBlank(p.searchCode) ==> r == p
    ensures !IsBlank(p.searchCode) ==> r.submittedCode == Some(ToUpper(Trim(p.searchCode)))
  {
    if Trim(p.searchCode) != "" then p.(submittedCode := Some(ToUpper(Trim(p.searchCode)))) else p
  }

  /** The lookup runs once a code has been submitted. */
  predicate QueryEnabled(p: Page) {
    Present(p.submittedCode)
  }

  /**
   * A code submitted from the input is normalised: not empty, without
   * lower-case letters, and without white space at either end.
   */
  lemma SubmittedCodeNormalised(p: Page)
    requires !IsBlank(p.searchCode)
    ensures var c := HandleSearch(p).submittedCode.value;
      && c != "" && NoLowerCase(c) && Trim(c) == c && ToUpper(c) == c
    ensures QueryEnabled(HandleSearch(p))
  {
    var t := Trim(p.searchCode);
    var c := ToUpper(t);
    assert HandleSearch(p).submittedCode == Some(c);
    UpperHasNoLowerCase(t);
    ToUpperIdempotent(t);
    assert c != [] && !IsSpace(c[0]) && !IsSpace(c[|c| - 1]) by {
      assert t != [];
      UpperKeepsSpace(t);
    }
    TrimTrimmed(c);
  }

  /** Submitting a code twice sends the same code. */
  lemma ResubmitIsStable(p: Page)
    requires !IsBlank(p.searchCode)
    ensures var c := HandleSearch(p).submittedCode.value;
      HandleSearch(Page(c, None)).submittedCode == Some(c)
  {
    SubmittedCodeNormalised(p);
  }

  /** Two characters equal up to case are the same upper-case character. */
  lemma UpperOfSameLower(x: char, c: char)
    requires LowerChar(x) == LowerChar(c) && !('a' <= c <= 'z')
    ensures UpperChar(x) == c
  {
  }

  /**
   * Whatever the case and the surrounding white space of what is typed, the
   * code submitted is the generated verification code it stands for:
   * generated codes carry no lower-case letters.
   */
  lemma TypedCodeFindsGenerated(nowMs: nat, randomDigits: string, typed: string)
    requires var code := Helpers.GenerateVerificationCode(nowMs, randomDigits);
      ToLower(Trim(typed)) == ToLower(code)
    ensures HandleSearch(Page(typed, None)).submittedCode
         == Some(Helpers.GenerateVerificationCode(nowMs, randomDigits))
  {
    var code := Helpers.GenerateVerificationCode(nowMs, randomDigits);
    var t := Trim(typed);
    assert |t| == |code|;
    assert t != [] by {
      assert Helpers.VerificationPrefix != [];
    }
    forall k | 0 <= k < |t|
      ensures UpperChar(t[k]) == code[k]
    {
      assert ToLower(t)[k] == ToLower(code)[k];
      UpperOfSameLower(t[k], code[k]);
    }
    assert ToUpper(t) == code;
  }

  /**
   * A code taken from the route is sent as it is: a link carrying a code
   * with a lower-case letter is sent with it, while the same code typed in is
   * sent upper-cased, hence differently.
   */
  lemma RouteCodeNotNormalised(code: string)
    requires !NoLowerCase(code)
    ensures Open(Some(code)).submittedCode == Some(code)
    ensures !IsBlank(code)
    ensures HandleSearch(Page(code, None)).submittedCode.Some?
    ensures HandleSearch(Page(code, None)).submittedCode != Open(Some(code)).submittedCode
  {
    var k :| 0 <= k < |code| && 'a' <= code[k] <= 'z';
    assert !IsSpace(code[k]);
    var c := ToUpper(Trim(code));
    UpperHasNoLowerCase(Trim(code));
    assert c != code by {
      if |c| == |code| {
        assert c[k] != code[k];
      }
    }
  }

  /**
   * The passport as displayed: its first three characters, four stars, its
   * last two; only the stars when the row has no passport number.
   */
  function MaskPassport(passport: Option<string>): (r: string)
    ensures passport.None? ==> r == "****"
    ensures passport.Some? && |passport.value| >= 5 ==>
      |r| == 9 && r[..3] == passport.value[..3] && r[3..7] == "****"
      && r[7..] == passport.value[|passport.value| - 2..]
  {
    match passport
    case None => "****"
    case Some(s) => Take(s, 3) + "****" + TakeLast(s, 2)
  }

  /**
   * The mask discloses only the ends: two passport numbers of five or more
   * characters that share their first three and last two characters look
   * the same, whatever lies between.
   */
  lemma MaskHidesMiddle(a: string, b: string)
    requires |a| >= 5 && |b| >= 5
    requires a[..3] == b[..3] && a[|a| - 2..] == b[|b| - 2..]
    ensures MaskPassport(Some(a)) == MaskPassport(Some(b))
  {
  }

  /** A passport number of exactly five characters is shown in full, with the stars inside. */
  lemma ShortPassportShown(s: string)
    requires |s| == 5
    ensures MaskPassport(Some(s)) == s[..3] + "****" + s[3..]
  {
  }

  /** The answer of the lookup as the page reads it. */
  datatype VerificationResult = VerificationResult(visa: Visa, application: Application, isValid: bool)

  /** The banner: valid or invalid. */
  datatype Banner = Valid | Invalid

  /** The banner follows the `isValid` flag of the answer and nothing else. */
  function BannerOf(result: VerificationResult): (b: Banner)
    ensures b == Valid <==> result.isValid
  {
    if result.isValid then Valid else Invalid
  }

  /** Two answers with the same flag show the same banner, whatever their visa and application rows. */
  lemma BannerIgnoresRows(r1: VerificationResult, r2: VerificationResult)
    requires r1.isValid == r2.isValid
    ensures BannerOf(r1) == BannerOf(r2)
  {
  }
}

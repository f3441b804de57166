/**
 * The pickup token string `PICKUP-<milliseconds>-<suffix>` that the student
 * app issues (QRContext.generateQRCode) and that the admin form stamps on a
 * new student (AddStudentModal, field qrCode). The milliseconds are the
 * clock reading rendered in decimal; the suffix is a short random base-36
 * string, taken here as an arbitrary parameter.
 */
module PickupToken {
  import opened Wrappers
  import opened Text

  const TokenPrefix: string := "PICKUP-"

  /** What a token string carries: the issuing clock reading and the random suffix. */
  datatype TokenParts = TokenParts(issuedMs: nat, suffix: string)

  /** `PICKUP-${timestamp}-${random}`. */
  function MakeToken(issuedMs: nat, suffix: string): (t: string)
    ensures |t| > |TokenPrefix| + |suffix| && t[..|TokenPrefix|] == TokenPrefix
    ensures t[|t| - |suffix|..] == suffix
  {
    TokenPrefix + Decimal(issuedMs) + "-" + suffix
  }

  /** The length of the longest prefix of `s` made of decimal digits. */
  function DigitRun(s: string): (k: nat)
    ensures k <= |s| && AllDigits(s[..k])
    ensures k < |s| ==> !IsDigit(s[k])
  {
    if s == [] || !IsDigit(s[0]) then 0
    else
      var k := 1 + DigitRun(s[1..]);
      assert s[..k] == [s[0]] + s[1..][..k - 1];
      k
  }

  /**
   * Reads a token string back into its parts: the prefix, a non-empty run of
   * digits, a dash, and whatever follows as the suffix.
   */
  function ParseToken(t: string): Option<TokenParts>
  {
    if |t| < |TokenPrefix| || t[..|TokenPrefix|] != TokenPrefix then None
    else
      var rest := t[|TokenPrefix|..];
      var k := DigitRun(rest);
      if 0 < k < |rest| && rest[k] == '-' then Some(TokenParts(ParseDecimal(rest[..k]), rest[k + 1..]))
      else None
  }

  lemma {:induction false} DigitRunStopsAtDash(d: string, s: string)
    requires AllDigits(d)
    ensures DigitRun(d + "-" + s) == |d|
    decreases |d|
  {
    if d == [] {
      assert (d + "-" + s)[0] == '-';
    } else {
      assert (d + "-" + s)[1..] == d[1..] + "-" + s;
      DigitRunStopsAtDash(d[1..], s);
    }
  }

  /** Every issued token parses back to the clock reading and the suffix it was made from. */
  lemma ParseMakeToken(issuedMs: nat, suffix: string)
    ensures ParseToken(MakeToken(issuedMs, suffix)) == Some(TokenParts(issuedMs, suffix))
  {
    var d := Decimal(issuedMs);
    var t := MakeToken(issuedMs, suffix);
    assert t[..|TokenPrefix|] == TokenPrefix;
    var rest := t[|TokenPrefix|..];
    assert rest == d + "-" + suffix;
    DigitRunStopsAtDash(d, suffix);
    assert rest[..|d|] == d;
    assert rest[|d| + 1..] == suffix;
    ParseDecimalOfDecimal(issuedMs);
  }

  /**
   * Two tokens are the same string only when they were issued at the same
   * millisecond with the same suffix; in particular tokens issued at
   * different clock readings always differ.
   */
  lemma MakeTokenInjective(ms1: nat, suffix1: string, ms2: nat, suffix2: string)
    requires MakeToken(ms1, suffix1) == MakeToken(ms2, suffix2)
    ensures ms1 == ms2 && suffix1 == suffix2
  {
    ParseMakeToken(ms1, suffix1);
    ParseMakeToken(ms2, suffix2);
  }
}

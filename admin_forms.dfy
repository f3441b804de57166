/**
 * What the two admin modals share: the required-field rule (an empty text
 * input is falsy), its alert, and the random avatar address.
 */
module AdminForms {
  import opened Text

  const FillRequiredMessage: string := "Please fill in all required fields"
  const AvatarBase: string := "https://i.pravatar.cc/150?img="

  /** `!a || !b || ...` is false: no required input is the empty string. */
  predicate AllFilled(fields: seq<string>) {
    forall i :: 0 <= i < |fields| ==> fields[i] != ""
  }

  /** The avatar address for `Math.floor(Math.random() * 70)`, taken as a parameter below 70. */
  function AvatarUrl(avatar: nat): (url: string)
    requires avatar < 70
    ensures |url| > |AvatarBase| && url[..|AvatarBase|] == AvatarBase
    ensures AllDigits(url[|AvatarBase|..]) && ParseDecimal(url[|AvatarBase|..]) == avatar
  {
    ParseDecimalOfDecimal(avatar);
    assert (AvatarBase + Decimal(avatar))[|AvatarBase|..] == Decimal(avatar);
    AvatarBase + Decimal(avatar)
  }
}

/**
 * The dialling-number rule that both the welcome send and the reminder
 * sweep apply to a patient's stored phone before handing it to the
 * messaging channel.
 */
module Phone {
  import opened Strings

  /** India's country-code prefix, put in front of bare ten-character numbers. */
  const CountryPrefix: string := "+91"

  /** The number as dialled: strip it; a number of exactly ten characters
      gets "+91"; otherwise one that does not start with '+' gets "+".
      The length test comes first, so a ten-character number that already
      starts with '+' is prefixed too. The number itself is always kept as
      the tail of the result, behind a prefix of at most three characters. */
  function Normalize(raw: string): (r: string)
    ensures |r| > 0 && r[0] == '+'
    ensures |Strip(raw)| <= |r| <= |Strip(raw)| + 3
    ensures r[|r| - |Strip(raw)|..] == Strip(raw)
  {
    var p := Strip(raw);
    if |p| == 10 then CountryPrefix + p
    else if !(|p| > 0 && p[0] == '+') then "+" + p
    else p
  }

  /** A stripped ten-character number is dialled with the country code,
      whatever its first character. */
  lemma TenCharacterNumber(raw: string)
    requires |Strip(raw)| == 10
    ensures Normalize(raw) == "+91" + Strip(raw)
  {
  }

  /** A number of any other length that already starts with '+' is dialled
      as stored (apart from the white space stripped off). */
  lemma PrefixedNumberKept(raw: string)
    requires |Strip(raw)| != 10 && |Strip(raw)| > 0 && Strip(raw)[0] == '+'
    ensures Normalize(raw) == Strip(raw)
  {
  }

  /** Any other number just gets a '+' in front. */
  lemma BareNumberGetsPlus(raw: string)
    requires |Strip(raw)| != 10 && !(|Strip(raw)| > 0 && Strip(raw)[0] == '+')
    ensures Normalize(raw) == "+" + Strip(raw)
  {
  }

  /** A ten-character number that already starts with '+' still gets
      the country code: "already prefixed" does not protect it. */
  lemma PrefixedTenCharacterNumber(raw: string)
    requires |raw| == 10 && raw[0] == '+' && !IsSpace(raw[9])
    ensures Normalize(raw) == "+91" + raw
  {
    StripUntrimmed(raw);
    TenCharacterNumber(raw);
  }

  /** The rule is not idempotent: a nine-character number without '+'
      becomes a ten-character one starting with '+', which a second pass
      prefixes with the country code. */
  lemma NotIdempotent(raw: string)
    requires |Strip(raw)| == 9 && Strip(raw)[0] != '+'
    ensures Normalize(raw) == "+" + Strip(raw)
    ensures Normalize(Normalize(raw)) == "+91" + Normalize(raw) != Normalize(raw)
  {
    BareNumberGetsPlus(raw);
    var once := Normalize(raw);
    assert once[9] == Strip(raw)[8];
    PrefixedTenCharacterNumber(once);
  }
}

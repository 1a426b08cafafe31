/** `phoneNumberFormatter` (Unknown.js:245-252): turns whatever the caller
    sent as a destination into the bare digits of a phone number, and the
    contact identifier the chat network expects. */
module Phone {
  import opened Text

  /** The suffix of a chat-network user identifier ("wid"). */
  const WidSuffix: string := "@c.us"

  /** The decimal digits of `s`, in order: every non-digit deleted. */
  function Digits(s: string): string {
    Filter(s, IsDigit)
  }

  /** The formatter as written: the empty (falsy) string gives `''`; a string
      containing the suffix has its first occurrence removed before the
      non-digits are dropped; any other string only loses its non-digits. */
  function FormatPhone(number: string): (r: string)
    ensures forall i :: 0 <= i < |r| ==> IsDigit(r[i])
    ensures r == Digits(number)
  {
    if number == [] then []
    else if Contains(number, WidSuffix) then
      var stripped := ReplaceFirst(number, WidSuffix, "");
      SuffixHasNoDigits();
      var i := IndexOf(number, WidSuffix).value;
      FilterAppend(number[..i], WidSuffix + number[i + |WidSuffix|..], IsDigit);
      FilterAppend(WidSuffix, number[i + |WidSuffix|..], IsDigit);
      FilterAppend(number[..i], number[i + |WidSuffix|..], IsDigit);
      assert number[..i] + (WidSuffix + number[i + |WidSuffix|..]) == number;
      assert stripped == number[..i] + number[i + |WidSuffix|..];
      Digits(stripped)
    else Digits(number)
  }

  /** The contact identifier built from formatted digits (Unknown.js:280).
      It names the same number: formatting it gives back the digits. */
  function ContactId(digits: string): (id: string)
    ensures |id| == |digits| + |WidSuffix|
    ensures FormatPhone(id) == Digits(digits)
  {
    FilterAppend(digits, WidSuffix, IsDigit);
    SuffixHasNoDigits();
    digits + WidSuffix
  }

  lemma SuffixHasNoDigits()
    ensures Digits(WidSuffix) == []
  {
    FilterEmptyIff(WidSuffix, IsDigit);
  }

  /** The formatted number is empty exactly when the input holds no digit,
      so the falsy branch and the digit filter agree on `''`. */
  lemma FormatPhoneEmptyIff(number: string)
    ensures FormatPhone(number) == [] <==> forall i :: 0 <= i < |number| ==> !IsDigit(number[i])
  {
    FilterEmptyIff(number, IsDigit);
  }

  /** The formatted number is a subsequence of the input. */
  lemma FormatPhoneIsSubsequence(number: string)
    ensures IsSubsequence(FormatPhone(number), number)
  {
    FilterIsSubsequence(number, IsDigit);
  }

  /** Formatting an already formatted number changes nothing. */
  lemma FormatPhoneIdempotent(number: string)
    ensures FormatPhone(FormatPhone(number)) == FormatPhone(number)
  {
    FilterIdempotent(number, IsDigit);
  }

  /** A contact identifier made of digits and the suffix formats to its
      digits: the suffix is stripped and nothing else is lost. */
  lemma FormatWidNumber(digits: string)
    requires forall i :: 0 <= i < |digits| ==> IsDigit(digits[i])
    ensures FormatPhone(digits + WidSuffix) == digits
  {
    FilterAppend(digits, WidSuffix, IsDigit);
    SuffixHasNoDigits();
    FilterUnchangedIff(digits, IsDigit);
  }

  /** Formatting the contact identifier built from a formatted number gives
      back the same digits: the identifier names the same number. */
  lemma ContactIdRoundTrip(number: string)
    ensures FormatPhone(ContactId(FormatPhone(number))) == FormatPhone(number)
  {
    var d := FormatPhone(number);
    FilterAppend(d, WidSuffix, IsDigit);
    SuffixHasNoDigits();
    FilterIdempotent(number, IsDigit);
  }
}

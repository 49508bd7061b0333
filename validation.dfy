/** Form-field checks of includes/functions.php. */
module Validation {
  import opened Common

  predicate IsDigit(c: char) {
    '0' <= c <= '9'
  }

  /** A run of 10 to 15 decimal digits: the body of `/^[0-9]{10,15}$/`. */
  predicate DigitRun(s: string) {
    10 <= |s| <= 15 && forall i | 0 <= i < |s| :: IsDigit(s[i])
  }

  /** `validatePhone`: `preg_match('/^[0-9]{10,15}$/', $phone)`. Without the
      `D` modifier PCRE lets `$` match just before one final newline, so a
      digit run followed by "\n" also matches. */
  predicate ValidatePhone(phone: string)
    ensures ValidatePhone(phone) ==> 10 <= |phone| <= 16 && !Empty(phone)
  {
    DigitRun(phone)
    || (|phone| > 0 && phone[|phone| - 1] == '\n' && DigitRun(phone[..|phone| - 1]))
  }

  /** Every caller passes the phone through `sanitizeInput`, whose `trim`
      strips trailing newlines; on such input the check is exactly "10 to 15
      digits". A valid phone is never PHP-empty, so "required" and "valid"
      never both fail. */
  lemma ValidatePhoneOnTrimmed(phone: string)
    requires phone == [] || phone[|phone| - 1] != '\n'
    ensures ValidatePhone(phone) <==> 10 <= |phone| <= 15 && forall i | 0 <= i < |phone| :: '0' <= phone[i] <= '9'
    ensures ValidatePhone(phone) ==> !Empty(phone)
  {
  }

  /** The trailing-newline acceptance, on a concrete phone number. */
  lemma ValidatePhoneAcceptsFinalNewline()
    ensures ValidatePhone("0712345678\n")
    ensures !ValidatePhone("071234567")
    ensures !ValidatePhone("07123456789x")
  {
    assert DigitRun("0712345678\n"[..10]) by {
      assert "0712345678\n"[..10] == "0712345678";
    }
    assert !IsDigit("07123456789x"[11]);
  }

  /** `validateRequired`: false as soon as one field is PHP-empty. */
  method ValidateRequired(fields: seq<string>) returns (ok: bool)
    ensures ok <==> forall i | 0 <= i < |fields| :: !Empty(fields[i])
    ensures !ok ==> exists i | 0 <= i < |fields| :: fields[i] == "" || fields[i] == "0"
  {
    for i := 0 to |fields|
      invariant forall j | 0 <= j < i :: !Empty(fields[j])
    {
      if Empty(fields[i]) {
        return false;
      }
    }
    return true;
  }
}

/** The two format validators, written out as character predicates that
    follow the structure of their regular expressions. The back end and the
    sign-in form use the same two expressions. */
module Validators {
  import opened Text

  /** `[0-9]{n}`: `s` is exactly `n` decimal digits. */
  predicate Digits(s: string, n: nat) {
    if n == 0 then s == [] else |s| > 0 && IsDigit(s[0]) && Digits(s[1..], n - 1)
  }

  /** The repetition `[0-9]{n}` matches exactly the digit strings of length `n`. */
  lemma {:induction false} DigitsMeans(s: string, n: nat)
    ensures Digits(s, n) <==> |s| == n && AllDigits(s)
  {
    if n > 0 && |s| > 0 {
      DigitsMeans(s[1..], n - 1);
      if AllDigits(s[1..]) && IsDigit(s[0]) {
        assert forall k :: 1 <= k < |s| ==> s[k] == s[1..][k - 1];
      }
    }
  }

  /** The class `[vVxX]` that ends an old-format NIC. */
  predicate IsNicLetter(c: char) {
    c == 'v' || c == 'V' || c == 'x' || c == 'X'
  }

  /** `/^([0-9]{9}[vVxX]|[0-9]{12})$/.test(nic)`: nine digits and a letter,
      or twelve digits, and nothing else. */
  function IsValidNic(nic: string): (ok: bool)
    ensures ok <==> || (|nic| == 10 && AllDigits(nic[..9]) && IsNicLetter(nic[9]))
                    || (|nic| == 12 && AllDigits(nic))
  {
    DigitsMeans(nic, 12);
    if |nic| > 0 then DigitsMeans(nic[..|nic| - 1], 9); ValidNicBranches(nic)
    else Digits(nic, 12)
  }

  /** The two alternatives of the NIC expression, with the concatenation
      `[0-9]{9}[vVxX]` split before the last character. */
  function ValidNicBranches(nic: string): bool
    requires |nic| > 0
  {
    (Digits(nic[..|nic| - 1], 9) && IsNicLetter(nic[|nic| - 1])) || Digits(nic, 12)
  }

  /** `/^07[0-9]{8}$/.test(mobile)`: the prefix `07` and eight digits. */
  function IsValidMobile(mobile: string): (ok: bool)
    ensures ok <==> |mobile| == 10 && mobile[0] == '0' && mobile[1] == '7' && AllDigits(mobile[2..])
  {
    if |mobile| >= 2 then
      DigitsMeans(mobile[2..], 8);
      mobile[..2] == "07" && Digits(mobile[2..], 8)
    else false
  }

  /** A valid NIC or mobile number is all digits and NIC letters, so it has
      no surrounding whitespace and trimming leaves it as it is. */
  lemma ValidNicIsTrimmed(nic: string)
    requires IsValidNic(nic)
    ensures Trim(nic) == nic
  {
    assert !IsWhitespace(nic[0]) && !IsWhitespace(nic[|nic| - 1]);
    TrimKeeps(nic);
  }

  lemma ValidMobileIsTrimmed(mobile: string)
    requires IsValidMobile(mobile)
    ensures Trim(mobile) == mobile
  {
    assert IsDigit(mobile[2..][7]);
    TrimKeeps(mobile);
  }

  /** The sample identities: an old-format NIC and a mobile number pass, a
      five-digit NIC and a nine-digit number without the prefix fail. */
  lemma NicExamples()
    ensures IsValidNic("123456789V")
    ensures !IsValidNic("12345") && !IsValidNic("12345678V") && !IsValidNic("123456789A")
  {
    var s := "123456789V";
    assert forall k :: 0 <= k < 9 ==> s[..9][k] == s[k];
  }

  lemma MobileExamples()
    ensures IsValidMobile("0712345678")
    ensures !IsValidMobile("123456789") && !IsValidMobile("0812345678") && !IsValidMobile("071234567X")
  {
    var s := "0712345678";
    assert forall k :: 0 <= k < 8 ==> s[2..][k] == s[k + 2];
    assert !IsDigit("071234567X"[2..][7]);
  }
}

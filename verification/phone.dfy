/**
 * Phone numbers of a client. A phone is either the placeholder "-", a local
 * number of 3 to 13 digits, or '+', an international code of 1 to 3 digits,
 * one space, and a local number.
 */
module Phones {
  import opened Results

  const MinNumberDigits: nat := 3
  const MaxNumberDigits: nat := 13
  const MaxCodeDigits: nat := 3
  /** Stands for a client whose phone is not known. */
  const Placeholder: string := "-"

  predicate IsDigit(c: char) {
    '0' <= c <= '9'
  }

  predicate IsLetter(c: char) {
    'a' <= c <= 'z' || 'A' <= c <= 'Z'
  }

  predicate AllDigits(s: string) {
    forall i :: 0 <= i < |s| ==> IsDigit(s[i])
  }

  /** A local number: 3 to 13 digits and nothing else. */
  predicate IsLocalNumber(s: string) {
    MinNumberDigits <= |s| <= MaxNumberDigits && AllDigits(s)
  }

  /** s is '+', a 1 to 3 digit code, a space at position k, then a local number. */
  predicate IsInternationalAt(s: string, k: int) {
    && 2 <= k <= MaxCodeDigits + 1
    && k < |s|
    && s[0] == '+'
    && s[k] == ' '
    && AllDigits(s[1..k])
    && IsLocalNumber(s[k + 1..])
  }

  predicate IsInternational(s: string) {
    exists k | 2 <= k <= MaxCodeDigits + 1 :: IsInternationalAt(s, k)
  }

  /** The accepted language of the phone validator. */
  predicate IsValidPhone(s: string) {
    s == Placeholder || IsLocalNumber(s) || IsInternational(s)
  }

  /** A phone value object; it holds the raw string it was built from. */
  datatype Phone = Phone(value: string)

  datatype PhoneError = InvalidPhone

  /** The Phone constructor: it refuses any string the validator rejects. */
  function MakePhone(s: string): (r: Result<Phone, PhoneError>)
    ensures r.Success? <==> IsValidPhone(s)
    ensures r.Success? ==> r.value.value == s
    ensures r.Failure? ==> r.error == InvalidPhone
  {
    if IsValidPhone(s) then Success(Phone(s)) else Failure(InvalidPhone)
  }

  /** toString: the raw value as given. */
  function PhoneToString(p: Phone): (r: string)
    ensures IsValidPhone(p.value) ==> MakePhone(r) == Success(p)
  {
    p.value
  }

  /**
   * After '+' and a maximal digit run s[1..i], the only place the separating
   * space can be is i: the international form is decided at that one position.
   */
  lemma SeparatorIsAfterCodeRun(s: string, i: nat)
    requires |s| > 0 && s[0] == '+'
    requires 1 <= i <= |s| && AllDigits(s[1..i])
    requires i == |s| || !IsDigit(s[i])
    ensures IsInternational(s) <==> IsInternationalAt(s, i)
  {
    forall j | 1 <= j < i ensures IsDigit(s[j]) {
      assert s[1..i][j - 1] == s[j];
    }
  }

  /** The end of the run of digits that starts at `from`. */
  method ScanDigits(s: string, from: nat) returns (j: nat)
    requires from <= |s|
    ensures from <= j <= |s|
    ensures AllDigits(s[from..j])
    ensures j == |s| || !IsDigit(s[j])
  {
    j := from;
    while j < |s| && IsDigit(s[j])
      invariant from <= j <= |s|
      invariant AllDigits(s[from..j])
    {
      assert s[from..j + 1] == s[from..j] + [s[j]];
      j := j + 1;
    }
  }

  /** A maximal digit run from `start` is a local number exactly when it reaches the end with the right length. */
  lemma LocalNumberIsWholeRun(s: string, start: nat, j: nat)
    requires start <= j <= |s| && AllDigits(s[start..j])
    requires j == |s| || !IsDigit(s[j])
    ensures IsLocalNumber(s[start..]) <==> j == |s| && MinNumberDigits <= |s| - start <= MaxNumberDigits
  {
    if j < |s| {
      assert s[start..][j - start] == s[j];
    } else {
      assert s[start..j] == s[start..];
    }
  }

  /** Scans a candidate phone number char by char, as the validator's pattern does. */
  method CheckPhone(s: string) returns (ok: bool)
    ensures ok <==> IsValidPhone(s)
  {
    if s == Placeholder {
      return true;
    }
    if |s| > 0 && s[0] == '+' {
      var i := ScanDigits(s, 1);
      SeparatorIsAfterCodeRun(s, i);
      assert !IsLocalNumber(s) by {
        assert !IsDigit(s[0]);
      }
      if i == |s| || s[i] != ' ' || i < 2 || i > MaxCodeDigits + 1 {
        assert !IsInternationalAt(s, i);
        return false;
      }
      var j := ScanDigits(s, i + 1);
      LocalNumberIsWholeRun(s, i + 1, j);
      assert IsInternationalAt(s, i) <==> IsLocalNumber(s[i + 1..]);
      ok := j == |s| && MinNumberDigits <= |s| - (i + 1) <= MaxNumberDigits;
    } else {
      var j := ScanDigits(s, 0);
      LocalNumberIsWholeRun(s, 0, j);
      assert s[0..] == s;
      assert !IsInternational(s);
      ok := j == |s| && MinNumberDigits <= |s| <= MaxNumberDigits;
    }
  }

  // ---- properties promised by the validator's tests -----------------------

  /** A valid phone re-parses to itself from its printed form. */
  lemma PhoneRoundTrip(s: string)
    requires IsValidPhone(s)
    ensures MakePhone(s).Success?
    ensures PhoneToString(MakePhone(s).value) == s
    ensures MakePhone(PhoneToString(MakePhone(s).value)) == MakePhone(s)
  {
  }

  /** Two phones built from valid strings are equal exactly when the strings are. */
  lemma PhoneEqualityIsByValue(a: string, b: string)
    requires IsValidPhone(a) && IsValidPhone(b)
    ensures MakePhone(a) == MakePhone(b) <==> a == b
  {
  }

  /** The chars a phone can hold. */
  predicate IsPhoneChar(c: char) {
    IsDigit(c) || c == '+' || c == ' ' || c == '-'
  }

  /** A valid phone holds only digits, '+', the separating space and the placeholder '-'. */
  lemma ValidPhoneChars(s: string)
    ensures IsValidPhone(s) ==> forall j :: 0 <= j < |s| ==> IsPhoneChar(s[j])
  {
    if IsValidPhone(s) && s != Placeholder && !IsLocalNumber(s) {
      var k :| 2 <= k <= MaxCodeDigits + 1 && IsInternationalAt(s, k);
      assert k < |s| && s[0] == '+' && s[k] == ' ';
      assert AllDigits(s[1..k]) && AllDigits(s[k + 1..]);
      forall j | 0 <= j < |s| ensures IsPhoneChar(s[j]) {
        if 1 <= j < k {
          assert s[1..k][j - 1] == s[j];
        } else if j > k {
          assert s[k + 1..][j - k - 1] == s[j];
        }
      }
    }
  }

  /** A letter anywhere makes a phone invalid. */
  lemma LetterRejected(s: string, i: nat)
    requires i < |s| && IsLetter(s[i])
    ensures !IsValidPhone(s)
  {
    ValidPhoneChars(s);
  }

  /** Without a leading '+', a space anywhere makes a phone invalid. */
  lemma SpaceNeedsInternationalCode(s: string, i: nat)
    requires i < |s| && s[i] == ' '
    requires s[0] != '+'
    ensures !IsValidPhone(s)
  {
  }

  /** An international code of four or more digits makes a phone invalid. */
  lemma LongCodeRejected(s: string)
    requires |s| >= 5 && s[0] == '+'
    requires AllDigits(s[1..5])
    ensures !IsValidPhone(s)
  {
    forall j | 1 <= j < 5 ensures IsDigit(s[j]) {
      assert s[1..5][j - 1] == s[j];
    }
  }

  /** Every valid phone is short: at most 1 + 3 + 1 + 13 chars. */
  lemma ValidPhoneLength(s: string)
    requires IsValidPhone(s)
    ensures 1 <= |s| <= 1 + MaxCodeDigits + 1 + MaxNumberDigits
  {
  }

  // ---- the boundary vectors of the validator's tests ----------------------

  /** Blank strings and strings with too few or too many digits are rejected. */
  lemma RejectedLengthVectors()
    ensures !IsValidPhone("")
    ensures !IsValidPhone(" ")
    ensures !IsValidPhone("91")
    ensures !IsValidPhone("42938420331212")
  {
  }

  /** Letters and misplaced spaces are rejected. */
  lemma RejectedCharVectors()
    ensures !IsValidPhone("phone")
    ensures !IsValidPhone("9011p041")
    ensures !IsValidPhone("9312 1534")
    ensures !IsValidPhone("+1 a123456789")
    ensures !IsValidPhone("+12 a123456789")
  {
    LetterRejected("phone", 0);
    LetterRejected("9011p041", 4);
    SpaceNeedsInternationalCode("9312 1534", 4);
    LetterRejected("+1 a123456789", 3);
    LetterRejected("+12 a123456789", 4);
  }

  /** International codes that are too long, or numbers after them that are, are rejected. */
  lemma RejectedCodeVectors()
    ensures !IsValidPhone("+1234 1234567891234")
    ensures !IsValidPhone("+123456789")
    ensures !IsValidPhone("+12 123456789012345")
    ensures !IsValidPhone("+1234 12345678901234")
  {
    LongCodeRejected("+1234 1234567891234");
    LongCodeRejected("+123456789");
    LongCodeRejected("+1234 12345678901234");
    SeparatorIsAfterCodeRun("+12 123456789012345", 3);
  }

  /** Local numbers at the boundary lengths and the placeholder are accepted. */
  lemma AcceptedLocalVectors()
    ensures IsValidPhone("911")
    ensures IsValidPhone("93121534")
    ensures IsValidPhone("429384203312")
    ensures IsValidPhone("12345678")
    ensures IsValidPhone("-")
  {
  }

  /** International numbers with codes of one, two and three digits are accepted. */
  lemma AcceptedOneDigitCode()
    ensures IsValidPhone("+1 1234567890")
  {
    InternationalAt("+1 1234567890", 2);
  }

  lemma AcceptedTwoDigitCode()
    ensures IsValidPhone("+12 1234567890")
  {
    InternationalAt("+12 1234567890", 3);
  }

  /** A Singapore number with its country code builds a Phone that prints back as typed. */
  lemma AcceptedSingaporeNumber()
    ensures MakePhone("+65 12345678").Success?
    ensures PhoneToString(MakePhone("+65 12345678").value) == "+65 12345678"
  {
    InternationalAt("+65 12345678", 3);
  }

  lemma AcceptedThreeDigitCode()
    ensures IsValidPhone("+123 1234567890")
  {
    InternationalAt("+123 1234567890", 4);
  }

  lemma InternationalAt(s: string, k: nat)
    requires IsInternationalAt(s, k)
    ensures IsValidPhone(s)
  {
  }

  /** The constructor refuses the empty string and keeps the raw value for printing. */
  lemma ConstructorVectors()
    ensures MakePhone("") == Failure(InvalidPhone)
    ensures MakePhone("999") == Success(Phone("999"))
    ensures MakePhone("-") == Success(Phone("-"))
    ensures MakePhone("999") != MakePhone("995")
    ensures MakePhone("-") != MakePhone("999")
    ensures MakePhone("+1 1234567890").Success?
    ensures PhoneToString(MakePhone("+1 1234567890").value) == "+1 1234567890"
    ensures PhoneToString(MakePhone("-").value) == "-"
  {
    AcceptedLocalVectors();
    assert IsValidPhone("999") && IsValidPhone("995");
    AcceptedOneDigitCode();
  }
}

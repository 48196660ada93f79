/**
 * The value objects of the address-book package: a contact name and a phone number, each
 * checked on construction, the phone also reduced to its digits. A refused value is the
 * package's exception, carried as a ModelError.
 */
module Fields {
  import opened Wrappers
  import opened Text
  import opened Validators
  import MessageTexts

  /** The exceptions of the address-book package that carry a message. */
  datatype ModelError =
    | InvalidNameError(message: string)
    | InvalidPhoneError(message: string)
    | PhoneNotFoundError(message: string)

  // ---------------------------------------------------------------- Name

  /** A contact name, kept exactly as it was given. */
  datatype Name = Name(value: string)

  /** Name(value): refused with InvalidNameError unless is_valid_name accepts it; stored as given. */
  function NewName(value: string): (r: Result<Name, ModelError>)
  {
    if ValidName(value) then Success(Name(value))
    else Failure(InvalidNameError(MessageTexts.InvalidNameFormat))
  }

  /** A name is built exactly when the name check accepts it; it keeps the input untrimmed, and a
      refusal is InvalidNameError with the name-format text. What is accepted is, once stripped,
      at least two letters or separators long, with letters at both ends and no two separators
      side by side. */
  lemma NewNameSpec(value: string)
    ensures NewName(value).Success? <==> ValidName(value)
    ensures NewName(value).Success? ==> NewName(value).value.value == value
    ensures NewName(value).Failure? ==> NewName(value).error == InvalidNameError(MessageTexts.InvalidNameFormat)
    ensures NewName(value).Success? ==>
      && |Strip(value)| >= 2
      && (forall i :: 0 <= i < |Strip(value)| ==> IsAlpha(Strip(value)[i]) || IsSeparator(Strip(value)[i]))
      && IsAlpha(Strip(value)[0]) && IsAlpha(Strip(value)[|Strip(value)| - 1])
      && (forall i: nat :: i + 1 < |Strip(value)| ==> !(IsSeparator(Strip(value)[i]) && IsSeparator(Strip(value)[i + 1])))
  {
    if ValidName(value) {
      ValidNameSeparatorsBetweenLetters(value);
      var t := Strip(value);
      forall i: nat | i + 1 < |t| ensures !(IsSeparator(t[i]) && IsSeparator(t[i + 1])) {
        assert !SeparatorPair(t, i);
      }
    }
  }

  /** Surrounding whitespace does not decide acceptance, but it is kept in the stored name. */
  lemma NameKeepsSurroundingSpace()
    ensures NewName(" John ") == Success(Name(" John "))
    ensures NewName("J").Failure?
  {
    assert ValidName(" John ") by {
      NameDocExamples();
      NameIgnoresSurroundingSpace(" ", "John", " ");
      assert " " + "John" + " " == " John ";
    }
    NameShapeExamples();
  }

  // ---------------------------------------------------------------- Phone

  /** re.sub(r"\D", "", s): the digits of `s` in their order. */
  function DigitsOnly(s: string): (r: string)
    ensures |r| <= |s|
    ensures forall i :: 0 <= i < |r| ==> IsDigit(r[i])
  {
    if |s| == 0 then ""
    else (if IsDigit(s[0]) then [s[0]] else "") + DigitsOnly(s[1..])
  }

  /** Removing non-digits works piece by piece. */
  lemma {:induction false} DigitsOnlyConcat(a: string, b: string)
    ensures DigitsOnly(a + b) == DigitsOnly(a) + DigitsOnly(b)
  {
    if |a| == 0 {
      assert a + b == b;
    } else {
      assert (a + b)[0] == a[0];
      assert (a + b)[1..] == a[1..] + b;
      DigitsOnlyConcat(a[1..], b);
    }
  }

  /** A string of digits is left as it is. */
  lemma {:induction false} DigitsOnlyOfDigits(s: string)
    requires forall i :: 0 <= i < |s| ==> IsDigit(s[i])
    ensures DigitsOnly(s) == s
  {
    if |s| > 0 {
      DigitsOnlyOfDigits(s[1..]);
      assert s == [s[0]] + s[1..];
    }
  }

  /** A string without digits, such as whitespace or a '+', disappears. */
  lemma {:induction false} DigitsOnlyOfNonDigits(s: string)
    requires forall i :: 0 <= i < |s| ==> !IsDigit(s[i])
    ensures DigitsOnly(s) == ""
  {
    if |s| > 0 {
      DigitsOnlyOfNonDigits(s[1..]);
    }
  }

  /** Whitespace around a string contributes no digits. */
  lemma DigitsOnlyOfLayout(front: string, t: string, back: string)
    requires AllSpace(front) && AllSpace(back)
    ensures DigitsOnly(front + t + back) == DigitsOnly(t)
  {
    DigitsOnlyConcat(front + t, back);
    DigitsOnlyConcat(front, t);
    forall i | 0 <= i < |front| ensures !IsDigit(front[i]) {
      assert IsSpace(front[i]);
    }
    forall i | 0 <= i < |back| ensures !IsDigit(back[i]) {
      assert IsSpace(back[i]);
    }
    DigitsOnlyOfNonDigits(front);
    DigitsOnlyOfNonDigits(back);
  }

  /** Digits, bare or behind one '+', come out as the digits. */
  lemma DigitsOnlyOfSigned(digits: string)
    requires forall i :: 0 <= i < |digits| ==> IsDigit(digits[i])
    ensures DigitsOnly(digits) == digits
    ensures DigitsOnly("+" + digits) == digits
  {
    DigitsOnlyOfDigits(digits);
    DigitsOnlyConcat("+", digits);
    assert DigitsOnly("+") == "";
  }

  /** On an accepted phone, removing every non-digit removes exactly the surrounding whitespace and
      the leading '+': the digits kept are those the phone check counted. */
  lemma NormalizeAccepted(value: string)
    requires IsValidPhone(value)
    ensures DigitsOnly(value) == PhoneDigits(value)
  {
    var lead := StripParts(value);
    var t := Strip(value);
    DigitsOnlyOfLayout(value[..lead], t, value[lead + |t|..]);
    ValidPhoneShape(value);
    DigitsOnlyOfSigned(PhoneDigits(value));
  }

  /** A phone number, stored as its digits only. */
  datatype Phone = Phone(value: string)

  /** Phone(value): refused with InvalidPhoneError unless is_valid_phone accepts it; otherwise
      every non-digit is removed. */
  function NewPhone(value: string): (r: Result<Phone, ModelError>)
  {
    if IsValidPhone(value) then Success(Phone(DigitsOnly(value)))
    else Failure(InvalidPhoneError(MessageTexts.InvalidPhoneFormat))
  }

  /** The form every stored phone has: 10 to 15 digits and nothing else. */
  predicate NormalPhone(p: Phone)
  {
    IsDigits(p.value) && 10 <= |p.value| <= 15
  }

  /** A phone is built exactly when the phone check accepts the input, and then holds the input
      with surrounding whitespace and the leading '+' removed: 10 to 15 digits. A refusal is
      InvalidPhoneError with the phone-format text. */
  lemma NewPhoneSpec(value: string)
    ensures NewPhone(value).Success? <==> IsValidPhone(value)
    ensures NewPhone(value).Success? ==> NewPhone(value).value.value == PhoneDigits(value)
    ensures NewPhone(value).Success? ==> NormalPhone(NewPhone(value).value)
    ensures NewPhone(value).Failure? ==> NewPhone(value).error == InvalidPhoneError(MessageTexts.InvalidPhoneFormat)
  {
    if IsValidPhone(value) {
      NormalizeAccepted(value);
    }
  }

  /** A phone in normalised form is what Phone builds from its own value. */
  lemma NewPhoneOfNormal(p: Phone)
    requires NormalPhone(p)
    ensures NewPhone(p.value) == Success(p)
  {
    DigitCountBounds(p.value);
    DigitsOnlyOfDigits(p.value);
  }

  /** A phone in normalised form is also what Phone builds from its value behind a '+'. */
  lemma NewPhoneOfSigned(p: Phone)
    requires NormalPhone(p)
    ensures NewPhone("+" + p.value) == Success(p)
  {
    DigitCountBounds(p.value);
    DigitsOnlyOfSigned(p.value);
  }

  /** A stored phone's value is accepted again and stored unchanged: normalising is idempotent. */
  lemma NewPhoneIdempotent(value: string)
    requires NewPhone(value).Success?
    ensures NewPhone(NewPhone(value).value.value) == NewPhone(value)
  {
    NewPhoneSpec(value);
    NewPhoneOfNormal(NewPhone(value).value);
  }

  /** The documented example of an international number: it is stored without its '+'. */
  lemma InternationalPhoneExample()
    ensures NewPhone("+" + "380501234567") == Success(Phone("380501234567"))
  {
    NewPhoneOfSigned(Phone("380501234567"));
  }

  /** The documented example of a local number: it is stored unchanged. */
  lemma LocalPhoneExample()
    ensures NewPhone("0501234567") == Success(Phone("0501234567"))
  {
    NewPhoneOfNormal(Phone("0501234567"));
  }
}

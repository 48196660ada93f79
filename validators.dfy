/** The two argument predicates of the bot: phone syntax and name syntax. */
module Validators {
  import opened Text

  // ---------------------------------------------------------------- phone

  /** What is left of a phone argument once surrounding whitespace and one leading '+' are removed. */
  function PhoneDigits(phone: string): (r: string)
  {
    var t := Strip(phone);
    if |t| > 0 && t[0] == '+' then t[1..] else t
  }

  /** is_valid_phone: after stripping whitespace and one leading '+', 10 to 15 digits and nothing else. */
  predicate IsValidPhone(phone: string)
  {
    var n := PhoneDigits(phone);
    IsDigits(n) && 10 <= |n| <= 15
  }

  /** Every layout "whitespace, optional '+', digits, whitespace" is accepted exactly when it has
      10 to 15 digits, and those digits are what is left after stripping. */
  lemma PhoneOfLayout(lead: string, plus: string, digits: string, trail: string)
    requires AllSpace(lead) && AllSpace(trail)
    requires plus == "" || plus == "+"
    requires IsDigits(digits)
    ensures PhoneDigits(lead + plus + digits + trail) == digits
    ensures IsValidPhone(lead + plus + digits + trail) <==> 10 <= |digits| <= 15
  {
    var core := plus + digits;
    assert core[|core| - 1] == digits[|digits| - 1];
    assert core[0] == if plus == "" then digits[0] else '+';
    assert lead + plus + digits + trail == lead + core + trail;
    StripOfLayout(lead, core, trail);
    if plus == "+" {
      assert core[1..] == digits;
    } else {
      assert core == digits;
    }
  }

  /** Conversely, an accepted phone is, once stripped, digits only, except for a '+' that can only
      be its first character: no second '+', inner space or hyphen gets through. */
  lemma ValidPhoneShape(phone: string)
    requires IsValidPhone(phone)
    ensures Strip(phone) == PhoneDigits(phone) || Strip(phone) == "+" + PhoneDigits(phone)
    ensures forall i :: 0 <= i < |Strip(phone)| ==> IsDigit(Strip(phone)[i]) || (i == 0 && Strip(phone)[i] == '+')
  {
    var t := Strip(phone);
    if |t| > 0 && t[0] == '+' {
      assert t == "+" + t[1..];
      forall i | 0 < i < |t| ensures IsDigit(t[i]) {
        assert t[i] == t[1..][i - 1];
      }
    }
  }

  /** A string of digits alone, or behind a single '+', is accepted exactly for 10 to 15 digits. */
  lemma DigitCountBounds(digits: string)
    requires IsDigits(digits)
    ensures IsValidPhone(digits) <==> 10 <= |digits| <= 15
    ensures IsValidPhone("+" + digits) <==> 10 <= |digits| <= 15
  {
    PhoneOfLayout("", "", digits, "");
    assert "" + "" + digits + "" == digits;
    PhoneOfLayout("", "+", digits, "");
    assert "" + "+" + digits + "" == "+" + digits;
  }

  /** A stripped string with a non-digit anywhere after its first character is refused. */
  lemma RejectsInnerNonDigit(s: string, i: nat)
    requires Trimmed(s)
    requires 0 < i < |s| && !IsDigit(s[i])
    ensures !IsValidPhone(s)
  {
    StripTrimmed(s);
    if s[0] == '+' {
      assert s[1..][i - 1] == s[i];
    }
  }

  /** The digit-count boundaries: 9 and 16 digits are refused, and so is the empty string. */
  lemma PhoneOutOfBoundsExamples()
    ensures !IsValidPhone("123456789")
    ensures !IsValidPhone("1234567890123456")
    ensures !IsValidPhone("")
  {
    assert !IsValidPhone("123456789") by { DigitCountBounds("123456789"); }
    assert !IsValidPhone("1234567890123456") by { DigitCountBounds("1234567890123456"); }
    assert !IsValidPhone("") by { StripEmptyIff(""); }
  }

  /** The digit-count boundaries: 10 and 15 digits are accepted. */
  lemma PhoneInBoundsExamples()
    ensures IsValidPhone("1234567890")
    ensures IsValidPhone("123456789012345")
  {
    assert IsValidPhone("1234567890") by { DigitCountBounds("1234567890"); }
    assert IsValidPhone("123456789012345") by { DigitCountBounds("123456789012345"); }
  }

  /** Documented examples of the phone check: a bare ten-digit number is accepted, letters are not. */
  lemma PhoneDocExamples()
    ensures IsValidPhone("1234567890")
    ensures !IsValidPhone("123abc")
  {
    assert IsValidPhone("1234567890") by { StripTrimmed("1234567890"); }
    RejectsInnerNonDigit("123abc", 3);
  }

  /** Documented example of the phone check: an international number with its '+' is accepted. */
  lemma PhoneInternationalExample()
    ensures IsValidPhone("+380501234567")
  {
    StripTrimmed("+380501234567");
  }

  /** Only one leading '+' is tolerated: a second one, or one further in, is refused. */
  lemma PhonePlusExamples()
    ensures !IsValidPhone("++0501234567")
    ensures !IsValidPhone("050+1234567")
  {
    assert !IsValidPhone("++0501234567") by { RejectsInnerNonDigit("++0501234567", 1); }
    assert !IsValidPhone("050+1234567") by { RejectsInnerNonDigit("050+1234567", 3); }
  }

  /** A number with an inner space is refused. */
  lemma PhoneSpaceExample()
    ensures !IsValidPhone("050 1234567")
  {
    RejectsInnerNonDigit("050 1234567", 3);
  }

  /** The hyphenated and parenthesised forms that the format message shows are refused. */
  lemma PhoneSeparatorExamples()
    ensures !IsValidPhone("050-123-4567")
    ensures !IsValidPhone("(050)123-4567")
  {
    assert !IsValidPhone("050-123-4567") by { RejectsInnerNonDigit("050-123-4567", 3); }
    assert !IsValidPhone("(050)123-4567") by { RejectsInnerNonDigit("(050)123-4567", 4); }
  }

  // ---------------------------------------------------------------- name

  /** The separators a name may contain between letters: space, hyphen, apostrophe. */
  predicate IsSeparator(c: char)
  {
    c == ' ' || c == '-' || c == '\''
  }

  /** The characters at `i` and `i + 1` are both separators. */
  predicate SeparatorPair(t: string, i: nat)
    requires i + 1 < |t|
  {
    IsSeparator(t[i]) && IsSeparator(t[i + 1])
  }

  /** is_valid_name, stated declaratively on the stripped name: at least two characters, only letters
      and separators, no separator at either end, and no two separators side by side. */
  predicate ValidName(name: string)
  {
    var t := Strip(name);
    && |t| >= 2
    && (forall i :: 0 <= i < |t| ==> IsAlpha(t[i]) || IsSeparator(t[i]))
    && !IsSeparator(t[0]) && !IsSeparator(t[|t| - 1])
    && (forall i: nat :: i + 1 < |t| ==> !SeparatorPair(t, i))
  }

  /** is_valid_name as the source computes it: the same checks in the same order, the last one a
      single pass that remembers whether the previous character was a separator. */
  method IsValidName(name: string) returns (ok: bool)
    ensures ok == ValidName(name)
  {
    var trimmed := Strip(name);
    if |trimmed| < 2 {
      return false;
    }
    if !(forall i :: 0 <= i < |trimmed| ==> IsAlpha(trimmed[i]) || IsSeparator(trimmed[i])) {
      return false;
    }
    if IsSeparator(trimmed[0]) || IsSeparator(trimmed[|trimmed| - 1]) {
      return false;
    }
    var prevIsSep := false;
    var i := 0;
    while i < |trimmed|
      invariant 0 <= i <= |trimmed|
      invariant prevIsSep == (i > 0 && IsSeparator(trimmed[i - 1]))
      invariant forall k: nat :: k + 1 < i ==> !SeparatorPair(trimmed, k)
    {
      var isSep := IsSeparator(trimmed[i]);
      if prevIsSep && isSep {
        assert SeparatorPair(trimmed, i - 1);
        return false;
      }
      prevIsSep := isSep;
      i := i + 1;
    }
    return true;
  }

  /** In an accepted name every separator stands between two letters, and both ends are letters. */
  lemma ValidNameSeparatorsBetweenLetters(name: string)
    requires ValidName(name)
    ensures IsAlpha(Strip(name)[0]) && IsAlpha(Strip(name)[|Strip(name)| - 1])
    ensures forall i :: 0 <= i < |Strip(name)| && IsSeparator(Strip(name)[i]) ==>
      0 < i < |Strip(name)| - 1 && IsAlpha(Strip(name)[i - 1]) && IsAlpha(Strip(name)[i + 1])
  {
    var t := Strip(name);
    forall i | 0 <= i < |t| && IsSeparator(t[i])
      ensures 0 < i < |t| - 1 && IsAlpha(t[i - 1]) && IsAlpha(t[i + 1])
    {
      assert i > 0 && i < |t| - 1;
      assert !SeparatorPair(t, i - 1) && !SeparatorPair(t, i);
    }
  }

  /** Documented examples of the name check: a plain name and one with an apostrophe are accepted. */
  lemma NameDocExamples()
    ensures ValidName("John")
    ensures ValidName("O'Brien")
  {
    assert ValidName("John") by { StripTrimmed("John"); }
    StripTrimmed("O'Brien");
  }

  /** Documented example of the name check: a hyphenated name is accepted. */
  lemma NameHyphenExample()
    ensures ValidName("Mary-Jane")
  {
    StripTrimmed("Mary-Jane");
  }

  /** Digits are refused, whether they make up the whole name or stand among letters. */
  lemma NameDigitExamples()
    ensures !ValidName("123")
    ensures !ValidName("Jo3n")
  {
    assert !ValidName("123") by {
      StripTrimmed("123");
      assert !IsAlpha("123"[0]);
    }
    assert !ValidName("Jo3n") by {
      StripTrimmed("Jo3n");
      assert !IsAlpha("Jo3n"[2]) && !IsSeparator("Jo3n"[2]);
    }
  }

  /** Too short, a leading separator and doubled separators are each refused. */
  lemma NameShapeExamples()
    ensures !ValidName("J")
    ensures !ValidName("--John")
    ensures !ValidName("John  Doe")
  {
    assert !ValidName("J") by { StripTrimmed("J"); }
    assert !ValidName("--John") by { StripTrimmed("--John"); }
    assert !ValidName("John  Doe") by {
      StripTrimmed("John  Doe");
      assert SeparatorPair("John  Doe", 4);
    }
  }

  /** The check is made on the stripped name: whitespace around a name neither helps nor hurts. */
  lemma NameIgnoresSurroundingSpace(lead: string, core: string, trail: string)
    requires AllSpace(lead) && AllSpace(trail) && Trimmed(core)
    ensures ValidName(lead + core + trail) <==> ValidName(core)
  {
    StripOfLayout(lead, core, trail);
    StripTrimmed(core);
  }
}

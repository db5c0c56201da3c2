/**
 * Input validators and the Mozambican phone formatter used by the client and visit forms.
 */
module Validators {
  import opened Text
  import opened Calendar

  /** The digits of `s`, in order: `s.replace(/\D/g, '')`. */
  function Digits(s: string): (r: string)
    ensures |r| <= |s|
    ensures AllDigits(r)
  {
    if s == [] then []
    else (if IsDigit(s[0]) then [s[0]] else []) + Digits(s[1..])
  }

  lemma {:induction false} DigitsAppend(a: string, b: string)
    ensures Digits(a + b) == Digits(a) + Digits(b)
  {
    if a == [] {
      assert a + b == b;
    } else {
      assert (a + b)[0] == a[0];
      assert (a + b)[1..] == a[1..] + b;
      DigitsAppend(a[1..], b);
    }
  }

  lemma {:induction false} DigitsOfDigits(s: string)
    requires AllDigits(s)
    ensures Digits(s) == s
  {
    if s != [] {
      DigitsOfDigits(s[1..]);
    }
  }

  const CountryCode: string := "258"

  /** Drops one leading country code, when there is one. */
  function StripCountryCode(d: string): string {
    if |d| >= 3 && d[..3] == CountryCode then d[3..] else d
  }

  /**
   * The national digits the formatter keeps: at most nine, namely the first nine digits
   * left after one leading 258 is dropped.
   */
  function KeptDigits(value: string): (r: string)
    ensures AllDigits(r)
    ensures |r| <= 9
    ensures |r| == if |StripCountryCode(Digits(value))| <= 9 then |StripCountryCode(Digits(value))| else 9
    ensures r == StripCountryCode(Digits(value))[..|r|]
  {
    var national := StripCountryCode(Digits(value));
    if |national| > 9 then national[..9] else national
  }

  /** The digits in groups of 2, 3 and the rest, separated by single spaces. */
  function Groups(n: string): string {
    if |n| <= 2 then n
    else if |n| <= 5 then n[..2] + " " + n[2..]
    else n[..2] + " " + n[2..5] + " " + n[5..]
  }

  /** The text built before `trim()`: nothing for no digits, otherwise '+258 ' and the groups. */
  function Layout(n: string): string {
    if |n| == 0 then "" else "+258 " + Groups(n)
  }

  /** `formatMozPhoneNumber`, re-applied to the phone field on every keystroke. */
  function FormatMozPhoneNumber(value: string): (r: string)
    ensures r == "" <==> KeptDigits(value) == ""
    ensures r == "" <==> StripCountryCode(Digits(value)) == ""
    ensures r != "" ==> |r| > 5 && r[..5] == "+258 " && r[|r| - 1] != ' '
    ensures Digits(r) == if r == "" then "" else CountryCode + KeptDigits(value)
  {
    var kept := KeptDigits(value);
    LayoutIsTrimmed(kept);
    LayoutDigits(kept);
    Trim(Layout(kept))
  }

  lemma LayoutIsTrimmed(n: string)
    requires AllDigits(n)
    ensures Trim(Layout(n)) == Layout(n)
  {
    if n != "" {
      var g := Groups(n);
      assert g[|g| - 1] == n[|n| - 1];
      assert Layout(n)[|Layout(n)| - 1] == g[|g| - 1];
    }
    TrimUnchanged(Layout(n));
  }

  lemma DigitsSpaceJoin(a: string, b: string)
    requires AllDigits(b)
    ensures Digits(a + " " + b) == Digits(a) + b
  {
    DigitsAppend(a + " ", b);
    DigitsAppend(a, " ");
    DigitsOfDigits(b);
  }

  /** Grouping only inserts spaces. */
  lemma GroupsDigits(n: string)
    requires AllDigits(n)
    ensures Digits(Groups(n)) == n
  {
    if |n| <= 2 {
      DigitsOfDigits(n);
    } else if |n| <= 5 {
      DigitsSpaceJoin(n[..2], n[2..]);
      DigitsOfDigits(n[..2]);
      assert n[..2] + n[2..] == n;
    } else {
      var x := n[..2] + " " + n[2..5];
      DigitsSpaceJoin(n[..2], n[2..5]);
      DigitsOfDigits(n[..2]);
      DigitsSpaceJoin(x, n[5..]);
      assert n[..2] + n[2..5] + n[5..] == n;
    }
  }

  /** The digits of the layout are the country code and `n`. */
  lemma LayoutDigits(n: string)
    requires AllDigits(n)
    ensures Digits(Layout(n)) == if n == "" then "" else CountryCode + n
  {
    if n != "" {
      assert Digits("+258 ") == CountryCode;
      DigitsAppend("+258 ", Groups(n));
      GroupsDigits(n);
    }
  }

  /** A non-empty result is '+258 ' followed by the kept digits grouped as 2, 3 and the rest. */
  lemma FormatGroups(value: string)
    ensures FormatMozPhoneNumber(value) == Layout(KeptDigits(value))
    ensures KeptDigits(value) != "" ==> FormatMozPhoneNumber(value) == "+258 " + Groups(KeptDigits(value))
  {
    LayoutIsTrimmed(KeptDigits(value));
  }

  /** Formatting a formatted number changes nothing. */
  lemma FormatIdempotent(value: string)
    ensures FormatMozPhoneNumber(FormatMozPhoneNumber(value)) == FormatMozPhoneNumber(value)
  {
    var r := FormatMozPhoneNumber(value);
    var kept := KeptDigits(value);
    FormatGroups(value);
    FormatGroups(r);
    if r != "" {
      assert Digits(r) == CountryCode + kept;
      assert (CountryCode + kept)[..3] == CountryCode;
      assert StripCountryCode(Digits(r)) == kept;
      assert KeptDigits(r) == kept;
    }
  }

  /** `isValidMozPhoneNumber`: the digits match /^258[28]\d{8}$/. */
  predicate IsValidMozPhoneNumber(phone: string)
    ensures IsValidMozPhoneNumber(phone) ==> |phone| >= 12
  {
    var clean := Digits(phone);
    |clean| == 12 && clean[..3] == CountryCode && (clean[3] == '2' || clean[3] == '8')
  }

  /** A formatted number is valid iff it kept nine digits, the first of them 2 or 8. */
  lemma FormattedValidIff(value: string)
    ensures IsValidMozPhoneNumber(FormatMozPhoneNumber(value))
      <==> |KeptDigits(value)| == 9 && (KeptDigits(value)[0] == '2' || KeptDigits(value)[0] == '8')
  {
    var kept := KeptDigits(value);
    var r := FormatMozPhoneNumber(value);
    assert Digits(r) == if r == "" then "" else CountryCode + kept;
    if r != "" {
      NationalDigitsValidIff(r, kept);
    } else {
      assert |kept| == 0;
      assert !IsValidMozPhoneNumber(r);
    }
  }

  /** For a number whose digits are 258 and then `national`: valid iff `national` is nine digits starting with 2 or 8. */
  lemma NationalDigitsValidIff(phone: string, national: string)
    requires Digits(phone) == CountryCode + national
    ensures IsValidMozPhoneNumber(phone) <==> |national| == 9 && (national[0] == '2' || national[0] == '8')
  {
    var clean := Digits(phone);
    assert clean[..3] == CountryCode;
    assert |national| > 0 ==> clean[3] == national[0];
  }

  /** Any number is valid iff its digits are 258 followed by nine digits of which the first is 2 or 8. */
  lemma ValidIffNationalDigits(phone: string)
    ensures IsValidMozPhoneNumber(phone) <==>
      exists national :: (Digits(phone) == CountryCode + national && AllDigits(national)
                          && |national| == 9 && (national[0] == '2' || national[0] == '8'))
  {
    var clean := Digits(phone);
    if IsValidMozPhoneNumber(phone) {
      var national := clean[3..];
      assert clean == CountryCode + national;
      assert AllDigits(national);
      NationalDigitsValidIff(phone, national);
    } else if exists national :: (Digits(phone) == CountryCode + national && AllDigits(national)
                                  && |national| == 9 && (national[0] == '2' || national[0] == '8')) {
      var national :| Digits(phone) == CountryCode + national && AllDigits(national)
                      && |national| == 9 && (national[0] == '2' || national[0] == '8');
      NationalDigitsValidIff(phone, national);
      assert false;
    }
  }

  /** The characters an email part may hold: anything but whitespace and '@'. */
  predicate IsEmailPart(s: string) {
    forall k :: 0 <= k < |s| ==> !IsJsWhitespace(s[k]) && s[k] != '@'
  }

  /** `isValidEmail` as a scan: one '@' after a non-empty local part, and a dot inside the domain. */
  predicate IsValidEmail(email: string)
    ensures IsValidEmail(email) ==> '@' in email && |email| >= 5
  {
    var at := IndexOf(email, '@');
    0 < at < |email|
    && IsEmailPart(email[..at])
    && IsEmailPart(email[at + 1..])
    && HasInnerDot(email[at + 1..])
  }

  predicate HasInnerDot(domain: string) {
    exists k :: 0 < k < |domain| - 1 && domain[k] == '.'
  }

  /** The regular expression /^[^\s@]+@[^\s@]+\.[^\s@]+$/, stated by the positions of '@' and '.'. */
  ghost predicate MatchesEmailPattern(email: string) {
    exists i, j :: 0 < i && i + 1 < j && j + 1 < |email| && email[i] == '@' && email[j] == '.'
      && IsEmailPart(email[..i]) && IsEmailPart(email[i + 1..j]) && IsEmailPart(email[j + 1..])
  }

  /** The scan accepts exactly the strings the regular expression matches. */
  lemma EmailScanMatchesPattern(email: string)
    ensures IsValidEmail(email) <==> MatchesEmailPattern(email)
  {
    if IsValidEmail(email) {
      ValidEmailMatches(email);
    }
    if MatchesEmailPattern(email) {
      var i, j :| 0 < i && i + 1 < j && j + 1 < |email| && email[i] == '@' && email[j] == '.'
        && IsEmailPart(email[..i]) && IsEmailPart(email[i + 1..j]) && IsEmailPart(email[j + 1..]);
      PatternIsValidEmail(email, i, j);
    }
  }

  lemma ValidEmailMatches(email: string)
    requires IsValidEmail(email)
    ensures MatchesEmailPattern(email)
  {
    var i := IndexOf(email, '@');
    var d := email[i + 1..];
    var k :| 0 < k < |d| - 1 && d[k] == '.';
    var j := i + 1 + k;
    assert email[i + 1..j] == d[..k];
    assert email[j + 1..] == d[k + 1..];
    assert email[j] == '.';
  }

  lemma PatternIsValidEmail(email: string, i: int, j: int)
    requires 0 < i && i + 1 < j && j + 1 < |email| && email[i] == '@' && email[j] == '.'
    requires IsEmailPart(email[..i]) && IsEmailPart(email[i + 1..j]) && IsEmailPart(email[j + 1..])
    ensures IsValidEmail(email)
  {
    assert forall k :: 0 <= k < i ==> email[k] == email[..i][k];
    assert IndexOf(email, '@') == i;
    var d := email[i + 1..];
    assert d == email[i + 1..j] + "." + email[j + 1..];
    assert IsEmailPart(d);
    assert d[j - i - 1] == '.';
  }

  /** `isDateInPast`: the date's day starts before today's day starts. */
  predicate IsDateInPast(date: Date, today: Date)
    ensures ValidDate(date) && ValidDate(today) ==> (IsDateInPast(date, today) <==> Before(date, today))
  {
    DayStartsInCalendarOrder(date, today);
    DayStartMs(date) < DayStartMs(today)
  }

  /** On valid dates, one day starts before another iff it comes first in the calendar. */
  lemma DayStartsInCalendarOrder(a: Date, b: Date)
    ensures ValidDate(a) && ValidDate(b) ==> (DayStartMs(a) < DayStartMs(b) <==> Before(a, b))
  {
    if ValidDate(a) && ValidDate(b) {
      DayNumberOrder(a, b);
    }
  }

  /** A date is in the past iff its calendar day comes strictly before today; today is never past. */
  lemma DateInPastIsCalendarOrder(date: Date, today: Date)
    requires ValidDate(date) && ValidDate(today)
    ensures IsDateInPast(date, today) <==> Before(date, today)
    ensures !IsDateInPast(today, today)
  {
    DayNumberOrder(date, today);
  }
}

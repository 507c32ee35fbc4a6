/**
 The shared helpers: the opening-hours check, the loose email check, the
 display phone format and the category icon.
 */
module Utils {
  import opened Text
  import Seqs
  import LV = LeadValidation

  // ---------------------------------------------------------------- opening hours

  /** A half-open interval of minutes since midnight. */
  datatype Window = Window(opens: int, closes: int)

  /**
   The opening hours as a table, indexed by the day number of
   `Date.getDay()` (0 is Sunday); closing times are exclusive.
   */
  function Schedule(day: int): seq<Window> {
    if 1 <= day <= 5 then [Window(11 * 60, 15 * 60), Window(18 * 60, 22 * 60)]
    else if day == 6 then [Window(11 * 60, 16 * 60), Window(18 * 60, 23 * 60)]
    else if day == 0 then [Window(11 * 60, 16 * 60)]
    else []
  }

  predicate InSchedule(day: int, minute: int) {
    exists w :: w in Schedule(day) && w.opens <= minute < w.closes
  }

  /** `isRestaurantOpen` with the clock read as a day number and a minute of the day. */
  function IsRestaurantOpen(day: int, minute: int): (open: bool)
    ensures open <==> InSchedule(day, minute)
    ensures open ==> 0 <= day <= 6 && 11 * 60 <= minute < 23 * 60
  {
    var w := Schedule(day);
    if 1 <= day <= 5 then
      assert w[0] in w && w[1] in w;
      (minute >= 11 * 60 && minute < 15 * 60) || (minute >= 18 * 60 && minute < 22 * 60)
    else if day == 6 then
      assert w[0] in w && w[1] in w;
      (minute >= 11 * 60 && minute < 16 * 60) || (minute >= 18 * 60 && minute < 23 * 60)
    else if day == 0 then
      assert w[0] in w;
      minute >= 11 * 60 && minute < 16 * 60
    else false
  }

  /** The boundaries: open at the opening minute, closed at the closing minute. */
  lemma OpeningBoundaries()
    ensures IsRestaurantOpen(1, 660) && IsRestaurantOpen(1, 899) && !IsRestaurantOpen(1, 900)
    ensures !IsRestaurantOpen(5, 1320) && IsRestaurantOpen(6, 1379) && !IsRestaurantOpen(6, 1380)
    ensures IsRestaurantOpen(0, 959) && !IsRestaurantOpen(0, 960) && !IsRestaurantOpen(0, 1080)
  {
  }

  // ---------------------------------------------------------------- email

  predicate EmailBodyChar(c: char) {
    !IsWhitespace(c) && c != '@'
  }

  /** One way of matching `^[^\s@]+@[^\s@]+\.[^\s@]+$`: the `@` at `at`, the separating dot at `dot`. */
  predicate EmailRegexSplit(s: string, at: int, dot: int) {
    && 0 < at && at + 1 < dot && dot + 1 < |s|
    && s[at] == '@' && s[dot] == '.'
    && forall i :: 0 <= i < |s| && i != at ==> EmailBodyChar(s[i])
  }

  ghost predicate EmailRegex(s: string) {
    exists at, dot :: EmailRegexSplit(s, at, dot)
  }

  /**
   The check as a reader states it: exactly one `@`, no whitespace, text
   before the `@`, and after it a `.` with text on both sides.
   */
  function IsValidEmail(s: string): (ok: bool)
    ensures ok <==> EmailRegex(s)
  {
    if '@' !in s then false
    else
      var at := Seqs.FirstIndex(s, '@');
      var domain := s[at + 1..];
      var ok := (forall i :: 0 <= i < |s| ==> !IsWhitespace(s[i]))
        && '@' !in domain && at > 0 && |domain| >= 3 && '.' in domain[1..|domain| - 1];
      EmailCheckCorrect(s, at, ok);
      ok
  }

  lemma EmailCheckCorrect(s: string, at: nat, ok: bool)
    requires '@' in s && at == Seqs.FirstIndex(s, '@')
    requires var domain := s[at + 1..];
      ok == ((forall i :: 0 <= i < |s| ==> !IsWhitespace(s[i]))
        && '@' !in domain && at > 0 && |domain| >= 3 && '.' in domain[1..|domain| - 1])
    ensures ok <==> EmailRegex(s)
  {
    var domain := s[at + 1..];
    if ok {
      var k :| 0 <= k < |domain[1..|domain| - 1]| && domain[1..|domain| - 1][k] == '.';
      var dot := at + 2 + k;
      assert s[dot] == '.';
      forall i | 0 <= i < |s| && i != at ensures EmailBodyChar(s[i]) {
        if i > at {
          assert s[i] == domain[i - at - 1];
        }
      }
      assert EmailRegexSplit(s, at, dot);
    }
    if EmailRegex(s) {
      var a, dot :| EmailRegexSplit(s, a, dot);
      assert a == at by {
        assert s[at] == '@';
      }
      assert '@' !in domain by {
        forall j | 0 <= j < |domain| ensures domain[j] != '@' {
          assert domain[j] == s[at + 1 + j];
        }
      }
      assert domain[1..|domain| - 1][dot - at - 2] == '.';
      assert forall i :: 0 <= i < |s| ==> !IsWhitespace(s[i]) by {
        forall i | 0 <= i < |s| ensures !IsWhitespace(s[i]) {
          if i != at {
            assert EmailBodyChar(s[i]);
          }
        }
      }
    }
  }

  /** The loose check accepts what the strict lead-form pattern accepts. */
  lemma StrictPatternPassesLooseCheck(s: string)
    requires LV.EmailPattern(s)
    ensures IsValidEmail(s)
  {
    var at, dot :| 0 < at < dot < |s| && LV.EmailSplit(s, at, dot);
    LV.EmailDomainOfSplit(s, at, dot);
    forall i | 0 <= i < |s| && i != at ensures EmailBodyChar(s[i]) {
      if i < at {
        assert LV.IsEmailLocalChar(s[i]);
      } else if i < dot {
        assert LV.IsEmailDomainChar(s[i]);
      } else if i > dot {
        assert IsAsciiLetter(s[i]);
      }
    }
    assert EmailRegexSplit(s, at, dot);
  }

  /** The loose check lets through what the lead form rejects: a one-letter top-level domain. */
  lemma LooseCheckIsLooser()
    ensures IsValidEmail("a@b.c") && !LV.EmailPattern("a@b.c")
  {
    assert EmailRegexSplit("a@b.c", 1, 3);
  }

  // ---------------------------------------------------------------- phone

  /** `(DD) DDDDD-DDDD` for eleven digits, `(DD) DDDD-DDDD` for ten, the input unchanged otherwise. */
  function FormatPhone(phone: string): (r: string)
    ensures |Digits(phone)| !in {10, 11} ==> r == phone
    ensures |Digits(phone)| in {10, 11} ==>
      && Digits(r) == Digits(phone) && |r| == |Digits(phone)| + 4
      && r[0] == '(' && r[3..5] == ") " && r[|r| - 5] == '-'
  {
    var c := Digits(phone);
    if |c| == 11 then
      LV.DigitsOfMask("(", c[..2], ") ", c[2..7], "-", c[7..]);
      assert c[..2] + c[2..7] + c[7..] == c;
      "(" + c[..2] + ") " + c[2..7] + "-" + c[7..]
    else if |c| == 10 then
      LV.DigitsOfMask("(", c[..2], ") ", c[2..6], "-", c[6..]);
      assert c[..2] + c[2..6] + c[6..] == c;
      "(" + c[..2] + ") " + c[2..6] + "-" + c[6..]
    else phone
  }

  /** Formatting a formatted phone changes nothing. */
  lemma FormatPhoneIdempotent(phone: string)
    ensures FormatPhone(FormatPhone(phone)) == FormatPhone(phone)
  {
  }

  /** For eleven digits the display format and the typing mask agree. */
  lemma ElevenDigitsFormatsAgree(phone: string)
    requires |Digits(phone)| == 11
    ensures FormatPhone(phone) == LV.FormatPhoneInput(phone)
  {
    var c := Digits(phone);
    assert LV.LeadingDigits(phone, 11) == c;
  }

  /** For ten digits the display format splits the local number 4-4 while the typing mask splits it 5-3. */
  lemma TenDigitsFormatsDiffer(phone: string)
    requires |Digits(phone)| == 10
    ensures FormatPhone(phone)[9] == '-'
    ensures FormatPhone(phone) != LV.FormatPhoneInput(phone)
  {
    var c := Digits(phone);
    var shown := FormatPhone(phone);
    assert |shown| == 14 && shown[9] == shown[|shown| - 5];
    assert LV.LeadingDigits(phone, 11) == c;
    var masked := LV.PhoneMask(c);
    assert LV.FormatPhoneInput(phone) == masked;
    LV.PhoneMaskShape(c);
    assert masked[9] == masked[5..10][4] == c[2..7][4];
  }

  // ---------------------------------------------------------------- category icon

  const DefaultIcon := "\U{1F37D}\U{FE0F}"

  /** The icon for the four known categories; any other name gets the plate icon. */
  function GetCategoryIcon(category: string): (icon: string)
    ensures icon == DefaultIcon <==> category !in {"Pratos Principais", "Entradas", "Bebidas", "Sobremesas"}
    ensures category == "Pratos Principais" ==> icon == "\U{1F372}"
    ensures category == "Entradas" ==> icon == "\U{1F95F}"
    ensures category == "Bebidas" ==> icon == "\U{1F964}"
    ensures category == "Sobremesas" ==> icon == "\U{1F370}"
  {
    if category == "Pratos Principais" then "\U{1F372}"
    else if category == "Entradas" then "\U{1F95F}"
    else if category == "Bebidas" then "\U{1F964}"
    else if category == "Sobremesas" then "\U{1F370}"
    else DefaultIcon
  }

  /** The four known categories get four different icons, none of them the plate. */
  lemma KnownCategoryIconsDistinct(a: string, b: string)
    requires a in {"Pratos Principais", "Entradas", "Bebidas", "Sobremesas"}
    requires b in {"Pratos Principais", "Entradas", "Bebidas", "Sobremesas"}
    ensures a != b ==> GetCategoryIcon(a) != GetCategoryIcon(b)
    ensures GetCategoryIcon(a) != DefaultIcon
  {
  }
}

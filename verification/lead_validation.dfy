/**
 Field validators, input masks, the birthday converter, the sanitiser and the
 progress counter of the lead-capture form.

 "Today" is a parameter: the validators never read a clock.
 */
module LeadValidation {
  import opened Wrappers
  import opened Text
  import Seqs

  // ---------------------------------------------------------------- data

  /** The form draft the visitor edits; `website` is the honeypot and must stay empty. */
  datatype LeadFormData = LeadFormData(
    name: string,
    email: string,
    phone: string,
    birthday: string,
    preferences: seq<string>,
    terms: bool,
    website: string)

  const EmptyForm := LeadFormData("", "", "", "", [], false, "")

  /** The keys a validation pass may report. */
  datatype Field = Name | Email | Phone | Birthday | Terms

  /** Every error a validator returns, with the message the form shows for it. */
  datatype FieldError =
    | NameRequired | NameTooShort | NameInvalidChars
    | EmailRequired | EmailInvalidFormat | EmailDisposable
    | PhoneRequired | PhoneInvalid
    | BirthdayBadFormat | BirthdayBadMonth | BirthdayBadDay | BirthdayBadYear | BirthdayBadDate | BirthdayUnderage
    | TermsNotAccepted
  {
    function Message(): string {
      match this
      case NameRequired => "Nome é obrigatório"
      case NameTooShort => "Nome deve ter pelo menos 3 caracteres"
      case NameInvalidChars => "Nome deve conter apenas letras e espaços"
      case EmailRequired => "Email é obrigatório"
      case EmailInvalidFormat => "Formato de email inválido"
      case EmailDisposable => "Por favor, use um email permanente"
      case PhoneRequired => "Telefone é obrigatório"
      case PhoneInvalid => "Número de telefone inválido"
      case BirthdayBadFormat => "Formato inválido (DD/MM/AAAA)"
      case BirthdayBadMonth => "Mês inválido"
      case BirthdayBadDay => "Dia inválido"
      case BirthdayBadYear => "Ano inválido"
      case BirthdayBadDate => "Data inválida"
      case BirthdayUnderage => "Idade mínima: 18 anos"
      case TermsNotAccepted => "Você precisa aceitar os termos para continuar"
    }
  }

  /** Field name to error; a missing key means the field is valid. */
  type ValidationErrors = map<Field, FieldError>

  /** A calendar day, month counted from 1; used for "today". */
  datatype CalendarDate = CalendarDate(year: int, month: int, day: int)

  const DisposableDomains: set<string> := {
    "mailinator.com", "guerrillamail.com", "tempmail.com", "throwaway.email",
    "yopmail.com", "sharklasers.com", "guerrillamailblock.com", "grr.la",
    "dispostable.com", "trashmail.com", "fakeinbox.com", "maildrop.cc",
    "temp-mail.org", "10minutemail.com", "minutemail.com", "tempail.com",
    "emailondeck.com", "getnada.com", "mohmal.com", "burnermail.io"
  }

  // ---------------------------------------------------------------- name

  /** `[A-Za-zÀ-ÿ\s]` */
  predicate IsNameChar(c: char) {
    IsAsciiLetter(c) || ('\U{C0}' <= c <= '\U{FF}') || IsWhitespace(c)
  }

  function ValidateName(value: string): (r: Option<FieldError>)
    ensures r == Some(NameRequired) <==> Blank(value)
    ensures r == Some(NameTooShort) <==> !Blank(value) && Utf16Length(Trim(value)) < 3
    ensures r == None <==>
      Utf16Length(Trim(value)) >= 3 && forall i :: 0 <= i < |Trim(value)| ==> IsNameChar(Trim(value)[i])
    ensures r.Some? ==> r.value in {NameRequired, NameTooShort, NameInvalidChars}
  {
    var trimmed := Trim(value);
    if trimmed == [] then Some(NameRequired)
    else if Utf16Length(trimmed) < 3 then Some(NameTooShort)
    else if exists i :: 0 <= i < |trimmed| && !IsNameChar(trimmed[i]) then Some(NameInvalidChars)
    else None
  }

  // ---------------------------------------------------------------- email

  /** `[a-zA-Z0-9._%+-]` */
  predicate IsEmailLocalChar(c: char) {
    IsAsciiLetter(c) || IsDigit(c) || c in "._%+-"
  }

  /** `[a-zA-Z0-9.-]` */
  predicate IsEmailDomainChar(c: char) {
    IsAsciiLetter(c) || IsDigit(c) || c == '.' || c == '-'
  }

  /**
   One way of matching `^[a-zA-Z0-9._%+-]+@[a-zA-Z0-9.-]+\.[a-zA-Z]{2,}$`:
   the `@` sits at `at` and the dot before the final letters at `dot`.
   */
  predicate EmailSplit(s: string, at: int, dot: int)
    requires 0 < at < dot < |s|
  {
    && s[at] == '@' && s[dot] == '.'
    && at + 1 < dot && dot + 3 <= |s|
    && (forall i :: 0 <= i < at ==> IsEmailLocalChar(s[i]))
    && (forall i :: at < i < dot ==> IsEmailDomainChar(s[i]))
    && (forall i :: dot < i < |s| ==> IsAsciiLetter(s[i]))
  }

  predicate EmailPattern(s: string) {
    exists at, dot :: 0 < at < dot < |s| && EmailSplit(s, at, dot)
  }

  /** `s.split('@')[1]`: the text after the first `@`, up to a second one; empty when there is no `@`. */
  function EmailDomain(s: string): string {
    if '@' !in s then ""
    else
      var rest := s[Seqs.FirstIndex(s, '@') + 1..];
      if '@' in rest then rest[..Seqs.FirstIndex(rest, '@')] else rest
  }

  /** A string of the email shape has one `@`, and its domain is everything after it. */
  lemma EmailDomainOfSplit(s: string, at: int, dot: int)
    requires 0 < at < dot < |s| && EmailSplit(s, at, dot)
    ensures forall i :: 0 <= i < |s| && i != at ==> s[i] != '@'
    ensures EmailDomain(s) == s[at + 1..]
  {
    assert forall i :: 0 <= i < |s| && i != at ==> s[i] != '@' by {
      forall i | 0 <= i < |s| && i != at ensures s[i] != '@' {
        if i < at {
          assert IsEmailLocalChar(s[i]);
        } else if i < dot {
          assert IsEmailDomainChar(s[i]);
        } else if i > dot {
          assert IsAsciiLetter(s[i]);
        }
      }
    }
    assert Seqs.FirstIndex(s, '@') == at;
    assert '@' !in s[at + 1..];
  }

  function ValidateEmail(value: string): (r: Option<FieldError>)
    ensures var t := ToLower(Trim(value));
      && (r == Some(EmailRequired) <==> Blank(value))
      && (r == Some(EmailInvalidFormat) <==> !Blank(value) && !EmailPattern(t))
      && (r == Some(EmailDisposable) <==> !Blank(value) && EmailPattern(t) && EmailDomain(t) in DisposableDomains)
      && (r == None <==> !Blank(value) && EmailPattern(t) && EmailDomain(t) !in DisposableDomains)
  {
    var trimmed := ToLower(Trim(value));
    if trimmed == [] then Some(EmailRequired)
    else if !EmailPattern(trimmed) then Some(EmailInvalidFormat)
    else if EmailDomain(trimmed) in DisposableDomains then Some(EmailDisposable)
    else None
  }

  /** Validation ignores letter case: lower-casing the input first changes nothing. */
  lemma EmailCaseInsensitive(value: string)
    ensures ValidateEmail(ToLower(value)) == ValidateEmail(value)
  {
    TrimToLower(value);
    ToLowerIdempotent(Trim(value));
  }

  // ---------------------------------------------------------------- phone

  function ValidatePhone(value: string): (r: Option<FieldError>)
    ensures r == None <==> 10 <= |Digits(value)| <= 11
    ensures r == Some(PhoneRequired) <==> forall i :: 0 <= i < |value| ==> !IsDigit(value[i])
    ensures r.Some? ==> r.value == PhoneRequired || r.value == PhoneInvalid
  {
    var digits := Digits(value);
    DigitsEmptyIffNoDigit(value);
    if digits == [] then Some(PhoneRequired)
    else if |digits| < 10 || |digits| > 11 then Some(PhoneInvalid)
    else None
  }

  // ---------------------------------------------------------------- birthday

  /** `^(\d{2})\/(\d{2})\/(\d{4})$` */
  predicate BirthdayPattern(s: string) {
    |s| == 10 && s[2] == '/' && s[5] == '/' && AllDigits(s[..2]) && AllDigits(s[3..5]) && AllDigits(s[6..])
  }

  predicate IsLeapYear(y: int) {
    y % 4 == 0 && (y % 100 != 0 || y % 400 == 0)
  }

  function DaysInMonth(y: int, m: int): int
    requires 1 <= m <= 12
  {
    if m == 2 then (if IsLeapYear(y) then 29 else 28)
    else if m == 4 || m == 6 || m == 9 || m == 11 then 30
    else 31
  }

  /** Whole years between a birth date and `today`, computed as the form does. */
  function AgeOn(today: CalendarDate, year: int, month: int, day: int): int {
    var age := today.year - year;
    var monthDiff := today.month - month;
    if monthDiff < 0 || (monthDiff == 0 && today.day < day) then age - 1 else age
  }

  /** (y1, m1, d1) is not later than (y2, m2, d2). */
  predicate OnOrBefore(y1: int, m1: int, d1: int, y2: int, m2: int, d2: int) {
    y1 < y2 || (y1 == y2 && (m1 < m2 || (m1 == m2 && d1 <= d2)))
  }

  /** A person is 18 exactly when their 18th birthday is not after today. */
  lemma {:induction false} AgeMatchesEighteenthBirthday(today: CalendarDate, year: int, month: int, day: int)
    ensures AgeOn(today, year, month, day) >= 18 <==> OnOrBefore(year + 18, month, day, today.year, today.month, today.day)
  {
  }

  /** The fields of a `DD/MM/YYYY` string, as `parseInt` reads them. */
  function BirthdayDay(s: string): nat requires BirthdayPattern(s) { ParseDigits(s[..2]) }
  function BirthdayMonth(s: string): nat requires BirthdayPattern(s) { ParseDigits(s[3..5]) }
  function BirthdayYear(s: string): nat requires BirthdayPattern(s) { ParseDigits(s[6..]) }

  /** The date is a real calendar day between 1900 and this year (JavaScript's `Date` rolls any later day over). */
  predicate RealBirthDate(s: string, today: CalendarDate)
    requires BirthdayPattern(s)
  {
    var d, m, y := BirthdayDay(s), BirthdayMonth(s), BirthdayYear(s);
    1 <= m <= 12 && 1 <= d <= DaysInMonth(y, m) && 1900 <= y <= today.year
  }

  function ValidateBirthday(value: string, today: CalendarDate): (r: Option<FieldError>)
    ensures r == None <==>
      value == [] ||
      (BirthdayPattern(value) && RealBirthDate(value, today) &&
       OnOrBefore(BirthdayYear(value) + 18, BirthdayMonth(value), BirthdayDay(value), today.year, today.month, today.day))
    ensures r == Some(BirthdayUnderage) <==>
      value != [] && BirthdayPattern(value) && RealBirthDate(value, today) &&
      !OnOrBefore(BirthdayYear(value) + 18, BirthdayMonth(value), BirthdayDay(value), today.year, today.month, today.day)
    ensures r == Some(BirthdayBadFormat) <==> value != [] && !BirthdayPattern(value)
    // a date of the right shape is checked month, then day, then year, then the calendar
    ensures r == Some(BirthdayBadMonth) <==> BirthdayPattern(value) && !(1 <= BirthdayMonth(value) <= 12)
    ensures r == Some(BirthdayBadDay) <==>
      BirthdayPattern(value) && 1 <= BirthdayMonth(value) <= 12 && !(1 <= BirthdayDay(value) <= 31)
    ensures r == Some(BirthdayBadYear) <==>
      BirthdayPattern(value) && 1 <= BirthdayMonth(value) <= 12 && 1 <= BirthdayDay(value) <= 31
      && !(1900 <= BirthdayYear(value) <= today.year)
    ensures r == Some(BirthdayBadDate) <==>
      BirthdayPattern(value) && 1 <= BirthdayMonth(value) <= 12 && 1 <= BirthdayDay(value) <= 31
      && 1900 <= BirthdayYear(value) <= today.year && BirthdayDay(value) > DaysInMonth(BirthdayYear(value), BirthdayMonth(value))
  {
    if value == [] then None
    else if !BirthdayPattern(value) then Some(BirthdayBadFormat)
    else
      var day, month, year := BirthdayDay(value), BirthdayMonth(value), BirthdayYear(value);
      if month < 1 || month > 12 then Some(BirthdayBadMonth)
      else if day < 1 || day > 31 then Some(BirthdayBadDay)
      else if year < 1900 || year > today.year then Some(BirthdayBadYear)
      else if day > DaysInMonth(year, month) then Some(BirthdayBadDate)
      else
        AgeMatchesEighteenthBirthday(today, year, month, day);
        if AgeOn(today, year, month, day) < 18 then Some(BirthdayUnderage) else None
  }

  // ---------------------------------------------------------------- whole form

  /** Keys whose check found nothing are dropped; the others carry the error found. */
  function CollectErrors(name: Option<FieldError>, email: Option<FieldError>, phone: Option<FieldError>,
                         birthday: Option<FieldError>, terms: Option<FieldError>): (errors: ValidationErrors)
    ensures Name in errors <==> name.Some?
    ensures Email in errors <==> email.Some?
    ensures Phone in errors <==> phone.Some?
    ensures Birthday in errors <==> birthday.Some?
    ensures Terms in errors <==> terms.Some?
    ensures Name in errors ==> errors[Name] == name.value
    ensures Email in errors ==> errors[Email] == email.value
    ensures Phone in errors ==> errors[Phone] == phone.value
    ensures Birthday in errors ==> errors[Birthday] == birthday.value
    ensures Terms in errors ==> errors[Terms] == terms.value
  {
    var all := map[Name := name, Email := email, Phone := phone, Birthday := birthday, Terms := terms];
    map f | f in all && all[f].Some? :: all[f].value
  }

  /** Every check runs; keys whose check found nothing are then dropped. */
  function ValidateLeadForm(data: LeadFormData, today: CalendarDate): (errors: ValidationErrors)
    ensures Name in errors <==> ValidateName(data.name).Some?
    ensures Email in errors <==> ValidateEmail(data.email).Some?
    ensures Phone in errors <==> ValidatePhone(data.phone).Some?
    ensures Birthday in errors <==> ValidateBirthday(data.birthday, today).Some?
    ensures Terms in errors <==> !data.terms
    ensures Name in errors ==> errors[Name] == ValidateName(data.name).value
    ensures Email in errors ==> errors[Email] == ValidateEmail(data.email).value
    ensures Phone in errors ==> errors[Phone] == ValidatePhone(data.phone).value
    ensures Birthday in errors ==> errors[Birthday] == ValidateBirthday(data.birthday, today).value
    ensures Terms in errors ==> errors[Terms] == TermsNotAccepted
  {
    CollectErrors(
      ValidateName(data.name),
      ValidateEmail(data.email),
      ValidatePhone(data.phone),
      ValidateBirthday(data.birthday, today),
      if !data.terms then Some(TermsNotAccepted) else None)
  }

  function HasErrors(errors: ValidationErrors): bool {
    |errors| > 0
  }

  /** The form has no error exactly when every validator accepts and the terms are accepted. */
  lemma NoErrorsIffAllChecksPass(data: LeadFormData, today: CalendarDate)
    ensures !HasErrors(ValidateLeadForm(data, today)) <==>
      && ValidateName(data.name) == None
      && ValidateEmail(data.email) == None
      && ValidatePhone(data.phone) == None
      && ValidateBirthday(data.birthday, today) == None
      && data.terms
  {
    CollectedNothingIffAllNone(
      ValidateName(data.name),
      ValidateEmail(data.email),
      ValidatePhone(data.phone),
      ValidateBirthday(data.birthday, today),
      if !data.terms then Some(TermsNotAccepted) else None);
  }

  lemma CollectedNothingIffAllNone(name: Option<FieldError>, email: Option<FieldError>, phone: Option<FieldError>,
                                   birthday: Option<FieldError>, terms: Option<FieldError>)
    ensures |CollectErrors(name, email, phone, birthday, terms)| == 0 <==>
      name == None && email == None && phone == None && birthday == None && terms == None
  {
    var errors := CollectErrors(name, email, phone, birthday, terms);
    if |errors| == 0 {
      assert errors == map[];
    } else {
      var f :| f in errors;
      assert f.Name? || f.Email? || f.Phone? || f.Birthday? || f.Terms?;
    }
  }

  // ---------------------------------------------------------------- masks

  function Min(a: int, b: int): int {
    if a <= b then a else b
  }

  /** The first `n` digits of `s`: `s.replace(/\D/g, '').slice(0, n)`. */
  function LeadingDigits(s: string, n: nat): (d: string)
    ensures AllDigits(d) && |d| == Min(n, |Digits(s)|)
  {
    Digits(s)[..Min(n, |Digits(s)|)]
  }

  predicate NoDigit(s: string) {
    forall i :: 0 <= i < |s| ==> !IsDigit(s[i])
  }

  lemma DigitsOfGroup(sep: string, a: string)
    requires NoDigit(sep) && AllDigits(a)
    ensures Digits(sep + a) == a
  {
    DigitsOfSeparators(sep);
    DigitsAppend(sep, a);
  }

  /** Digits of digit groups joined by separators without digits are the groups themselves. */
  lemma DigitsOfMask(s1: string, a: string, s2: string, b: string, s3: string, c: string)
    requires NoDigit(s1) && NoDigit(s2) && NoDigit(s3)
    requires AllDigits(a) && AllDigits(b) && AllDigits(c)
    ensures Digits(s1 + a + s2 + b + s3 + c) == a + b + c
  {
    var x, y, z := s1 + a, s2 + b, s3 + c;
    assert s1 + a + s2 + b + s3 + c == x + y + z;
    DigitsOfGroup(s1, a);
    DigitsOfGroup(s2, b);
    DigitsOfGroup(s3, c);
    DigitsAppend(x, y);
    DigitsAppend(x + y, z);
  }

  /** The phone mask applied to at most eleven digits. */
  function PhoneMask(d: string): string
    requires |d| <= 11
  {
    if |d| <= 2 then d
    else if |d| <= 7 then "(" + d[..2] + ") " + d[2..]
    else "(" + d[..2] + ") " + d[2..7] + "-" + d[7..]
  }

  lemma PhoneMaskDigits(d: string)
    requires |d| <= 11 && AllDigits(d)
    ensures Digits(PhoneMask(d)) == d
  {
    if 2 < |d| <= 7 {
      DigitsOfMask("(", d[..2], ") ", d[2..], "", "");
      assert "(" + d[..2] + ") " + d[2..] + "" + "" == PhoneMask(d);
      assert d[..2] + d[2..] + "" == d;
    } else if |d| > 7 {
      DigitsOfMask("(", d[..2], ") ", d[2..7], "-", d[7..]);
      assert d[..2] + d[2..7] + d[7..] == d;
    }
  }

  /** Phone mask while typing: `(DD) DDDDD-DDDD`, growing with the input. */
  function FormatPhoneInput(value: string): (r: string)
    ensures Digits(r) == LeadingDigits(value, 11)
  {
    var d := LeadingDigits(value, 11);
    PhoneMaskDigits(d);
    PhoneMask(d)
  }

  /** Masking an already masked phone changes nothing. */
  lemma FormatPhoneInputIdempotent(value: string)
    ensures FormatPhoneInput(FormatPhoneInput(value)) == FormatPhoneInput(value)
  {
    var d := LeadingDigits(value, 11);
    var r := FormatPhoneInput(value);
    assert LeadingDigits(r, 11) == d;
  }

  /** From eight digits on the mask is `(` d0 d1 `) ` d2..d6 `-` d7..; ten digits therefore split 5-3, not 4-4. */
  lemma PhoneMaskShape(d: string)
    requires 8 <= |d| <= 11
    ensures var r := PhoneMask(d);
      && |r| == |d| + 4
      && r[0] == '(' && r[1..3] == d[..2] && r[3..5] == ") " && r[5..10] == d[2..7] && r[10] == '-' && r[11..] == d[7..]
  {
    var r := PhoneMask(d);
    assert r == "(" + d[..2] + ") " + d[2..7] + "-" + d[7..];
    assert r[1..3] == d[..2];
    assert r[5..10] == d[2..7];
    assert r[11..] == d[7..];
  }

  /** The birthday mask applied to at most eight digits. */
  function BirthdayMask(d: string): string
    requires |d| <= 8
  {
    if |d| <= 2 then d
    else if |d| <= 4 then d[..2] + "/" + d[2..]
    else d[..2] + "/" + d[2..4] + "/" + d[4..]
  }

  lemma BirthdayMaskDigits(d: string)
    requires |d| <= 8 && AllDigits(d)
    ensures Digits(BirthdayMask(d)) == d
  {
    if 2 < |d| <= 4 {
      DigitsOfMask("", d[..2], "/", d[2..], "", "");
      assert "" + d[..2] + "/" + d[2..] + "" + "" == BirthdayMask(d);
      assert d[..2] + d[2..] + "" == d;
    } else if |d| > 4 {
      DigitsOfMask("", d[..2], "/", d[2..4], "/", d[4..]);
      assert "" + d[..2] + "/" + d[2..4] + "/" + d[4..] == BirthdayMask(d);
      assert d[..2] + d[2..4] + d[4..] == d;
    }
  }

  /** Birthday mask while typing: `DD/MM/YYYY`, growing with the input. */
  function FormatBirthdayInput(value: string): (r: string)
    ensures Digits(r) == LeadingDigits(value, 8)
  {
    var d := LeadingDigits(value, 8);
    BirthdayMaskDigits(d);
    BirthdayMask(d)
  }

  lemma FormatBirthdayInputIdempotent(value: string)
    ensures FormatBirthdayInput(FormatBirthdayInput(value)) == FormatBirthdayInput(value)
  {
    var r := FormatBirthdayInput(value);
    assert LeadingDigits(r, 8) == LeadingDigits(value, 8);
  }

  /** `DD/MM/YYYY` to `YYYY-MM-DD`; `None` for "" or any other shape. No calendar check. */
  function BirthdayToIso(value: string): (r: Option<string>)
    ensures r.Some? <==> BirthdayPattern(value)
    ensures r.Some? ==> |r.value| == 10 && r.value[4] == '-' && r.value[7] == '-'
  {
    if value == [] then None
    else if !BirthdayPattern(value) then None
    else Some(value[6..10] + "-" + value[3..5] + "-" + value[0..2])
  }

  /** Eight typed digits DDMMYYYY become, through the mask and the converter, `YYYY-MM-DD`. */
  lemma BirthdayMaskThenIso(value: string)
    requires |Digits(value)| >= 8
    ensures var d := LeadingDigits(value, 8);
      BirthdayToIso(FormatBirthdayInput(value)) == Some(d[4..8] + "-" + d[2..4] + "-" + d[..2])
  {
    var d := LeadingDigits(value, 8);
    assert FormatBirthdayInput(value) == BirthdayMask(d);
    FullBirthdayMask(d);
  }

  /** Eight digits fill the mask completely, in the shape the converter expects. */
  lemma FullBirthdayMask(d: string)
    requires |d| == 8 && AllDigits(d)
    ensures var r := BirthdayMask(d);
      BirthdayPattern(r) && r[6..10] + "-" + r[3..5] + "-" + r[0..2] == d[4..8] + "-" + d[2..4] + "-" + d[..2]
  {
    var r := BirthdayMask(d);
    assert r == d[..2] + "/" + d[2..4] + "/" + d[4..];
    assert r[0..2] == r[..2] == d[..2];
    assert r[3..5] == d[2..4];
    assert r[6..10] == r[6..] == d[4..8];
  }

  /** The converter only reorders fields: 31 February passes through, while the validator rejects it. */
  lemma IsoConversionSkipsCalendar()
    ensures BirthdayToIso("31/02/2000") == Some("2000-02-31")
    ensures ValidateBirthday("31/02/2000", CalendarDate(2026, 1, 1)) == Some(BirthdayBadDate)
  {
    var s := "31/02/2000";
    assert s[..2] == "31" && s[3..5] == "02" && s[6..] == "2000";
    assert s[0..2] == "31" && s[6..10] == "2000";
    assert BirthdayPattern(s);
    assert s[6..10] + "-" + s[3..5] + "-" + s[0..2] == "2000-02-31";
    assert ParseDigits("31") == 31 by { assert "31"[..1] == "3"; }
    assert ParseDigits("02") == 2 by { assert "02"[..1] == "0"; }
    assert ParseDigits("2000") == 2000 by {
      assert "2000"[..3] == "200";
      assert "200"[..2] == "20";
      assert "20"[..1] == "2";
    }
  }

  // ---------------------------------------------------------------- sanitiser

  /** `replace(/<[^>]*>/g, '')`: every `<` that has a later `>` is removed with everything up to that `>`. */
  function StripTags(s: string): (r: string)
    ensures |r| <= |s|
    ensures Seqs.IsSubsequence(r, s)
    ensures forall i :: 0 <= i < |r| ==> r[i] in s
    ensures '<' !in s || '>' !in s ==> r == s
    decreases |s|
  {
    if s == [] then []
    else if s[0] == '<' && '>' in s then
      var k := Seqs.FirstIndex(s, '>');
      var rest := StripTags(s[k + 1..]);
      assert forall i :: 0 <= i < |rest| ==> rest[i] in s by {
        forall i | 0 <= i < |rest| ensures rest[i] in s {
          assert rest[i] in s[k + 1..];
        }
      }
      Seqs.SuffixIsSubsequence(s, k + 1);
      Seqs.SubsequenceTrans(rest, s[k + 1..], s);
      rest
    else
      var rest := StripTags(s[1..]);
      assert forall i :: 0 <= i < |rest| ==> rest[i] in s by {
        forall i | 0 <= i < |rest| ensures rest[i] in s {
          assert rest[i] in s[1..];
        }
      }
      assert ([s[0]] + rest)[1..] == rest;
      if '<' !in s || '>' !in s then assert s == [s[0]] + s[1..]; [s[0]] + rest
      else [s[0]] + rest
  }

  /** A complete tag is removed together with its brackets; the text before it is kept. */
  lemma StripTagsRemovesTag(a: string, t: string, b: string)
    requires '<' !in a && '>' !in t
    ensures StripTags(a + "<" + t + ">" + b) == a + StripTags(b)
  {
    var tag := "<" + t + ">" + b;
    assert a + "<" + t + ">" + b == a + tag;
    StripTagsKeepsPrefix(a, tag);
    StripTagsLeadingTag(t, b);
  }

  /** Text before the first `<` is kept as it is. */
  lemma {:induction false} StripTagsKeepsPrefix(a: string, x: string)
    requires '<' !in a
    ensures StripTags(a + x) == a + StripTags(x)
  {
    if a == [] {
      assert a + x == x;
    } else {
      Seqs.SplitHead(a, x);
      StripTagsKeepsHead(a[0], a[1..] + x);
      StripTagsKeepsPrefix(a[1..], x);
      Seqs.SplitHead(a, StripTags(x));
    }
  }

  lemma StripTagsKeepsHead(c: char, rest: string)
    requires c != '<'
    ensures StripTags([c] + rest) == [c] + StripTags(rest)
  {
    assert ([c] + rest)[1..] == rest;
  }

  lemma StripTagsLeadingTag(t: string, b: string)
    requires '>' !in t
    ensures StripTags("<" + t + ">" + b) == StripTags(b)
  {
    var s := "<" + t + ">" + b;
    var k := |t| + 1;
    assert s[k] == '>';
    forall j | 0 <= j < k ensures s[j] != '>' {
      if j > 0 { assert s[j] == t[j - 1]; }
    }
    assert Seqs.FirstIndex(s, '>') == k;
    assert s[k + 1..] == b;
  }

  /** `[<>"'`;]` */
  predicate IsDangerousChar(c: char) {
    c in "<>\"'`;"
  }

  predicate IsSafeChar(c: char) {
    !IsDangerousChar(c)
  }

  /** Tags removed, then dangerous characters removed, then trimmed. */
  function Sanitize(value: string): (r: string)
    ensures forall i :: 0 <= i < |r| ==> !IsDangerousChar(r[i])
    ensures r == [] || (!IsWhitespace(r[0]) && !IsWhitespace(r[|r| - 1]))
    ensures Seqs.IsSubsequence(r, value)
    ensures (forall i :: 0 <= i < |value| ==> !IsDangerousChar(value[i])) ==> r == Trim(value)
  {
    var stripped := StripTags(value);
    var safe := Seqs.Filter(stripped, IsSafeChar);
    SanitizeStepsSafe(value);
    SanitizeStepsSubsequence(value);
    SafeTextPassesFilters(value);
    Trim(safe)
  }

  lemma SanitizeStepsSafe(value: string)
    ensures var r := Trim(Seqs.Filter(StripTags(value), IsSafeChar));
      forall i :: 0 <= i < |r| ==> !IsDangerousChar(r[i])
  {
    var safe := Seqs.Filter(StripTags(value), IsSafeChar);
    TrimKeepsChars(safe);
    var r := Trim(safe);
    forall i | 0 <= i < |r| ensures IsSafeChar(r[i]) {
      assert r[i] in r;
    }
  }

  lemma SanitizeStepsSubsequence(value: string)
    ensures Seqs.IsSubsequence(Trim(Seqs.Filter(StripTags(value), IsSafeChar)), value)
  {
    var stripped := StripTags(value);
    var safe := Seqs.Filter(stripped, IsSafeChar);
    Seqs.FilterIsSubsequence(stripped, IsSafeChar);
    TrimIsSubsequence(safe);
    Seqs.SubsequenceTrans(safe, stripped, value);
    Seqs.SubsequenceTrans(Trim(safe), safe, value);
  }

  /** Text with no dangerous character passes the tag and character filters untouched. */
  lemma SafeTextPassesFilters(value: string)
    ensures (forall i :: 0 <= i < |value| ==> !IsDangerousChar(value[i])) ==>
      Seqs.Filter(StripTags(value), IsSafeChar) == value
  {
    if forall i :: 0 <= i < |value| ==> !IsDangerousChar(value[i]) {
      assert '<' !in value by {
        forall i | 0 <= i < |value| ensures value[i] != '<' {
          assert !IsDangerousChar(value[i]);
        }
      }
      Seqs.FilterKeepsAll(value, IsSafeChar);
    }
  }

  lemma SanitizeIdempotent(value: string)
    ensures Sanitize(Sanitize(value)) == Sanitize(value)
  {
    var s := Sanitize(value);
    assert '<' !in s;
    assert StripTags(s) == s;
    Seqs.FilterKeepsAll(s, IsSafeChar);
    TrimOfTrimmed(s);
  }

  // ---------------------------------------------------------------- progress

  /** The five fields the progress bar tracks. */
  datatype Tracked = TrackedName | TrackedEmail | TrackedPhone | TrackedBirthday | TrackedPreferences

  predicate IsFilled(data: LeadFormData, t: Tracked) {
    match t
    case TrackedName => !Blank(data.name)
    case TrackedEmail => !Blank(data.email)
    case TrackedPhone => |Digits(data.phone)| >= 10
    case TrackedBirthday => data.birthday != []
    case TrackedPreferences => |data.preferences| > 0
  }

  function Indicator(b: bool): nat {
    if b then 1 else 0
  }

  function CountFilledFields(data: LeadFormData): (n: nat)
    ensures n <= 5
    ensures n == 0 <==> forall t :: !IsFilled(data, t)
    ensures n == 5 <==> forall t :: IsFilled(data, t)
  {
    Indicator(IsFilled(data, TrackedName))
    + Indicator(IsFilled(data, TrackedEmail))
    + Indicator(IsFilled(data, TrackedPhone))
    + Indicator(IsFilled(data, TrackedBirthday))
    + Indicator(IsFilled(data, TrackedPreferences))
  }

  /** `Math.round(x / y)` for non-negative `x` and positive `y`: halves round up. */
  function RoundDiv(x: nat, y: nat): nat
    requires y > 0
  {
    (2 * x + y) / (2 * y)
  }

  /** `Math.round(filled / 5 * 100)` */
  function ProgressPercentage(data: LeadFormData): (p: nat)
    ensures p == 20 * CountFilledFields(data)
    ensures p in {0, 20, 40, 60, 80, 100}
  {
    var filled := CountFilledFields(data);
    RoundDiv(filled * 100, 5)
  }

  /** Filling more of the tracked fields never lowers the percentage. */
  lemma ProgressMonotone(a: LeadFormData, b: LeadFormData)
    requires forall t :: IsFilled(a, t) ==> IsFilled(b, t)
    ensures ProgressPercentage(a) <= ProgressPercentage(b)
  {
    assert IsFilled(a, TrackedName) ==> IsFilled(b, TrackedName);
    assert IsFilled(a, TrackedEmail) ==> IsFilled(b, TrackedEmail);
    assert IsFilled(a, TrackedPhone) ==> IsFilled(b, TrackedPhone);
    assert IsFilled(a, TrackedBirthday) ==> IsFilled(b, TrackedBirthday);
    assert IsFilled(a, TrackedPreferences) ==> IsFilled(b, TrackedPreferences);
  }

  lemma ProgressBounds(data: LeadFormData)
    ensures ProgressPercentage(EmptyForm) == 0
    ensures (forall t :: IsFilled(data, t)) ==> ProgressPercentage(data) == 100
  {
    assert !IsFilled(EmptyForm, TrackedName) by { assert Blank(EmptyForm.name); }
    assert !IsFilled(EmptyForm, TrackedEmail) by { assert Blank(EmptyForm.email); }
  }
}

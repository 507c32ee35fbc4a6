/**
 The "Cliente Especial" sign-up dialog mounted on the home page: the phone
 field keeps digits only, three fields are checked on submit, a valid
 submission registers a customer with the FLOR10 code, and the phone is
 shown through a growing `(DD) DDDDD-DDDD` mask.
 */
module ClienteEspecial {
  import opened Wrappers
  import opened Text
  import LV = LeadValidation
  import Utils
  import Store

  const PromoCode := "FLOR10"
  const NameRequired := "Nome é obrigatório"
  const EmailRequired := "Email é obrigatório"
  const EmailInvalid := "Email inválido"
  const PhoneRequired := "WhatsApp é obrigatório"
  const PhoneInvalid := "Número inválido"
  const MinPhoneLength := 10
  /** Milliseconds the success message stays before the dialog closes and the form clears. */
  const SuccessDelayMs := 3000

  datatype CustomerForm = CustomerForm(name: string, email: string, phone: string, birthday: string)

  const EmptyForm := CustomerForm("", "", "", "")

  datatype FormField = NameField | EmailField | PhoneField | BirthdayField

  /** The dialog's state; an error entry holding "" counts as no error. */
  datatype DialogState = DialogState(
    isOpen: bool,
    showSuccess: bool,
    form: CustomerForm,
    errors: map<FormField, string>)

  const InitialState := DialogState(false, false, EmptyForm, map[])

  // ---------------------------------------------------------------- validation

  /** `validate`: the error of each field, and whether there is none. */
  function Validate(form: CustomerForm): (errors: map<FormField, string>)
    ensures NameField in errors <==> Blank(form.name)
    ensures NameField in errors ==> errors[NameField] == NameRequired
    ensures EmailField in errors <==> !Utils.IsValidEmail(form.email)
    ensures EmailField in errors ==> errors[EmailField] == (if Blank(form.email) then EmailRequired else EmailInvalid)
    ensures PhoneField in errors <==> Blank(form.phone) || Utf16Length(form.phone) < MinPhoneLength
    ensures PhoneField in errors ==> errors[PhoneField] == (if Blank(form.phone) then PhoneRequired else PhoneInvalid)
    ensures BirthdayField !in errors
  {
    BlankEmailInvalid(form.email);
    var nameErrors := if Blank(form.name) then map[NameField := NameRequired] else map[];
    var emailErrors :=
      if Blank(form.email) then nameErrors[EmailField := EmailRequired]
      else if !Utils.IsValidEmail(form.email) then nameErrors[EmailField := EmailInvalid]
      else nameErrors;
    if Blank(form.phone) then emailErrors[PhoneField := PhoneRequired]
    else if Utf16Length(form.phone) < MinPhoneLength then emailErrors[PhoneField := PhoneInvalid]
    else emailErrors
  }

  /** A blank address never passes the shape check, so the "required" message is the only one it can get. */
  lemma BlankEmailInvalid(email: string)
    ensures Blank(email) ==> !Utils.IsValidEmail(email)
  {
    if Blank(email) && Utils.IsValidEmail(email) {
      assert false;
    }
  }

  /** The form passes exactly when the name is not blank, the address has the shape and the phone is not blank and has at least ten characters. */
  lemma ValidIff(form: CustomerForm)
    ensures Validate(form) == map[] <==>
      !Blank(form.name) && Utils.IsValidEmail(form.email) && !Blank(form.phone) && Utf16Length(form.phone) >= MinPhoneLength
  {
    var errors := Validate(form);
    if !Blank(form.name) && Utils.IsValidEmail(form.email) && !Blank(form.phone) && Utf16Length(form.phone) >= MinPhoneLength {
      assert errors.Keys == {};
    } else {
      assert NameField in errors || EmailField in errors || PhoneField in errors;
    }
  }

  /** There is no upper bound on the phone: any number of digits from ten on passes. */
  lemma LongPhoneAccepted(digits: string)
    requires AllDigits(digits) && |digits| >= MinPhoneLength
    ensures PhoneField !in Validate(CustomerForm("Ana", "a@b.c", digits, ""))
  {
    assert Utf16Length(digits) >= |digits|;
    assert !IsWhitespace(digits[0]);
  }

  // ---------------------------------------------------------------- editing

  function SetField(form: CustomerForm, field: FormField, value: string): (f: CustomerForm)
    ensures field == NameField ==> f == form.(name := value)
    ensures field == EmailField ==> f == form.(email := value)
    ensures field == PhoneField ==> f == form.(phone := value)
    ensures field == BirthdayField ==> f == form.(birthday := value)
  {
    match field
    case NameField => form.(name := value)
    case EmailField => form.(email := value)
    case PhoneField => form.(phone := value)
    case BirthdayField => form.(birthday := value)
  }

  /** `handleChange`: the phone keeps its digits only, the other fields the text as typed; a shown error is cleared. */
  function HandleChange(state: DialogState, field: FormField, value: string): (s: DialogState)
    ensures field == PhoneField ==> s.form.phone == Digits(value) && AllDigits(s.form.phone)
    ensures field != PhoneField ==> s.form == SetField(state.form, field, value)
    ensures (field in s.errors <==> field in state.errors) && (field in s.errors ==> s.errors[field] == "")
    ensures forall f :: f != field ==> (f in s.errors <==> f in state.errors) && (f in s.errors ==> s.errors[f] == state.errors[f])
    ensures s.isOpen == state.isOpen && s.showSuccess == state.showSuccess
  {
    var stored := if field == PhoneField then Digits(value) else value;
    var errors := if field in state.errors && state.errors[field] != "" then state.errors[field := ""] else state.errors;
    state.(form := SetField(state.form, field, stored), errors := errors)
  }

  /** A stored phone is all digits, so it is blank only when empty and its length is its digit count. */
  lemma StoredPhoneCounts(state: DialogState, value: string)
    ensures var phone := HandleChange(state, PhoneField, value).form.phone;
      && (Blank(phone) <==> phone == [])
      && Utf16Length(phone) == |Digits(value)|
  {
    var phone := Digits(value);
    DigitsLength(phone);
    if phone != [] {
      assert !IsWhitespace(phone[0]);
    }
  }

  lemma {:induction false} DigitsLength(s: string)
    requires AllDigits(s)
    ensures Utf16Length(s) == |s|
  {
    if s != [] {
      DigitsLength(s[1..]);
    }
  }

  // ---------------------------------------------------------------- submission

  /** The customer a valid submission registers; an empty birthday is left out. */
  function NewCustomer(form: CustomerForm, id: string, registeredAt: string): (c: Store.Customer)
    ensures c.promoCode == Some(PromoCode)
    ensures c.birthday.None? <==> form.birthday == []
    ensures c.birthday.Some? ==> c.birthday.value == form.birthday
    ensures c.name == form.name && c.email == form.email && c.phone == form.phone && c.preferences.None?
  {
    Store.Customer(id, form.name, form.email, form.phone,
      if form.birthday == [] then None else Some(form.birthday), None, Some(PromoCode), registeredAt)
  }

  datatype SubmitStep = SubmitStep(state: DialogState, registered: Option<Store.Customer>)

  /** `handleSubmit`: record the errors; when there are none, register the customer and show the success message. */
  function HandleSubmit(state: DialogState, id: string, registeredAt: string): (r: SubmitStep)
    ensures r.state.errors == Validate(state.form)
    ensures r.registered.Some? <==> Validate(state.form) == map[]
    ensures r.registered.Some? ==> r.registered.value == NewCustomer(state.form, id, registeredAt) && r.state.showSuccess
    ensures r.registered.None? ==> r.state == state.(errors := Validate(state.form))
    ensures r.state.form == state.form
  {
    var errors := Validate(state.form);
    if errors != map[] then SubmitStep(state.(errors := errors), None)
    else SubmitStep(state.(errors := errors, showSuccess := true), Some(NewCustomer(state.form, id, registeredAt)))
  }

  /** The delayed reset after a success: message hidden, dialog closed, form cleared; the errors stay. */
  function AfterSuccessDelay(state: DialogState): (s: DialogState)
    ensures !s.showSuccess && !s.isOpen && s.form == EmptyForm && s.errors == state.errors
  {
    state.(showSuccess := false, isOpen := false, form := EmptyForm)
  }

  /** A customer is registered only from a form whose address has the shape and whose phone has ten characters or more. */
  lemma RegisteredCustomerIsValid(state: DialogState, id: string, registeredAt: string)
    requires HandleSubmit(state, id, registeredAt).registered.Some?
    ensures var c := HandleSubmit(state, id, registeredAt).registered.value;
      Utils.IsValidEmail(c.email) && !Blank(c.phone) && Utf16Length(c.phone) >= MinPhoneLength && !Blank(c.name)
  {
    ValidIff(state.form);
  }

  // ---------------------------------------------------------------- display mask

  /** `formatPhone`: the digits as `(DD) DDDDD-DDDD`; at most eleven are shown. */
  function MaskPhone(phone: string): (r: string)
    ensures Digits(r) == LV.LeadingDigits(phone, 11)
    ensures |Digits(phone)| <= 2 ==> r == Digits(phone)
    ensures |Digits(phone)| == 7 ==> r[|r| - 1] == '-'
  {
    var c := Digits(phone);
    if |c| <= 2 then c
    else if |c| <= 6 then
      LV.PhoneMaskDigits(c);
      "(" + c[..2] + ") " + c[2..]
    else
      var tail := c[7..LV.Min(11, |c|)];
      LV.DigitsOfMask("(", c[..2], ") ", c[2..7], "-", tail);
      assert c[..2] + c[2..7] + tail == c[..LV.Min(11, |c|)];
      "(" + c[..2] + ") " + c[2..7] + "-" + c[7..LV.Min(11, |c|)]
  }

  /** The legacy mask and the lead form's mask agree except at seven digits, where the legacy one adds a dangling `-`. */
  lemma MaskAgreesWithLeadForm(phone: string)
    ensures |Digits(phone)| != 7 ==> MaskPhone(phone) == LV.FormatPhoneInput(phone)
    ensures |Digits(phone)| == 7 ==> MaskPhone(phone) == LV.FormatPhoneInput(phone) + "-"
  {
    var c := Digits(phone);
    var d := LV.LeadingDigits(phone, 11);
    if |c| > 7 {
      assert d[..2] == c[..2] && d[2..7] == c[2..7];
    } else if 2 < |c| {
      assert d == c;
    }
  }

  /** Masking the masked text changes nothing. */
  lemma MaskPhoneIdempotent(phone: string)
    ensures MaskPhone(MaskPhone(phone)) == MaskPhone(phone)
  {
    var d := LV.LeadingDigits(phone, 11);
    assert LV.LeadingDigits(MaskPhone(phone), 11) == d;
    var c := Digits(phone);
    if |c| >= 7 {
      assert |Digits(MaskPhone(phone))| == LV.Min(11, |c|);
      MaskAgreesWithLeadForm(phone);
      MaskAgreesWithLeadForm(MaskPhone(phone));
      LV.FormatPhoneInputIdempotent(phone);
    } else {
      MaskAgreesWithLeadForm(phone);
      MaskAgreesWithLeadForm(MaskPhone(phone));
    }
  }
}

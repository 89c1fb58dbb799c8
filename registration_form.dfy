/** The patient's registration form: what each input handler stores, the
    phone and postal-code formatting as the patient types, the checks run
    before submitting, and the body submitted to the registration route. */
module RegistrationForm {
  import opened Common
  import opened Text
  import Registration

  // ---------------------------------------------------------------------
  // Address normalisation

  /** The printable ASCII range U+0021..U+007E that the form widens. */
  predicate IsNarrow(c: char)
  {
    '!' <= c <= '~'
  }

  /** The full-width forms U+FF01..U+FF5E. */
  predicate IsWide(c: char)
  {
    '\U{FF01}' <= c <= '\U{FF5E}'
  }

  /** A printable ASCII character moved to its full-width form (+0xFEE0). */
  function Widen(c: char): (w: char)
    requires IsNarrow(c)
    ensures IsWide(w) && w as int == c as int + 0xFEE0
  {
    (c as int + 0xFEE0) as char
  }

  /** normalizeAddress: every character of U+0021..U+007E replaced by its
      full-width form, every other character kept. */
  function NormalizeAddress(s: string): (r: string)
    ensures |r| == |s|
    ensures forall i :: 0 <= i < |s| ==> r[i] == if IsNarrow(s[i]) then Widen(s[i]) else s[i]
  {
    seq(|s|, i requires 0 <= i < |s| => if IsNarrow(s[i]) then Widen(s[i]) else s[i])
  }

  /** The output holds no printable ASCII, so normalising twice changes
      nothing more. */
  lemma NormalizeIsIdempotent(s: string)
    ensures forall i :: 0 <= i < |NormalizeAddress(s)| ==> !IsNarrow(NormalizeAddress(s)[i])
    ensures NormalizeAddress(NormalizeAddress(s)) == NormalizeAddress(s)
  {
    var once := NormalizeAddress(s);
    assert forall i :: 0 <= i < |s| ==> !IsNarrow(once[i]);
  }

  /** The inverse map on the full-width forms. */
  function Narrow(s: string): (r: string)
    ensures |r| == |s|
  {
    seq(|s|, i requires 0 <= i < |s| =>
      if IsWide(s[i]) then (s[i] as int - 0xFEE0) as char else s[i])
  }

  /** An address without full-width forms is recovered from its normalised
      form: no two addresses of that kind are sent alike. */
  lemma {:induction false} NarrowUndoesNormalize(s: string)
    requires forall i :: 0 <= i < |s| ==> !IsWide(s[i])
    ensures Narrow(NormalizeAddress(s)) == s
  {
    var n := NormalizeAddress(s);
    forall i | 0 <= i < |s|
      ensures Narrow(n)[i] == s[i]
    {
      if IsNarrow(s[i]) {
        assert IsWide(n[i]);
      } else {
        assert n[i] == s[i];
      }
    }
  }

  /** Normalising does not turn a visible address into a blank one, nor a
      blank one into a visible one. */
  lemma NormalizeKeepsBlankness(s: string)
    ensures IsBlank(NormalizeAddress(s)) <==> IsBlank(s)
  {
    var n := NormalizeAddress(s);
    if !IsBlank(s) {
      var i :| 0 <= i < |s| && !IsJsWhitespace(s[i]);
      assert !IsJsWhitespace(n[i]);
    }
    if !IsBlank(n) {
      var i :| 0 <= i < |n| && !IsJsWhitespace(n[i]);
      assert !IsJsWhitespace(s[i]);
    }
  }

  // ---------------------------------------------------------------------
  // Typing

  /** value.slice(0, n). */
  function Take(s: string, n: nat): (r: string)
    ensures |r| <= n && |r| <= |s| && r == s[..|r|]
    ensures |s| <= n ==> r == s
    ensures |s| > n ==> |r| == n
  {
    if |s| <= n then s else s[..n]
  }

  /** The value handleChange stores: the birth date and postal code keep
      only their digits, cut to 8 and 7, any other field the raw value. */
  function Processed(name: Registration.Field, value: string): (r: string)
    ensures name == Registration.DobField ==> r == Take(KeepDigits(value), 8)
    ensures name == Registration.PostalField ==> r == Take(KeepDigits(value), 7)
    ensures name != Registration.DobField && name != Registration.PostalField ==> r == value
  {
    if name == Registration.DobField then Take(KeepDigits(value), 8)
    else if name == Registration.PostalField then Take(KeepDigits(value), 7)
    else value
  }

  /** A stored birth date is at most eight digits. */
  lemma ProcessedDobIsShortDigits(value: string)
    ensures AllDigits(Processed(Registration.DobField, value))
    ensures |Processed(Registration.DobField, value)| <= 8
  {
  }

  /** The form state with one field replaced. */
  function WithField(form: Registration.PatientInput, name: Registration.Field, value: string): (r: Registration.PatientInput)
    ensures Registration.FieldValue(r, name) == value
    ensures forall f :: f != name ==> Registration.FieldValue(r, f) == Registration.FieldValue(form, f)
  {
    match name
    case LastNameField => form.(lastName := value)
    case FirstNameField => form.(firstName := value)
    case GenderField => form.(gender := value)
    case DobField => form.(dateOfBirth := value)
    case PhoneField => form.(phoneNumber := value)
    case PostalField => form.(postalCode := value)
    case AddressField => form.(address := value)
  }

  /** formatPhoneNumber: the digits of the input grouped 3-4-rest; an input
      of more than eleven digits leaves the stored value unchanged. */
  function FormatPhoneNumber(value: string, previous: string): (r: string)
    ensures |KeepDigits(value)| > 11 ==> r == previous
    ensures |KeepDigits(value)| <= 3 ==> r == KeepDigits(value)
    ensures 3 < |KeepDigits(value)| <= 7 ==> (
      var d := KeepDigits(value);
      r == d[..3] + "-" + d[3..])
    ensures 7 < |KeepDigits(value)| <= 11 ==> (
      var d := KeepDigits(value);
      r == d[..3] + "-" + d[3..7] + "-" + d[7..])
  {
    var cleaned := KeepDigitsAndHyphens(value);
    var numbers := Remove(cleaned, '-');
    RemoveHyphensOfFiltered(value);
    if |numbers| > 11 then previous
    else if |numbers| > 7 then numbers[..3] + "-" + numbers[3..7] + "-" + numbers[7..]
    else if |numbers| > 3 then numbers[..3] + "-" + numbers[3..]
    else numbers
  }

  /** formatPostalCode: the digits of the input as ddd-rest; an input of
      more than seven digits leaves the stored value unchanged. */
  function FormatPostalCode(value: string, previous: string): (r: string)
    ensures |KeepDigits(value)| > 7 ==> r == previous
    ensures |KeepDigits(value)| <= 3 ==> r == KeepDigits(value)
    ensures 3 < |KeepDigits(value)| <= 7 ==> (
      var d := KeepDigits(value);
      r == d[..3] + "-" + d[3..])
  {
    var cleaned := KeepDigitsAndHyphens(value);
    var numbers := Remove(cleaned, '-');
    RemoveHyphensOfFiltered(value);
    if |numbers| > 7 then previous
    else if |numbers| > 3 then numbers[..3] + "-" + numbers[3..]
    else numbers
  }

  /** Where the input has at most eleven digits, deleting the '-' of the
      formatted number gives its digits, and formatting again (as the next
      keystroke does) leaves it as it is. */
  lemma {:induction false} FormatPhoneNumberRoundTrip(value: string, previous: string, other: string)
    requires |KeepDigits(value)| <= 11
    ensures Remove(FormatPhoneNumber(value, previous), '-') == KeepDigits(value)
    ensures FormatPhoneNumber(FormatPhoneNumber(value, previous), other) == FormatPhoneNumber(value, previous)
  {
    var d := KeepDigits(value);
    var r := FormatPhoneNumber(value, previous);
    if |d| > 7 {
      ThreeGroups(d[..3], d[3..7], d[7..]);
      assert d[..3] + d[3..7] + d[7..] == d;
    } else if |d| > 3 {
      TwoGroups(d[..3], d[3..]);
      assert d[..3] + d[3..] == d;
    } else {
      RemoveAbsent(d, '-');
      KeepDigitsOfDigits(d);
    }
    assert KeepDigits(r) == d;
  }

  /** The same for postal codes of at most seven digits. */
  lemma {:induction false} FormatPostalCodeRoundTrip(value: string, previous: string, other: string)
    requires |KeepDigits(value)| <= 7
    ensures Remove(FormatPostalCode(value, previous), '-') == KeepDigits(value)
    ensures FormatPostalCode(FormatPostalCode(value, previous), other) == FormatPostalCode(value, previous)
  {
    var d := KeepDigits(value);
    var r := FormatPostalCode(value, previous);
    if |d| > 3 {
      TwoGroups(d[..3], d[3..]);
      assert d[..3] + d[3..] == d;
    } else {
      RemoveAbsent(d, '-');
      KeepDigitsOfDigits(d);
    }
    assert KeepDigits(r) == d;
  }

  // ---------------------------------------------------------------------
  // Checks before submitting

  /** The messages of validateForm, in the order it checks them. */
  datatype FormError =
    | LastNameRequired
    | FirstNameRequired
    | GenderRequired
    | DobRequired
    | DobLength
    | PhoneFormat
    | PostalRequired
    | PostalFormat
    | AddressRequired

  function FormRank(e: FormError): (r: nat)
    ensures r < 9
  {
    match e
    case LastNameRequired => 0
    case FirstNameRequired => 1
    case GenderRequired => 2
    case DobRequired => 3
    case DobLength => 4
    case PhoneFormat => 5
    case PostalRequired => 6
    case PostalFormat => 7
    case AddressRequired => 8
  }

  function FormCheckOfRank(k: nat): (e: FormError)
    requires k < 9
    ensures FormRank(e) == k
  {
    if k == 0 then LastNameRequired
    else if k == 1 then FirstNameRequired
    else if k == 2 then GenderRequired
    else if k == 3 then DobRequired
    else if k == 4 then DobLength
    else if k == 5 then PhoneFormat
    else if k == 6 then PostalRequired
    else if k == 7 then PostalFormat
    else AddressRequired
  }

  /** The condition under which each message is shown. */
  predicate FormReports(form: Registration.PatientInput, e: FormError)
  {
    match e
    case LastNameRequired => Trim(form.lastName) == []
    case FirstNameRequired => Trim(form.firstName) == []
    case GenderRequired => form.gender == []
    case DobRequired => KeepDigits(form.dateOfBirth) == []
    case DobLength => KeepDigits(form.dateOfBirth) != [] && |KeepDigits(form.dateOfBirth)| != 8
    case PhoneFormat =>
      var phone := Remove(form.phoneNumber, '-');
      !(AllDigits(phone) && 10 <= |phone| <= 11)
    case PostalRequired => Remove(form.postalCode, '-') == []
    case PostalFormat =>
      var postal := Remove(form.postalCode, '-');
      postal != [] && !(AllDigits(postal) && |postal| == 7)
    case AddressRequired => Trim(form.address) == []
  }

  /** The messages of the first k checks, in check order. */
  function FormReportsBelow(form: Registration.PatientInput, k: nat): seq<FormError>
    requires k <= 9
  {
    if k == 0 then []
    else
      var e := FormCheckOfRank(k - 1);
      FormReportsBelow(form, k - 1) + if FormReports(form, e) then [e] else []
  }

  lemma FormRankInjective(a: FormError, b: FormError)
    ensures FormRank(a) == FormRank(b) ==> a == b
  {
  }

  predicate FormRanked(errors: seq<FormError>)
  {
    forall i, j :: 0 <= i < j < |errors| ==> FormRank(errors[i]) < FormRank(errors[j])
  }

  /** The first k checks report, in rank order, exactly the messages of
      rank below k whose condition holds. */
  lemma {:induction false} FormReportsBelowMeaning(form: Registration.PatientInput, k: nat)
    requires k <= 9
    ensures forall e :: e in FormReportsBelow(form, k) <==> FormRank(e) < k && FormReports(form, e)
    ensures forall i :: 0 <= i < |FormReportsBelow(form, k)| ==> FormRank(FormReportsBelow(form, k)[i]) < k
    ensures FormRanked(FormReportsBelow(form, k))
  {
    if k > 0 {
      FormReportsBelowMeaning(form, k - 1);
      forall x
        ensures FormRank(x) == k - 1 ==> x == FormCheckOfRank(k - 1)
      {
        FormRankInjective(x, FormCheckOfRank(k - 1));
      }
    }
  }

  /** One check: its message is appended exactly when it reports. */
  lemma FormStep(form: Registration.PatientInput, errors: seq<FormError>, k: nat)
    requires k < 9 && errors == FormReportsBelow(form, k)
    ensures FormReports(form, FormCheckOfRank(k)) ==> errors + [FormCheckOfRank(k)] == FormReportsBelow(form, k + 1)
    ensures !FormReports(form, FormCheckOfRank(k)) ==> errors == FormReportsBelow(form, k + 1)
  {
  }

  lemma AllFormChecksRun(form: Registration.PatientInput, errors: seq<FormError>)
    requires errors == FormReportsBelow(form, 9)
    ensures forall e :: e in errors <==> FormReports(form, e)
    ensures FormRanked(errors)
  {
    FormReportsBelowMeaning(form, 9);
  }

  /** The first half of validateForm: the two names, the gender and the
      birth date (a missing date, else a date without eight digits). */
  method PersonalChecks(form: Registration.PatientInput) returns (errors: seq<FormError>)
    ensures errors == FormReportsBelow(form, 5)
  {
    errors := [];
    FormStep(form, errors, 0);
    if Trim(form.lastName) == [] {
      errors := errors + [LastNameRequired];
    }
    FormStep(form, errors, 1);
    if Trim(form.firstName) == [] {
      errors := errors + [FirstNameRequired];
    }
    FormStep(form, errors, 2);
    if form.gender == [] {
      errors := errors + [GenderRequired];
    }
    var birthDate := KeepDigits(form.dateOfBirth);
    FormStep(form, errors, 3);
    if birthDate == [] {
      errors := errors + [DobRequired];
      FormStep(form, errors, 4);
    } else {
      FormStep(form, errors, 4);
      if |birthDate| != 8 {
        errors := errors + [DobLength];
      }
    }
  }

  /** The second half: the phone number without '-' (ten or eleven digits),
      the postal code without '-' (missing, else not seven digits) and the
      address. */
  method ContactChecks(form: Registration.PatientInput, personal: seq<FormError>) returns (errors: seq<FormError>)
    requires personal == FormReportsBelow(form, 5)
    ensures errors == FormReportsBelow(form, 9)
  {
    errors := personal;
    var cleanPhone := Remove(form.phoneNumber, '-');
    FormStep(form, errors, 5);
    if !(AllDigits(cleanPhone) && 10 <= |cleanPhone| <= 11) {
      errors := errors + [PhoneFormat];
    }
    var cleanPostal := Remove(form.postalCode, '-');
    FormStep(form, errors, 6);
    if cleanPostal == [] {
      errors := errors + [PostalRequired];
      FormStep(form, errors, 7);
    } else {
      FormStep(form, errors, 7);
      if !(AllDigits(cleanPostal) && |cleanPostal| == 7) {
        errors := errors + [PostalFormat];
      }
    }
    FormStep(form, errors, 8);
    if Trim(form.address) == [] {
      errors := errors + [AddressRequired];
    }
  }

  /** The form the client lets through. */
  predicate FormAcceptable(form: Registration.PatientInput)
  {
    var phone := Remove(form.phoneNumber, '-');
    var postal := Remove(form.postalCode, '-');
    && !IsBlank(form.lastName) && !IsBlank(form.firstName)
    && form.gender != []
    && |KeepDigits(form.dateOfBirth)| == 8
    && AllDigits(phone) && 10 <= |phone| <= 11
    && AllDigits(postal) && |postal| == 7
    && !IsBlank(form.address)
  }

  /** No message is shown exactly when the form is acceptable. */
  lemma NoFormReportIffAcceptable(form: Registration.PatientInput)
    ensures (forall e :: !FormReports(form, e)) <==> FormAcceptable(form)
  {
    TrimProperties(form.lastName);
    TrimProperties(form.firstName);
    TrimProperties(form.address);
    if forall e :: !FormReports(form, e) {
      assert !FormReports(form, LastNameRequired) && !FormReports(form, FirstNameRequired);
      assert !FormReports(form, GenderRequired) && !FormReports(form, DobRequired);
      assert !FormReports(form, DobLength) && !FormReports(form, PhoneFormat);
      assert !FormReports(form, PostalRequired) && !FormReports(form, PostalFormat);
      assert !FormReports(form, AddressRequired);
    }
  }

  /** The JSON body of the submission: the birth date's digits, phone and
      postal code without '-', the address normalised. */
  function SubmitBody(form: Registration.PatientInput): (body: Registration.PatientInput)
    ensures body.lastName == form.lastName && body.firstName == form.firstName && body.gender == form.gender
    ensures body.dateOfBirth == KeepDigits(form.dateOfBirth)
    ensures body.phoneNumber == Remove(form.phoneNumber, '-')
    ensures body.postalCode == Remove(form.postalCode, '-')
    ensures body.address == NormalizeAddress(form.address)
  {
    form.(dateOfBirth := KeepDigits(form.dateOfBirth), phoneNumber := Remove(form.phoneNumber, '-'),
          postalCode := Remove(form.postalCode, '-'), address := NormalizeAddress(form.address))
  }

  /** A body the client lets through, with a gender from the select's
      options, passes the route's required-field check and its validation. */
  lemma {:induction false} AcceptedFormPassesServer(form: Registration.PatientInput)
    requires FormAcceptable(form)
    requires form.gender == "male" || form.gender == "female"
    ensures Registration.Acceptable(SubmitBody(form))
    ensures forall f :: Registration.FieldValue(SubmitBody(form), f) != []
  {
    var body := SubmitBody(form);
    RemoveAbsent(body.phoneNumber, '-');
    RemoveAbsent(body.postalCode, '-');
    NormalizeKeepsBlankness(form.address);
    assert forall s: string :: !IsBlank(s) ==> s != [];
  }

  // ---------------------------------------------------------------------
  // The component

  /** The form component's state. */
  class Form {
    var formData: Registration.PatientInput

    constructor()
      ensures forall f :: Registration.FieldValue(formData, f) == []
    {
      formData := Registration.PatientInput("", "", "", "", "", "", "");
    }

    /** handleChange: stores the processed value in the named field. */
    method HandleChange(name: Registration.Field, value: string)
      modifies this
      ensures formData == WithField(old(formData), name, Processed(name, value))
    {
      formData := WithField(formData, name, Processed(name, value));
    }

    /** handlePhoneNumberChange. */
    method HandlePhoneNumberChange(value: string)
      modifies this
      ensures formData == old(formData).(phoneNumber := FormatPhoneNumber(value, old(formData.phoneNumber)))
    {
      formData := formData.(phoneNumber := FormatPhoneNumber(value, formData.phoneNumber));
    }

    /** handlePostalCodeChange. */
    method HandlePostalCodeChange(value: string)
      modifies this
      ensures formData == old(formData).(postalCode := FormatPostalCode(value, old(formData.postalCode)))
    {
      formData := formData.(postalCode := FormatPostalCode(value, formData.postalCode));
    }

    /** validateForm: each message exactly when its condition holds, in
        check order. */
    method ValidateForm() returns (errors: seq<FormError>)
      ensures forall e :: e in errors <==> FormReports(formData, e)
      ensures FormRanked(errors)
    {
      var personal := PersonalChecks(formData);
      errors := ContactChecks(formData, personal);
      AllFormChecksRun(formData, errors);
    }

    /** handleSubmit up to the request: the messages when a check fails,
        otherwise the body sent. */
    method Submit() returns (r: Result<Registration.PatientInput, seq<FormError>>)
      ensures r.Err? <==> !FormAcceptable(formData)
      ensures r.Err? ==> r.error != [] && forall e :: e in r.error <==> FormReports(formData, e)
      ensures r.Err? ==> FormRanked(r.error)
      ensures r.Ok? ==> r.value == SubmitBody(formData)
    {
      var errors := ValidateForm();
      NoFormReportIffAcceptable(formData);
      if |errors| > 0 {
        assert errors[0] in errors;
        return Err(errors);
      }
      r := Ok(SubmitBody(formData));
    }
  }
}

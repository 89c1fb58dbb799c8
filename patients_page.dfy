/** The administrator's patient list: how the postal code and the phone
    number of each stored patient are displayed. */
module PatientsPage {
  import opened Common
  import opened Text
  import Registration

  /** formatPostalCode: a missing or empty code shows as empty; a code with
      exactly seven digits shows as ddd-dddd; any other code is shown as
      stored. */
  function FormatPostalCode(code: Option<string>): (r: string)
    ensures code.None? || code.value == [] ==> r == []
    ensures code.Some? && code.value != [] && |KeepDigits(code.value)| != 7 ==> r == code.value
    ensures code.Some? && |KeepDigits(code.value)| == 7 ==>
      |r| == 8 && r[3] == '-' && r[..3] + r[4..] == KeepDigits(code.value)
  {
    if code.None? || code.value == [] then []
    else
      var cleanCode := KeepDigits(code.value);
      if |cleanCode| != 7 then code.value
      else
        var r := cleanCode[..3] + "-" + cleanCode[3..];
        assert r[..3] + r[4..] == cleanCode;
        r
  }

  /** formatPhoneNumber: a missing or empty number shows as empty; eleven
      digits show as ddd-dddd-dddd, ten digits as ddd-ddd-dddd; any other
      number is shown as stored. */
  function FormatPhoneNumber(number: Option<string>): (r: string)
    ensures number.None? || number.value == [] ==> r == []
    ensures (number.Some? && number.value != []
             && |KeepDigits(number.value)| != 10 && |KeepDigits(number.value)| != 11) ==> r == number.value
    ensures number.Some? && |KeepDigits(number.value)| == 11 ==>
      |r| == 13 && r[3] == '-' && r[8] == '-' && r[..3] + r[4..8] + r[9..] == KeepDigits(number.value)
    ensures number.Some? && |KeepDigits(number.value)| == 10 ==>
      |r| == 12 && r[3] == '-' && r[7] == '-' && r[..3] + r[4..7] + r[8..] == KeepDigits(number.value)
  {
    if number.None? || number.value == [] then []
    else
      var cleanNumber := KeepDigits(number.value);
      if |cleanNumber| == 11 then
        var r := cleanNumber[..3] + "-" + cleanNumber[3..7] + "-" + cleanNumber[7..];
        assert r[..3] + r[4..8] + r[9..] == cleanNumber;
        r
      else if |cleanNumber| == 10 then
        var r := cleanNumber[..3] + "-" + cleanNumber[3..6] + "-" + cleanNumber[6..];
        assert r[..3] + r[4..7] + r[8..] == cleanNumber;
        r
      else number.value
  }

  /** The displayed code has the digits of the stored one; where it was
      regrouped, deleting the '-' gives back exactly those digits. */
  lemma {:induction false} PostalDisplayKeepsDigits(code: Option<string>)
    requires code.Some?
    ensures KeepDigits(FormatPostalCode(code)) == KeepDigits(code.value)
    ensures |KeepDigits(code.value)| == 7 ==>
      Remove(FormatPostalCode(code), '-') == KeepDigits(code.value)
  {
    var d := KeepDigits(code.value);
    if |d| == 7 {
      TwoGroups(d[..3], d[3..]);
      assert d[..3] + d[3..] == d;
    } else if code.value == [] {
      assert KeepDigits([]) == [];
    }
  }

  /** Formatting a displayed code again changes nothing. */
  lemma {:induction false} PostalDisplayIsIdempotent(code: Option<string>)
    ensures FormatPostalCode(Some(FormatPostalCode(code))) == FormatPostalCode(code)
  {
    if code.Some? && code.value != [] {
      PostalDisplayKeepsDigits(code);
    }
  }

  /** The displayed number has the digits of the stored one; where it was
      regrouped, deleting the '-' gives back exactly those digits. */
  lemma {:induction false} PhoneDisplayKeepsDigits(number: Option<string>)
    requires number.Some?
    ensures KeepDigits(FormatPhoneNumber(number)) == KeepDigits(number.value)
    ensures |KeepDigits(number.value)| == 10 || |KeepDigits(number.value)| == 11 ==>
      Remove(FormatPhoneNumber(number), '-') == KeepDigits(number.value)
  {
    var d := KeepDigits(number.value);
    if |d| == 11 {
      ThreeGroups(d[..3], d[3..7], d[7..]);
      assert d[..3] + d[3..7] + d[7..] == d;
    } else if |d| == 10 {
      ThreeGroups(d[..3], d[3..6], d[6..]);
      assert d[..3] + d[3..6] + d[6..] == d;
    } else if number.value == [] {
      assert KeepDigits([]) == [];
    }
  }

  /** Formatting a displayed number again changes nothing. */
  lemma {:induction false} PhoneDisplayIsIdempotent(number: Option<string>)
    ensures FormatPhoneNumber(Some(FormatPhoneNumber(number))) == FormatPhoneNumber(number)
  {
    if number.Some? && number.value != [] {
      PhoneDisplayKeepsDigits(number);
    }
  }

  /** A patient saved by the registration route is always shown regrouped:
      its stored phone number and postal code are digits only, of the
      lengths the display formats, and deleting the '-' of what is shown
      gives back what is stored. */
  lemma {:induction false} RegisteredPatientDisplay(lineUserId: string, patientId: string,
                                                    data: Registration.PatientInput, dateOfBirth: string)
    requires Registration.Acceptable(data)
    ensures var p := Registration.NewPatient(lineUserId, patientId, data, dateOfBirth);
      && FormatPhoneNumber(Some(p.phoneNumber)) != p.phoneNumber
      && Remove(FormatPhoneNumber(Some(p.phoneNumber)), '-') == p.phoneNumber
      && FormatPostalCode(Some(p.postalCode)) != p.postalCode
      && Remove(FormatPostalCode(Some(p.postalCode)), '-') == p.postalCode
  {
    var p := Registration.NewPatient(lineUserId, patientId, data, dateOfBirth);
    KeepDigitsOfDigits(p.phoneNumber);
    KeepDigitsOfDigits(p.postalCode);
    PhoneDisplayKeepsDigits(Some(p.phoneNumber));
    PostalDisplayKeepsDigits(Some(p.postalCode));
    assert '-' in FormatPhoneNumber(Some(p.phoneNumber));
    assert '-' in FormatPostalCode(Some(p.postalCode));
  }
}

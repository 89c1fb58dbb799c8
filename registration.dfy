/** POST /api/patients/register: the checks on a registration form, the
    patient-number generator, the birth-date parser and the record that is
    saved.  The session's LINE user id is an input; the current year is a
    parameter in place of the host clock. */
module Registration {
  import opened Common
  import opened Calendar
  import opened Text

  // ---------------------------------------------------------------------
  // Patient numbers

  /** String order as the database sorts the patientId column: by
      character code, a proper prefix first. */
  predicate LexLeq(a: string, b: string)
    decreases |a|
  {
    a == [] || (b != [] && (a[0] < b[0] || (a[0] == b[0] && LexLeq(a[1..], b[1..]))))
  }

  lemma {:induction false} LexTotal(a: string, b: string)
    ensures LexLeq(a, b) || LexLeq(b, a)
    decreases |a|
  {
    if a != [] && b != [] && a[0] == b[0] {
      LexTotal(a[1..], b[1..]);
    }
  }

  lemma {:induction false} LexTrans(a: string, b: string, c: string)
    requires LexLeq(a, b) && LexLeq(b, c)
    ensures LexLeq(a, c)
    decreases |a|
  {
    if a != [] && a[0] == b[0] && b[0] == c[0] {
      LexTrans(a[1..], b[1..], c[1..]);
    }
  }

  /** `findFirst({ orderBy: { patientId: 'desc' } })`: the greatest stored
      number in string order, none for an empty table. */
  function LatestPatientId(ids: seq<string>): (r: Option<string>)
    ensures r.None? <==> ids == []
    ensures r.Some? ==> r.value in ids && forall x :: x in ids ==> LexLeq(x, r.value)
  {
    if ids == [] then None
    else
      var rest := LatestPatientId(ids[1..]);
      if rest.None? then
        LexTotal(ids[0], ids[0]);
        Some(ids[0])
      else if LexLeq(ids[0], rest.value) then
        assert forall x :: x in ids ==> x == ids[0] || x in ids[1..];
        rest
      else
        LexTotal(ids[0], rest.value);
        forall x | x in ids[1..]
          ensures LexLeq(x, ids[0])
        {
          LexTrans(x, rest.value, ids[0]);
        }
        LexTotal(ids[0], ids[0]);
        Some(ids[0])
  }

  datatype IdError = InvalidPatientId

  /** generatePatientId after the lookup: '00001' for an empty table,
      otherwise String(parseInt(latest) + 1) padded with '0' to five
      characters; a latest number that parseInt reads as NaN is an error. */
  function NextPatientId(latest: Option<string>): (r: Result<string, IdError>)
    ensures latest.None? ==> r == Ok("00001")
    ensures latest.Some? ==> (r.Err? <==> ParseInt(latest.value).None?)
    ensures r.Ok? ==> |r.value| >= 5
    ensures latest.Some? && r.Ok? && ParseInt(latest.value).value + 1 >= 0 ==>
      && AllDigits(r.value)
      && DecimalValue(r.value) == ParseInt(latest.value).value + 1
      && ParseInt(r.value) == Some(ParseInt(latest.value).value + 1)
    ensures latest.Some? && r.Ok? && ParseInt(latest.value).value + 1 < 0 ==> !AllDigits(r.value)
  {
    match latest
    case None => Ok("00001")
    case Some(s) =>
      match ParseInt(s)
      case None => Err(InvalidPatientId)
      case Some(currentNumber) =>
        var next := IntToString(currentNumber + 1);
        var r := PadStart(next, 5, '0');
        if currentNumber + 1 >= 0 then
          assert r == PaddedNumber(currentNumber + 1);
          ParseIntOfDigits(r);
          Ok(r)
        else
          assert r[|r| - |next|] == next[0] == '-';
          Ok(r)
  }

  /** A latest number that parseInt reads as negative gives a next number
      that is not a digit string. */
  lemma NegativeLatestNumber()
    ensures NextPatientId(Some("-3")) == Ok("000-2")
  {
    ParseIntReadsDecimal("-", "3", []);
    assert "-" + "3" + [] == "-3";
    assert NatToDecimal(2) == "2";
    assert IntToString(-2) == "-2";
    assert Repeat('0', 3) == "000" by {
      assert Repeat('0', 1) == "0";
      assert Repeat('0', 2) == "00";
    }
    assert PadStart("-2", 5, '0') == "000-2";
  }

  /** String(n).padStart(5, '0'): the decimal digits of n, at least five of
      them. */
  function PaddedNumber(n: nat): (id: string)
    ensures AllDigits(id) && |id| >= 5 && DecimalValue(id) == n
  {
    var next := NatToDecimal(n);
    LeadingZeros(if |next| >= 5 then 0 else 5 - |next|, next);
    PadStart(next, 5, '0')
  }

  lemma PaddedOne()
    ensures PaddedNumber(1) == "00001"
  {
    assert NatToDecimal(1) == "1";
  }

  /** Once '100000' is stored beside '99999', the string order still picks
      '99999' as the latest, and the generator hands out '100000' again. */
  lemma {:induction false} StringOrderRepeatsNumber()
    ensures LatestPatientId(["99999", "100000"]) == Some("99999")
    ensures NextPatientId(LatestPatientId(["99999", "100000"])) == Ok("100000")
    ensures "100000" in ["99999", "100000"]
  {
    var ids := ["99999", "100000"];
    assert ids[1..] == ["100000"];
    assert LatestPatientId(["100000"]) == Some("100000") by {
      assert ["100000"][1..] == [];
    }
    assert !LexLeq("99999", "100000");
    assert LatestPatientId(ids) == Some("99999");
    ParseNinetyNineThousand();
    HundredThousandDigits();
  }

  lemma ParseNinetyNineThousand()
    ensures ParseInt("99999") == Some(99999)
  {
    ParseIntOfDigits("99999");
    assert "99999"[..4] == "9999" && "9999"[..3] == "999" && "999"[..2] == "99" && "99"[..1] == "9";
  }

  lemma HundredThousandDigits()
    ensures NatToDecimal(100000) == "100000"
  {
    assert NatToDecimal(1) == "1";
    assert NatToDecimal(10) == "10";
    assert NatToDecimal(100) == "100";
    assert NatToDecimal(1000) == "1000";
    assert NatToDecimal(10000) == "10000";
  }

  /** A stored number the generator can read: a non-empty digit string. */
  predicate IsNumericId(s: string)
  {
    |s| > 0 && AllDigits(s)
  }

  /** The greatest value among the numeric stored numbers, 0 if none. */
  function MaxNumericId(ids: seq<string>): (m: nat)
    ensures forall x :: x in ids && IsNumericId(x) ==> DecimalValue(x) <= m
  {
    if ids == [] then 0
    else
      var rest := MaxNumericId(ids[1..]);
      assert forall x :: x in ids ==> x == ids[0] || x in ids[1..];
      if IsNumericId(ids[0]) && DecimalValue(ids[0]) > rest then DecimalValue(ids[0]) else rest
  }

  /** The generator compared by value: one more than the greatest stored
      number, padded to five digits; it never repeats a stored number. */
  function NextPatientIdByValue(ids: seq<string>): (id: string)
    ensures AllDigits(id) && |id| >= 5
    ensures DecimalValue(id) == MaxNumericId(ids) + 1
    ensures id !in ids
    ensures ids == [] ==> id == "00001"
  {
    var id := PaddedNumber(MaxNumericId(ids) + 1);
    AboveMaxIsFresh(ids, id);
    PaddedOne();
    id
  }

  /** A digit string of value above every stored number is not stored. */
  lemma AboveMaxIsFresh(ids: seq<string>, id: string)
    requires IsNumericId(id) && DecimalValue(id) > MaxNumericId(ids)
    ensures id !in ids
  {
  }

  /** Where every stored number is a five-digit string, string order is
      value order and the by-value generator agrees with the generator as
      written. */
  lemma {:induction false} ByValueAgreesOnFiveDigits(ids: seq<string>)
    requires ids != []
    requires forall x :: x in ids ==> |x| == 5 && AllDigits(x)
    ensures NextPatientId(LatestPatientId(ids)) == Ok(NextPatientIdByValue(ids))
  {
    var latest := LatestPatientId(ids).value;
    LatestHasMaxValue(ids);
    ParseIntOfDigits(latest);
  }

  /** On five-digit numbers the latest in string order has the greatest
      value. */
  lemma {:induction false} LatestHasMaxValue(ids: seq<string>)
    requires ids != []
    requires forall x :: x in ids ==> |x| == 5 && AllDigits(x)
    ensures AllDigits(LatestPatientId(ids).value)
    ensures |LatestPatientId(ids).value| > 0
    ensures DecimalValue(LatestPatientId(ids).value) == MaxNumericId(ids)
  {
    var latest := LatestPatientId(ids).value;
    assert latest in ids;
    MaxIsAttained(ids);
    var x :| x in ids && IsNumericId(x) && DecimalValue(x) == MaxNumericId(ids);
    LexOrderIsValueOrder(x, latest);
    assert IsNumericId(latest);
  }

  lemma {:induction false} MaxIsAttained(ids: seq<string>)
    requires ids != [] && forall x :: x in ids ==> IsNumericId(x)
    ensures exists x :: x in ids && IsNumericId(x) && DecimalValue(x) == MaxNumericId(ids)
  {
    var rest := ids[1..];
    assert ids[0] in ids;
    if rest == [] {
      assert MaxNumericId(rest) == 0;
      assert DecimalValue(ids[0]) == MaxNumericId(ids);
    } else {
      assert forall x :: x in rest ==> x in ids;
      MaxIsAttained(rest);
      var x :| x in rest && IsNumericId(x) && DecimalValue(x) == MaxNumericId(rest);
      assert x in ids;
      if DecimalValue(ids[0]) > MaxNumericId(rest) {
        assert DecimalValue(ids[0]) == MaxNumericId(ids);
      } else {
        assert DecimalValue(x) == MaxNumericId(ids);
      }
    }
  }

  /** On digit strings of one length, string order is numeric order. */
  lemma {:induction false} LexOrderIsValueOrder(a: string, b: string)
    requires AllDigits(a) && AllDigits(b) && |a| == |b|
    requires LexLeq(a, b)
    ensures DecimalValue(a) <= DecimalValue(b)
    decreases |a|
  {
    if a != [] {
      HeadValue(a);
      HeadValue(b);
      if a[0] == b[0] {
        LexOrderIsValueOrder(a[1..], b[1..]);
      } else {
        DecimalBound(a[1..]);
        HigherDigitWins(DigitValue(a[0]), DigitValue(b[0]), Pow10(|a| - 1),
                        DecimalValue(a[1..]), DecimalValue(b[1..]));
      }
    }
  }

  /** A smaller leading digit outweighs any tail below the place value. */
  lemma HigherDigitWins(da: nat, db: nat, p: nat, ra: nat, rb: nat)
    requires da < db && ra < p
    ensures da * p + ra <= db * p + rb
  {
    var t := db - da - 1;
    assert db * p == (da + 1 + t) * p;
    assert (da + 1 + t) * p == da * p + p + t * p;
  }

  /** The value of a concatenation of digit strings. */
  lemma {:induction false} ConcatValue(a: string, b: string)
    requires AllDigits(a) && AllDigits(b)
    ensures AllDigits(a + b)
    ensures DecimalValue(a + b) == DecimalValue(a) * Pow10(|b|) + DecimalValue(b)
    decreases |b|
  {
    if b == [] {
      assert a + b == a;
    } else {
      var n := |b| - 1;
      var init := b[..n];
      ConcatValue(a, init);
      assert (a + b)[..|a + b| - 1] == a + init;
      assert (a + b)[|a + b| - 1] == b[n];
      var x, y, p, d := DecimalValue(a), DecimalValue(init), Pow10(n), DigitValue(b[n]);
      assert DecimalValue(a + b) == DecimalValue(a + init) * 10 + d;
      assert DecimalValue(b) == y * 10 + d;
      ShiftDigit(x, p, y, d);
    }
  }

  /** Appending a digit to both sides of a positional split. */
  lemma ShiftDigit(x: int, p: int, y: int, d: int)
    ensures (x * p + y) * 10 + d == x * (10 * p) + (y * 10 + d)
  {
  }

  /** The value of a digit string split after its first digit. */
  lemma {:induction false} HeadValue(s: string)
    requires AllDigits(s) && s != []
    ensures DecimalValue(s) == DigitValue(s[0]) * Pow10(|s| - 1) + DecimalValue(s[1..])
  {
    var head := [s[0]];
    assert head[..0] == [];
    assert s == head + s[1..];
    ConcatValue(head, s[1..]);
  }

  // ---------------------------------------------------------------------
  // Birth date

  datatype DobError = NotEightDigits | InvalidDate

  /** The triple names a day of the Gregorian calendar. */
  predicate ExistingDate(year: int, month: int, day: int)
  {
    1 <= month <= 12 && 1 <= day <= DaysInMonth(year, month)
  }

  /** The template `${year}-${MM}-${DD}` with month and day padded to two
      digits. */
  function FormatDate(year: nat, month: nat, day: nat): string
  {
    NatToDecimal(year) + "-" + PadStart(NatToDecimal(month), 2, '0') + "-" + PadStart(NatToDecimal(day), 2, '0')
  }

  /** parseDateFromNumber: 'YYYYMMDD' to 'YYYY-MM-DD'.  The check that
      Date.UTC(year, month - 1, day) reads back the same fields holds
      exactly when the triple is an existing date. */
  function ParseDateFromNumber(s: string, currentYear: int): (r: Result<string, DobError>)
    ensures r == Err(NotEightDigits) <==> !(|s| == 8 && AllDigits(s))
    ensures r.Ok? <==> (
      && |s| == 8 && AllDigits(s)
      && 1900 <= DecimalValue(s[..4]) <= currentYear
      && ExistingDate(DecimalValue(s[..4]), DecimalValue(s[4..6]), DecimalValue(s[6..])))
  {
    if !(|s| == 8 && AllDigits(s)) then Err(NotEightDigits)
    else
      var year := DecimalValue(s[..4]);
      var month := DecimalValue(s[4..6]);
      var day := DecimalValue(s[6..]);
      if !ExistingDate(year, month, day) || year < 1900 || year > currentYear then Err(InvalidDate)
      else Ok(FormatDate(year, month, day))
  }

  /** The output is the ISO 8601 extended form of the input: ten characters
      with '-' at positions 4 and 7, and deleting the '-' gives the input. */
  lemma {:induction false} BirthDateRoundTrip(s: string, currentYear: int)
    requires ParseDateFromNumber(s, currentYear).Ok?
    ensures var out := ParseDateFromNumber(s, currentYear).value;
      |out| == 10 && out[4] == '-' && out[7] == '-' && Remove(out, '-') == s
  {
    var y, m, d := s[..4], s[4..6], s[6..];
    assert AllDigits(y) && AllDigits(m) && AllDigits(d);
    FormatFields(y, m, d);
    assert y + m + d == s;
  }

  /** Formatting the values of three digit fields of widths 4, 2 and 2,
      the first from 1900 on, joins the fields with '-'. */
  lemma {:induction false} FormatFields(y: string, m: string, d: string)
    requires |y| == 4 && |m| == 2 && |d| == 2
    requires AllDigits(y) && AllDigits(m) && AllDigits(d)
    requires DecimalValue(y) >= 1900
    ensures FormatDate(DecimalValue(y), DecimalValue(m), DecimalValue(d)) == y + "-" + m + "-" + d
    ensures Remove(y + "-" + m + "-" + d, '-') == y + m + d
  {
    YearField(y);
    CanonicalPad(m);
    CanonicalPad(d);
    RemoveSeparators(y, m, d);
  }

  /** A four-digit year from 1900 on is written back as the same four
      digits. */
  lemma {:induction false} YearField(y: string)
    requires |y| == 4 && AllDigits(y) && DecimalValue(y) >= 1900
    ensures NatToDecimal(DecimalValue(y)) == y
  {
    var x := NatToDecimal(DecimalValue(y));
    CanonicalPad(y);
    HeadValue(y);
    DecimalBound(y[1..]);
    assert Pow10(3) == 1000;
    assert y[0] != '0';
    var p := PadStart(x, 4, '0');
    assert p[0] == if |x| < 4 then '0' else x[0];
    assert |x| == 4;
  }

  // ---------------------------------------------------------------------
  // Validation

  datatype PatientInput = PatientInput(
    lastName: string,
    firstName: string,
    gender: string,
    dateOfBirth: string,
    phoneNumber: string,
    postalCode: string,
    address: string)

  /** The messages of validateData, in the order it checks them. */
  datatype ValidationError =
    | PhoneNotDigits
    | PhoneLength
    | PostalMissing
    | PostalFormat
    | LastNameMissing
    | FirstNameMissing
    | GenderInvalid
    | DobMissing
    | DobFormat
    | AddressMissing

  function Rank(e: ValidationError): (r: nat)
    ensures r < 10
  {
    match e
    case PhoneNotDigits => 0
    case PhoneLength => 1
    case PostalMissing => 2
    case PostalFormat => 3
    case LastNameMissing => 4
    case FirstNameMissing => 5
    case GenderInvalid => 6
    case DobMissing => 7
    case DobFormat => 8
    case AddressMissing => 9
  }

  /** The condition under which each message is reported. */
  predicate Reports(data: PatientInput, e: ValidationError)
  {
    match e
    case PhoneNotDigits =>
      var phone := Remove(data.phoneNumber, '-');
      !(|phone| > 0 && AllDigits(phone))
    case PhoneLength =>
      var phone := Remove(data.phoneNumber, '-');
      |phone| != 10 && |phone| != 11
    case PostalMissing => Remove(data.postalCode, '-') == []
    case PostalFormat =>
      var postal := Remove(data.postalCode, '-');
      postal != [] && !(|postal| == 7 && AllDigits(postal))
    case LastNameMissing => Trim(data.lastName) == []
    case FirstNameMissing => Trim(data.firstName) == []
    case GenderInvalid => data.gender != "male" && data.gender != "female"
    case DobMissing => data.dateOfBirth == []
    case DobFormat => data.dateOfBirth != [] && !(|data.dateOfBirth| == 8 && AllDigits(data.dateOfBirth))
    case AddressMissing => Trim(data.address) == []
  }

  predicate StrictlyRanked(errors: seq<ValidationError>)
  {
    forall i, j :: 0 <= i < j < |errors| ==> Rank(errors[i]) < Rank(errors[j])
  }

  /** The check of rank k. */
  function CheckOfRank(k: nat): (e: ValidationError)
    requires k < 10
    ensures Rank(e) == k
  {
    if k == 0 then PhoneNotDigits
    else if k == 1 then PhoneLength
    else if k == 2 then PostalMissing
    else if k == 3 then PostalFormat
    else if k == 4 then LastNameMissing
    else if k == 5 then FirstNameMissing
    else if k == 6 then GenderInvalid
    else if k == 7 then DobMissing
    else if k == 8 then DobFormat
    else AddressMissing
  }

  /** The messages of the first k checks, in check order. */
  function ReportsBelow(data: PatientInput, k: nat): seq<ValidationError>
    requires k <= 10
  {
    if k == 0 then []
    else
      var e := CheckOfRank(k - 1);
      ReportsBelow(data, k - 1) + if Reports(data, e) then [e] else []
  }

  lemma RankInjective(a: ValidationError, b: ValidationError)
    ensures Rank(a) == Rank(b) ==> a == b
  {
  }

  /** The first k checks report, in rank order, exactly the messages of
      rank below k whose condition holds. */
  lemma {:induction false} ReportsBelowMeaning(data: PatientInput, k: nat)
    requires k <= 10
    ensures forall e :: e in ReportsBelow(data, k) <==> Rank(e) < k && Reports(data, e)
    ensures forall i :: 0 <= i < |ReportsBelow(data, k)| ==> Rank(ReportsBelow(data, k)[i]) < k
    ensures StrictlyRanked(ReportsBelow(data, k))
  {
    if k > 0 {
      ReportsBelowMeaning(data, k - 1);
      forall x
        ensures Rank(x) == k - 1 ==> x == CheckOfRank(k - 1)
      {
        RankInjective(x, CheckOfRank(k - 1));
      }
    }
  }

  /** One check: its message is appended exactly when it reports. */
  lemma CheckStep(data: PatientInput, errors: seq<ValidationError>, k: nat)
    requires k < 10 && errors == ReportsBelow(data, k)
    ensures Reports(data, CheckOfRank(k)) ==> errors + [CheckOfRank(k)] == ReportsBelow(data, k + 1)
    ensures !Reports(data, CheckOfRank(k)) ==> errors == ReportsBelow(data, k + 1)
  {
  }

  lemma AllChecksRun(data: PatientInput, errors: seq<ValidationError>)
    requires errors == ReportsBelow(data, 10)
    ensures forall e :: e in errors <==> Reports(data, e)
    ensures StrictlyRanked(errors)
  {
    ReportsBelowMeaning(data, 10);
  }

  /** The first part of validateData: the phone number without '-' (only
      digits; ten or eleven of them) and the postal code without '-'
      (missing, else not seven digits). */
  method ContactChecks(data: PatientInput) returns (errors: seq<ValidationError>)
    ensures errors == ReportsBelow(data, 4)
  {
    errors := [];
    var cleanPhoneNumber := Remove(data.phoneNumber, '-');
    CheckStep(data, errors, 0);
    if !(|cleanPhoneNumber| > 0 && AllDigits(cleanPhoneNumber)) {
      errors := errors + [PhoneNotDigits];
    }
    CheckStep(data, errors, 1);
    if |cleanPhoneNumber| != 10 && |cleanPhoneNumber| != 11 {
      errors := errors + [PhoneLength];
    }
    var cleanPostalCode := Remove(data.postalCode, '-');
    CheckStep(data, errors, 2);
    if cleanPostalCode == [] {
      errors := errors + [PostalMissing];
      CheckStep(data, errors, 3);
    } else {
      CheckStep(data, errors, 3);
      if !(|cleanPostalCode| == 7 && AllDigits(cleanPostalCode)) {
        errors := errors + [PostalFormat];
      }
    }
  }

  /** The rest: the two names after trim(), the gender, the birth date
      (missing, else not eight digits) and the address after trim(). */
  method PersonalChecks(data: PatientInput, contact: seq<ValidationError>) returns (errors: seq<ValidationError>)
    requires contact == ReportsBelow(data, 4)
    ensures errors == ReportsBelow(data, 10)
  {
    errors := contact;
    CheckStep(data, errors, 4);
    if Trim(data.lastName) == [] {
      errors := errors + [LastNameMissing];
    }
    CheckStep(data, errors, 5);
    if Trim(data.firstName) == [] {
      errors := errors + [FirstNameMissing];
    }
    CheckStep(data, errors, 6);
    if data.gender != "male" && data.gender != "female" {
      errors := errors + [GenderInvalid];
    }
    CheckStep(data, errors, 7);
    if data.dateOfBirth == [] {
      errors := errors + [DobMissing];
      CheckStep(data, errors, 8);
    } else {
      CheckStep(data, errors, 8);
      if !(|data.dateOfBirth| == 8 && AllDigits(data.dateOfBirth)) {
        errors := errors + [DobFormat];
      }
    }
    CheckStep(data, errors, 9);
    if Trim(data.address) == [] {
      errors := errors + [AddressMissing];
    }
  }

  /** validateData: each message exactly when its condition holds, in check
      order. */
  method ValidateData(data: PatientInput) returns (errors: seq<ValidationError>)
    ensures forall e :: e in errors <==> Reports(data, e)
    ensures StrictlyRanked(errors)
  {
    var contact := ContactChecks(data);
    errors := PersonalChecks(data, contact);
    AllChecksRun(data, errors);
  }

  /** The form the server accepts. */
  predicate Acceptable(data: PatientInput)
  {
    var phone := Remove(data.phoneNumber, '-');
    var postal := Remove(data.postalCode, '-');
    && AllDigits(phone) && (|phone| == 10 || |phone| == 11)
    && |postal| == 7 && AllDigits(postal)
    && !IsBlank(data.lastName) && !IsBlank(data.firstName)
    && (data.gender == "male" || data.gender == "female")
    && |data.dateOfBirth| == 8 && AllDigits(data.dateOfBirth)
    && !IsBlank(data.address)
  }

  /** No message is reported exactly when the form is acceptable. */
  lemma NoReportIffAcceptable(data: PatientInput)
    ensures (forall e :: !Reports(data, e)) <==> Acceptable(data)
  {
    TrimProperties(data.lastName);
    TrimProperties(data.firstName);
    TrimProperties(data.address);
    if forall e :: !Reports(data, e) {
      assert !Reports(data, PhoneNotDigits) && !Reports(data, PhoneLength);
      assert !Reports(data, PostalMissing) && !Reports(data, PostalFormat);
      assert !Reports(data, LastNameMissing) && !Reports(data, FirstNameMissing);
      assert !Reports(data, GenderInvalid) && !Reports(data, DobMissing);
      assert !Reports(data, DobFormat) && !Reports(data, AddressMissing);
    }
  }

  // ---------------------------------------------------------------------
  // The handler

  /** The fields the required-field check looks at, in its order. */
  datatype Field = LastNameField | FirstNameField | GenderField | DobField | PhoneField | PostalField | AddressField

  function FieldValue(data: PatientInput, f: Field): string
  {
    match f
    case LastNameField => data.lastName
    case FirstNameField => data.firstName
    case GenderField => data.gender
    case DobField => data.dateOfBirth
    case PhoneField => data.phoneNumber
    case PostalField => data.postalCode
    case AddressField => data.address
  }

  function FieldRank(f: Field): (r: nat)
    ensures r < 7
  {
    match f
    case LastNameField => 0
    case FirstNameField => 1
    case GenderField => 2
    case DobField => 3
    case PhoneField => 4
    case PostalField => 5
    case AddressField => 6
  }

  /** The field of rank k. */
  function FieldOfRank(k: nat): (f: Field)
    requires k < 7
    ensures FieldRank(f) == k
  {
    if k == 0 then LastNameField
    else if k == 1 then FirstNameField
    else if k == 2 then GenderField
    else if k == 3 then DobField
    else if k == 4 then PhoneField
    else if k == 5 then PostalField
    else AddressField
  }

  /** The empty fields among the first k, in form order. */
  function EmptyBelow(data: PatientInput, k: nat): seq<Field>
    requires k <= 7
  {
    if k == 0 then []
    else
      var f := FieldOfRank(k - 1);
      EmptyBelow(data, k - 1) + if FieldValue(data, f) == [] then [f] else []
  }

  lemma FieldRankInjective(a: Field, b: Field)
    ensures FieldRank(a) == FieldRank(b) ==> a == b
  {
  }

  /** The first k fields contribute, in form order, exactly the empty ones. */
  lemma {:induction false} EmptyBelowMeaning(data: PatientInput, k: nat)
    requires k <= 7
    ensures forall f :: f in EmptyBelow(data, k) <==> FieldRank(f) < k && FieldValue(data, f) == []
    ensures forall i :: 0 <= i < |EmptyBelow(data, k)| ==> FieldRank(EmptyBelow(data, k)[i]) < k
    ensures forall i, j :: 0 <= i < j < |EmptyBelow(data, k)| ==>
      FieldRank(EmptyBelow(data, k)[i]) < FieldRank(EmptyBelow(data, k)[j])
  {
    if k > 0 {
      EmptyBelowMeaning(data, k - 1);
      forall x
        ensures FieldRank(x) == k - 1 ==> x == FieldOfRank(k - 1)
      {
        FieldRankInjective(x, FieldOfRank(k - 1));
      }
    }
  }

  lemma AllFieldsChecked(data: PatientInput, missing: seq<Field>)
    requires missing == EmptyBelow(data, 7)
    ensures forall f :: f in missing <==> FieldValue(data, f) == []
    ensures forall i, j :: 0 <= i < j < |missing| ==> FieldRank(missing[i]) < FieldRank(missing[j])
  {
    EmptyBelowMeaning(data, 7);
  }

  /** The required-field check: every empty field, in form order.  A field
      absent from the request body is the empty string here. */
  method MissingFields(data: PatientInput) returns (missing: seq<Field>)
    ensures forall f :: f in missing <==> FieldValue(data, f) == []
    ensures forall i, j :: 0 <= i < j < |missing| ==> FieldRank(missing[i]) < FieldRank(missing[j])
  {
    missing := [];
    if data.lastName == [] { missing := missing + [LastNameField]; }
    assert missing == EmptyBelow(data, 1);
    if data.firstName == [] { missing := missing + [FirstNameField]; }
    assert missing == EmptyBelow(data, 2);
    if data.gender == [] { missing := missing + [GenderField]; }
    assert missing == EmptyBelow(data, 3);
    if data.dateOfBirth == [] { missing := missing + [DobField]; }
    assert missing == EmptyBelow(data, 4);
    if data.phoneNumber == [] { missing := missing + [PhoneField]; }
    assert missing == EmptyBelow(data, 5);
    if data.postalCode == [] { missing := missing + [PostalField]; }
    assert missing == EmptyBelow(data, 6);
    if data.address == [] { missing := missing + [AddressField]; }
    assert missing == EmptyBelow(data, 7);
    AllFieldsChecked(data, missing);
  }

  /** A stored patient. */
  datatype Patient = Patient(
    lineUserId: string,
    patientId: string,
    lastName: string,
    firstName: string,
    gender: string,
    dateOfBirth: string,
    phoneNumber: string,
    postalCode: string,
    address: string)

  datatype RegisterError =
    | Unauthorized
    | MissingRequired(fields: seq<Field>)
    | Invalid(errors: seq<ValidationError>)
    | AlreadyRegistered
    | BadBirthDate(reason: DobError)

  function PatientIds(patients: seq<Patient>): (ids: seq<string>)
    ensures |ids| == |patients|
    ensures forall i :: 0 <= i < |patients| ==> ids[i] == patients[i].patientId
  {
    seq(|patients|, i requires 0 <= i < |patients| => patients[i].patientId)
  }

  /** Patient numbers and LINE accounts are unique. */
  predicate UniqueKeys(patients: seq<Patient>)
  {
    forall i, j :: 0 <= i < j < |patients| ==>
      patients[i].patientId != patients[j].patientId && patients[i].lineUserId != patients[j].lineUserId
  }

  /** `findUnique({ where: { lineUserId } })`. */
  function FindByLineUserId(patients: seq<Patient>, lineUserId: string): (r: Option<Patient>)
    ensures r.Some? ==> r.value in patients && r.value.lineUserId == lineUserId
    ensures r.None? ==> forall p :: p in patients ==> p.lineUserId != lineUserId
  {
    if patients == [] then None
    else if patients[0].lineUserId == lineUserId then Some(patients[0])
    else FindByLineUserId(patients[1..], lineUserId)
  }

  /** The record the handler saves: names and address trimmed, '-' deleted
      from the phone number and postal code. */
  function NewPatient(lineUserId: string, patientId: string, data: PatientInput, dateOfBirth: string): Patient
  {
    Patient(lineUserId, patientId, Trim(data.lastName), Trim(data.firstName), data.gender,
            dateOfBirth, Remove(data.phoneNumber, '-'), Remove(data.postalCode, '-'), Trim(data.address))
  }

  /** A record with a new patient number and an unregistered LINE account
      keeps the keys unique. */
  lemma {:induction false} AppendKeepsUnique(patients: seq<Patient>, p: Patient)
    requires UniqueKeys(patients)
    requires p.patientId !in PatientIds(patients)
    requires FindByLineUserId(patients, p.lineUserId).None?
    ensures UniqueKeys(patients + [p])
  {
    var ps := patients + [p];
    forall i, j | 0 <= i < j < |ps|
      ensures ps[i].patientId != ps[j].patientId && ps[i].lineUserId != ps[j].lineUserId
    {
      if j == |patients| {
        assert ps[i] == patients[i];
        assert PatientIds(patients)[i] == patients[i].patientId;
      }
    }
  }

  /** The Patient table. */
  class PatientRegistry {
    var patients: seq<Patient>

    predicate Valid()
      reads this
    {
      UniqueKeys(patients)
    }

    constructor()
      ensures Valid() && patients == []
    {
      patients := [];
    }

    /** The registration handler, with its checks in source order; the
        patient number comes from the by-value generator. */
    method Register(lineUserId: Option<string>, data: PatientInput, currentYear: int)
      returns (r: Result<Patient, RegisterError>)
      requires Valid()
      modifies this
      ensures Valid()
      ensures r.Err? ==> patients == old(patients)
      ensures lineUserId.None? <==> r == Err(Unauthorized)
      ensures r.Err? && r.error.MissingRequired? ==>
        r.error.fields != [] && forall f :: f in r.error.fields <==> FieldValue(data, f) == []
      ensures r.Err? && r.error.MissingRequired? ==>
        forall i, j :: 0 <= i < j < |r.error.fields| ==> FieldRank(r.error.fields[i]) < FieldRank(r.error.fields[j])
      ensures r.Err? && r.error.Invalid? ==> (
        && (forall f :: FieldValue(data, f) != [])
        && r.error.errors != []
        && (forall e :: e in r.error.errors <==> Reports(data, e))
        && StrictlyRanked(r.error.errors))
      ensures r.Err? && r.error.AlreadyRegistered? ==>
        Acceptable(data) && FindByLineUserId(old(patients), lineUserId.value).Some?
      ensures r.Err? && r.error.BadBirthDate? ==> (
        && Acceptable(data)
        && FindByLineUserId(old(patients), lineUserId.value).None?
        && ParseDateFromNumber(data.dateOfBirth, currentYear) == Err(r.error.reason))
      ensures (r.Err? && r.error.MissingRequired?) <==> lineUserId.Some? && exists f :: FieldValue(data, f) == []
      ensures (r.Err? && r.error.Invalid?) <==>
        lineUserId.Some? && (forall f :: FieldValue(data, f) != []) && !Acceptable(data)
      ensures r == Err(AlreadyRegistered) <==> (lineUserId.Some? && (forall f :: FieldValue(data, f) != [])
        && Acceptable(data) && FindByLineUserId(old(patients), lineUserId.value).Some?)
      ensures (r.Err? && r.error.BadBirthDate?) <==> (lineUserId.Some? && (forall f :: FieldValue(data, f) != [])
        && Acceptable(data) && FindByLineUserId(old(patients), lineUserId.value).None?
        && ParseDateFromNumber(data.dateOfBirth, currentYear).Err?)
      ensures r.Ok? <==> (lineUserId.Some? && (forall f :: FieldValue(data, f) != [])
        && Acceptable(data) && FindByLineUserId(old(patients), lineUserId.value).None?
        && ParseDateFromNumber(data.dateOfBirth, currentYear).Ok?)
      ensures r.Ok? ==> (
        && lineUserId.Some? && Acceptable(data)
        && FindByLineUserId(old(patients), lineUserId.value).None?
        && ParseDateFromNumber(data.dateOfBirth, currentYear).Ok?
        && r.value == NewPatient(lineUserId.value, NextPatientIdByValue(PatientIds(old(patients))), data,
                                 ParseDateFromNumber(data.dateOfBirth, currentYear).value)
        && patients == old(patients) + [r.value])
    {
      if lineUserId.None? {
        return Err(Unauthorized);
      }
      var missingFields := MissingFields(data);
      if |missingFields| > 0 {
        assert FieldValue(data, missingFields[0]) == [];
        return Err(MissingRequired(missingFields));
      }
      assert forall f :: FieldValue(data, f) != [] by {
        forall f ensures FieldValue(data, f) != [] {
          assert f !in missingFields;
        }
      }
      var validationErrors := ValidateData(data);
      NoReportIffAcceptable(data);
      if |validationErrors| > 0 {
        assert Reports(data, validationErrors[0]);
        return Err(Invalid(validationErrors));
      }
      var existingPatient := FindByLineUserId(patients, lineUserId.value);
      if existingPatient.Some? {
        return Err(AlreadyRegistered);
      }
      var patientId := NextPatientIdByValue(PatientIds(patients));
      var formattedDate := ParseDateFromNumber(data.dateOfBirth, currentYear);
      if formattedDate.Err? {
        return Err(BadBirthDate(formattedDate.error));
      }
      var patient := NewPatient(lineUserId.value, patientId, data, formattedDate.value);
      AppendKeepsUnique(patients, patient);
      patients := patients + [patient];
      r := Ok(patient);
    }
  }

  /** The first registrant of an empty table receives '00001', the number
      the other routes treat as the staff account. */
  lemma FirstRegistrantIsStaffNumber()
    ensures NextPatientIdByValue([]) == STAFF_PATIENT_ID
  {
  }
}

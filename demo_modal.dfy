// The demo wizard: a form whose fields are checked as they are typed, a
// randomly chosen mock loan, the call trigger, the poll with its single
// timer reference, and the four steps the wizard walks through (1 the
// form, 2 the scenario and the call button, 3 the call in progress, 4 the
// analysis).

module DemoModal {
  import opened Text
  import opened Json
  import opened Call
  import opened Polling
  import opened Retrieval

  // ---------------------------------------------------------------------
  // Field checks

  /** Two characters at distinct positions are not white space. */
  predicate TwoNonWhite(s: string) {
    exists i, j :: 0 <= i < j < |s| && !IsWhite(s[i]) && !IsWhite(s[j])
  }

  /** A non-empty text of ASCII letters and white space only. */
  predicate LettersAndSpaces(s: string) {
    |s| >= 1 && forall k :: 0 <= k < |s| ==> IsAsciiLetter(s[k]) || IsWhite(s[k])
  }

  /** Some character lies outside the Basic Multilingual Plane. */
  predicate HasAstral(s: string) {
    exists k :: 0 <= k < |s| && IsAstral(s[k])
  }

  /** What makes the trimmed text at least two UTF-16 code units long:
      two non-white characters, or one character outside the Basic
      Multilingual Plane. */
  predicate TwoUnits(s: string) {
    TwoNonWhite(s) || HasAstral(s)
  }

  /** The trimmed text is at least two UTF-16 code units long exactly
      when two characters of the text are not white space or one lies
      outside the Basic Multilingual Plane. */
  lemma TrimAtLeastTwo(s: string)
    ensures Utf16Length(Trim(s)) >= 2 <==> TwoUnits(s)
  {
    var a, b := TrimBounds(s);
    var t := Trim(s);
    Utf16LengthSpec(t);
    if Utf16Length(t) >= 2 {
      if |t| >= 2 {
        assert !IsWhite(s[a]) && !IsWhite(s[b - 1]);
      } else {
        var k :| 0 <= k < |t| && IsAstral(t[k]);
        assert s[a + k] == t[k];
      }
    }
    if TwoNonWhite(s) {
      var i, j :| 0 <= i < j < |s| && !IsWhite(s[i]) && !IsWhite(s[j]);
    }
    if HasAstral(s) {
      var k :| 0 <= k < |s| && IsAstral(s[k]);
      assert !IsWhite(s[k]);
      assert t[k - a] == s[k];
    }
  }

  /** The name check: required, at least two UTF-16 code units, only
      letters and white space, in that order, all on the trimmed text. */
  function NameError(value: string): string {
    var t := Trim(value);
    if t == "" then "Full name is required"
    else if Utf16Length(t) < 2 then "Full name must be at least 2 characters long"
    else if !LettersAndSpaces(t) then "Full name should only contain letters and spaces"
    else ""
  }

  /** The messages of the name check, in the order it tests them, read on
      the text as typed. */
  lemma NameErrorSpec(value: string)
    ensures AllWhite(value) ==> NameError(value) == "Full name is required"
    ensures !AllWhite(value) && !TwoUnits(value) ==>
      NameError(value) == "Full name must be at least 2 characters long"
    ensures TwoUnits(value) && !LettersAndSpaces(Trim(value)) ==>
      NameError(value) == "Full name should only contain letters and spaces"
    ensures NameError(value) == "" <==> TwoUnits(value) && LettersAndSpaces(Trim(value))
  {
    TrimEmptyIffAllWhite(value);
    TrimAtLeastTwo(value);
  }

  /** Only ASCII letters and white space. */
  predicate NameChars(value: string) {
    forall k :: 0 <= k < |value| ==> IsAsciiLetter(value[k]) || IsWhite(value[k])
  }

  /** Two letters at distinct positions. */
  predicate TwoLetters(value: string) {
    exists i, j :: 0 <= i < j < |value| && IsAsciiLetter(value[i]) && IsAsciiLetter(value[j])
  }

  /** A name passes exactly when it is made of ASCII letters and white
      space only and has at least two letters. */
  lemma NameAccepted(value: string)
    ensures NameError(value) == "" <==> NameChars(value) && TwoLetters(value)
  {
    if NameError(value) == "" {
      NamePassesChars(value);
    }
    if NameChars(value) && TwoLetters(value) {
      CharsPassName(value);
    }
  }

  lemma NamePassesChars(value: string)
    requires NameError(value) == ""
    ensures NameChars(value) && TwoLetters(value)
  {
    NameErrorSpec(value);
    var a, b := TrimBounds(value);
    var t := Trim(value);
    Utf16LengthSpec(t);
    assert forall k :: 0 <= k < |t| ==> !IsAstral(t[k]);
    forall k | a <= k < b ensures IsAsciiLetter(value[k]) || IsWhite(value[k]) {
      assert value[k] == t[k - a];
    }
    assert !IsWhite(value[a]) && !IsWhite(value[b - 1]);
  }

  lemma CharsPassName(value: string)
    requires NameChars(value) && TwoLetters(value)
    ensures NameError(value) == ""
  {
    var a, b := TrimBounds(value);
    var t := Trim(value);
    Utf16LengthSpec(t);
    var i, j :| 0 <= i < j < |value| && IsAsciiLetter(value[i]) && IsAsciiLetter(value[j]);
    assert !IsWhite(value[i]) && !IsWhite(value[j]);
    assert a <= i && j < b;
    assert LettersAndSpaces(t) by {
      forall k | 0 <= k < |t| ensures IsAsciiLetter(t[k]) || IsWhite(t[k]) {
        assert t[k] == value[a + k];
      }
    }
  }

  /** The characters the phone check removes first: `[\s\-\(\)]`. */
  predicate PhoneSeparator(c: char) {
    IsWhite(c) || c == '-' || c == '(' || c == ')'
  }

  /** The phone number with white space, hyphens and parentheses removed. */
  function CleanPhone(value: string): (r: string)
    ensures |r| <= |value|
    ensures forall k :: 0 <= k < |r| ==> !PhoneSeparator(r[k])
  {
    RemoveWhere(value, PhoneSeparator)
  }

  /** Cleaning drops each separator and keeps every other character in
      order: a single character is dropped exactly when it is a
      separator, and the cleaned form of a concatenation is the
      concatenation of the cleaned parts. */
  lemma CleanPhoneSpec(a: string, b: string, c: char)
    ensures CleanPhone([c]) == if PhoneSeparator(c) then [] else [c]
    ensures CleanPhone(a + b) == CleanPhone(a) + CleanPhone(b)
  {
    RemoveWhereSpec(a, b, c, PhoneSeparator);
  }

  lemma {:induction false} CleanAllWhite(s: string)
    ensures AllWhite(s) ==> CleanPhone(s) == []
  {
    if s != [] {
      CleanAllWhite(s[1..]);
    }
  }

  /** `[6789]\d{9}`: a ten-digit Indian mobile subscriber number. */
  predicate Subscriber(s: string) {
    |s| == 10 && s[0] in "6789" && AllDigits(s)
  }

  /** `/^(\+91|91)?[6789]\d{9}$/`: an optional country code, then a
      subscriber number. */
  predicate MatchesMobile(s: string) {
    exists p :: p in ["", "+91", "91"] && StartsWith(s, p) && Subscriber(s[|p|..])
  }

  /** The same test decided by length: 10 characters bare, 12 after
      `91`, 13 after `+91`. */
  predicate MobileByLength(s: string) {
    if |s| == 10 then Subscriber(s)
    else if |s| == 12 then s[..2] == "91" && Subscriber(s[2..])
    else if |s| == 13 then s[..3] == "+91" && Subscriber(s[3..])
    else false
  }

  lemma MobileByLengthMatches(s: string)
    ensures MobileByLength(s) <==> MatchesMobile(s)
  {
    var r := MobileByLength(s);
    assert r ==> MatchesMobile(s) by {
      if |s| == 12 && r {
        assert "91" in ["", "+91", "91"];
      } else if |s| == 13 && r {
        assert "+91" in ["", "+91", "91"];
      } else if |s| == 10 && r {
        assert s[0..] == s && "" in ["", "+91", "91"];
      }
    }
  }

  /** The phone check: required, then the mobile pattern on the text with
      separators removed. */
  function PhoneError(value: string): string {
    if Trim(value) == "" then "Phone number is required"
    else if !MobileByLength(CleanPhone(value)) then
      "Enter a valid Indian mobile number (10 digits starting with 6, 7, 8, or 9)"
    else ""
  }

  /** The messages of the phone check, read on the text as typed. */
  lemma PhoneErrorSpec(value: string)
    ensures AllWhite(value) ==> PhoneError(value) == "Phone number is required"
    ensures !AllWhite(value) && !MatchesMobile(CleanPhone(value)) ==>
      PhoneError(value) == "Enter a valid Indian mobile number (10 digits starting with 6, 7, 8, or 9)"
    ensures PhoneError(value) == "" <==> !AllWhite(value) && MatchesMobile(CleanPhone(value))
  {
    TrimEmptyIffAllWhite(value);
    MobileByLengthMatches(CleanPhone(value));
  }

  /** Separators never decide the check: a number passes exactly when
      its separator-free form does. */
  lemma PhoneSeparatorsIgnored(value: string)
    ensures PhoneError(value) == "" <==> PhoneError(CleanPhone(value)) == ""
  {
    var c := CleanPhone(value);
    PhoneErrorSpec(value);
    PhoneErrorSpec(c);
    RemoveWhereKeepsClean(c, PhoneSeparator);
    CleanAllWhite(value);
    if MatchesMobile(c) {
      assert !IsWhite(c[|c| - 1]);
    }
  }

  /** What is dialled for a number that passed the check as typed,
      without separators: the `+91` form of its last ten digits, except
      that a number typed with a bare `91` country code gets a second
      one. */
  lemma DialAcceptedPhone(phone: string)
    requires PhoneError(phone) == "" && CleanPhone(phone) == phone
    ensures |phone| != 12 ==> DialNumber(phone) == "+91" + Last(phone, 10)
    ensures |phone| == 12 ==> DialNumber(phone) == "+91" + "91" + Last(phone, 10)
  {
    assert MobileByLength(CleanPhone(phone));
    DialMobile(phone);
  }

  lemma DialMobile(phone: string)
    requires MobileByLength(phone)
    ensures |phone| != 12 ==> DialNumber(phone) == "+91" + Last(phone, 10)
    ensures |phone| == 12 ==> DialNumber(phone) == "+91" + "91" + Last(phone, 10)
  {
    if |phone| == 10 {
      assert !StartsWith(phone, "+");
      assert Last(phone, 10) == phone;
    } else if |phone| == 12 {
      assert phone[0] == '9';
      assert phone == "91" + phone[2..];
    } else {
      assert StartsWith(phone, "+");
      assert phone == "+91" + phone[3..];
    }
  }

  /** A non-empty run of characters that are neither white space nor `@`. */
  predicate EmailPart(s: string) {
    |s| >= 1 && forall k :: 0 <= k < |s| ==> !IsWhite(s[k]) && s[k] != '@'
  }

  /** `/^[^\s@]+@[^\s@]+\.[^\s@]+$/`: a local part, `@`, then a domain
      with a dot that has text on both sides. */
  predicate MatchesEmail(s: string) {
    exists i, j :: 0 < i && i + 1 < j && j + 1 < |s| && s[i] == '@' && s[j] == '.' &&
      EmailPart(s[..i]) && EmailPart(s[i + 1..j]) && EmailPart(s[j + 1..])
  }

  /** The position of the first `c` in `s`, `|s|` when there is none. */
  function FirstIndex(s: string, c: char): (r: nat)
    ensures r <= |s| && (r < |s| ==> s[r] == c)
    ensures forall k :: 0 <= k < r ==> s[k] != c
  {
    if s == [] then 0
    else if s[0] == c then 0
    else 1 + FirstIndex(s[1..], c)
  }

  /** The same test decided by a scan: no white space, one `@` after at
      least one character, and a dot at least two characters after it
      and before the last character. */
  predicate EmailByScan(s: string) {
    var i := FirstIndex(s, '@');
    (forall k :: 0 <= k < |s| ==> !IsWhite(s[k])) &&
    1 <= i && i + 4 <= |s| && '@' !in s[i + 1..] && '.' in s[i + 2..|s| - 1]
  }

  lemma EmailByScanMatches(s: string)
    ensures EmailByScan(s) <==> MatchesEmail(s)
  {
    if EmailByScan(s) {
      ScanGivesMatch(s);
    }
    if MatchesEmail(s) {
      MatchGivesScan(s);
    }
  }

  lemma ScanGivesMatch(s: string)
    requires EmailByScan(s)
    ensures MatchesEmail(s)
  {
    var i := FirstIndex(s, '@');
    var tail := s[i + 2..|s| - 1];
    var m :| 0 <= m < |tail| && tail[m] == '.';
    var j := i + 2 + m;
    assert s[j] == '.';
    forall k | i < k < |s| ensures s[k] != '@' {
      assert s[k] == s[i + 1..][k - i - 1];
    }
    assert EmailPart(s[..i]);
    var mid, last := s[i + 1..j], s[j + 1..];
    forall k | 0 <= k < |mid| ensures !IsWhite(mid[k]) && mid[k] != '@' {
      assert mid[k] == s[i + 1 + k];
    }
    forall k | 0 <= k < |last| ensures !IsWhite(last[k]) && last[k] != '@' {
      assert last[k] == s[j + 1 + k];
    }
  }

  lemma MatchGivesScan(s: string)
    requires MatchesEmail(s)
    ensures EmailByScan(s)
  {
    var a, j :| 0 < a && a + 1 < j && j + 1 < |s| && s[a] == '@' && s[j] == '.' &&
      EmailPart(s[..a]) && EmailPart(s[a + 1..j]) && EmailPart(s[j + 1..]);
    PartsClean(s, a, j);
    assert FirstIndex(s, '@') == a;
    var rest := s[a + 1..];
    forall k | 0 <= k < |rest| ensures rest[k] != '@' {
      assert rest[k] == s[a + 1 + k];
    }
    assert s[a + 2..|s| - 1][j - a - 2] == '.';
  }

  lemma PartsClean(s: string, a: nat, j: nat)
    requires 0 < a && a + 1 < j && j + 1 < |s| && s[a] == '@' && s[j] == '.'
    requires EmailPart(s[..a]) && EmailPart(s[a + 1..j]) && EmailPart(s[j + 1..])
    ensures forall k :: 0 <= k < |s| ==> !IsWhite(s[k]) && (k != a ==> s[k] != '@')
  {
    var first, mid, last := s[..a], s[a + 1..j], s[j + 1..];
    forall k | 0 <= k < |s| ensures !IsWhite(s[k]) && (k != a ==> s[k] != '@') {
      if k < a {
        assert s[k] == first[k];
      } else if a < k < j {
        assert s[k] == mid[k - a - 1];
      } else if k > j {
        assert s[k] == last[k - j - 1];
      }
    }
  }

  /** The email check: optional, and when given the whole text as typed,
      not trimmed, must have the shape of an address. */
  function EmailError(value: string): string {
    if Trim(value) != "" && !EmailByScan(value) then "Please enter a valid email address" else ""
  }

  /** An email passes exactly when it is blank or has the shape of an
      address; otherwise there is one message. */
  lemma EmailErrorSpec(value: string)
    ensures EmailError(value) == "" || EmailError(value) == "Please enter a valid email address"
    ensures EmailError(value) == "" <==> AllWhite(value) || MatchesEmail(value)
  {
    TrimEmptyIffAllWhite(value);
    EmailByScanMatches(value);
  }

  /** The NBFC name check: required, then at least two UTF-16 code
      units, on the trimmed text. */
  function NbfcError(value: string): string {
    var t := Trim(value);
    if t == "" then "NBFC name is required"
    else if Utf16Length(t) < 2 then "NBFC name must be at least 2 characters long"
    else ""
  }

  /** The messages of the NBFC name check, read on the text as typed. */
  lemma NbfcErrorSpec(value: string)
    ensures AllWhite(value) ==> NbfcError(value) == "NBFC name is required"
    ensures !AllWhite(value) && !TwoUnits(value) ==>
      NbfcError(value) == "NBFC name must be at least 2 characters long"
    ensures NbfcError(value) == "" <==> TwoUnits(value)
  {
    TrimEmptyIffAllWhite(value);
    TrimAtLeastTwo(value);
  }

  /** `validateField(field, value)`: the check of a checked field, no
      error for any other field. */
  function ValidateField(field: Field, value: string): string
  {
    match field
    case Name => NameError(value)
    case Phone => PhoneError(value)
    case Email => EmailError(value)
    case NbfcName => NbfcError(value)
    case _ => ""
  }

  /** The fields the form checks. */
  const CheckedFields: set<Field> := {Name, Phone, Email, NbfcName}

  /** The errors `validateForm` records: one entry per checked field. */
  function FormErrors(f: FormData): (errors: map<Field, string>)
    ensures errors.Keys == CheckedFields
  {
    map[Name := NameError(f.name), Phone := PhoneError(f.phone),
        Email := EmailError(f.email), NbfcName := NbfcError(f.nbfcName)]
  }

  /** No recorded error is a message. */
  predicate NoErrors(errors: map<Field, string>) {
    forall k :: k in errors ==> errors[k] == ""
  }

  /** The form passes exactly when each of its four checks passes. */
  lemma FormErrorsSpec(f: FormData)
    ensures NoErrors(FormErrors(f)) <==>
      NameError(f.name) == "" && PhoneError(f.phone) == "" &&
      EmailError(f.email) == "" && NbfcError(f.nbfcName) == ""
  {
    var e := FormErrors(f);
    hide NameError, PhoneError, EmailError, NbfcError;
    assert e[Name] == NameError(f.name) && e[Phone] == PhoneError(f.phone);
    assert e[Email] == EmailError(f.email) && e[NbfcName] == NbfcError(f.nbfcName);
  }

  // ---------------------------------------------------------------------
  // Mock loans

  /** The due date of a scenario `dpd` days past due, as a day number. */
  function DueDay(today: int, dpd: nat): int
  {
    today - dpd
  }

  /** The last payment day: `max(dpd + 15, 30)` days back. */
  function LastPaymentDay(today: int, dpd: nat): (r: int)
    ensures r <= DueDay(today, dpd) - 15 && r <= today - 30
    ensures r == DueDay(today, dpd) - 15 || r == today - 30
  {
    today - (if dpd + 15 > 30 then dpd + 15 else 30)
  }

  /** A mock loan as written in the table, with its due date given by
      days past due. */
  datatype Scenario = Scenario(
    originalAmount: string, outstandingAmount: string, dpd: nat,
    lastPaymentAmount: string, loanType: string)

  /** How many scenarios the table holds. */
  const ScenarioCount: nat := 9

  /** The nine scenarios, in the order of their keys. */
  const Scenarios: seq<Scenario> := [
    Scenario("150000", "125000", 15, "5500", "Personal Loan (DPD 15)"),
    Scenario("45000", "28000", 25, "2800", "Smartphone EMI (DPD 25)"),
    Scenario("85000", "62000", 45, "3200", "2-Wheeler Loan (DPD 45)"),
    Scenario("200000", "175000", 60, "8500", "Personal Loan (DPD 60)"),
    Scenario("120000", "98000", 75, "4200", "Business Loan (DPD 75)"),
    Scenario("300000", "285000", 105, "12000", "Personal Loan (DPD 105)"),
    Scenario("65000", "58000", 95, "3800", "Smartphone EMI (DPD 95)"),
    Scenario("500000", "495000", 150, "18000", "Personal Loan (DPD 150)"),
    Scenario("95000", "92000", 180, "4500", "2-Wheeler Loan (DPD 180)")
  ]

  /** The loan fields of a mock loan, dates rendered as ISO dates. */
  datatype MockLoan = MockLoan(
    originalAmount: string, outstandingAmount: string, emiDueDate: string,
    lastPaymentDate: string, lastPaymentAmount: string, loanType: string)

  /** `mockLoanData`, built once on the day `today`; `dateText` renders a
      day number as `yyyy-mm-dd`. */
  function MockLoanData(today: int, dateText: int -> string): (loans: seq<MockLoan>)
    ensures |loans| == |Scenarios| == ScenarioCount
  {
    seq(|Scenarios|, i requires 0 <= i < |Scenarios| =>
      var s := Scenarios[i];
      MockLoan(s.originalAmount, s.outstandingAmount, dateText(DueDay(today, s.dpd)),
        dateText(LastPaymentDay(today, s.dpd)), s.lastPaymentAmount, s.loanType))
  }

  /** The random draws of `fillMockData`: the scenario, the original
      amount above 50000, the outstanding share `0.5 + 0.4 * u` with
      `u = shareNum / shareDen` in [0, 1), and the last payment above 2000. */
  datatype Draws = Draws(scenario: nat, original: nat, shareNum: nat, shareDen: nat, lastPayment: nat)

  predicate DrawsInRange(d: Draws) {
    d.scenario < ScenarioCount && d.original < 400000 && d.shareNum < d.shareDen && d.lastPayment < 15000
  }

  function OriginalAmount(d: Draws): nat {
    d.original + 50000
  }

  /** `Math.floor(original * (u * 0.4 + 0.5))`, in exact arithmetic. */
  function OutstandingAmount(d: Draws): nat
    requires d.shareDen > 0
  {
    (OriginalAmount(d) * (4 * d.shareNum + 5 * d.shareDen)) / (10 * d.shareDen)
  }

  function LastPaymentAmount(d: Draws): nat {
    d.lastPayment + 2000
  }

  /** The amounts drawn: the original between 50000 and 449999, the
      outstanding amount at least half of it and below nine tenths, the
      last payment between 2000 and 16999. */
  lemma MockAmountBounds(d: Draws)
    requires DrawsInRange(d)
    ensures 50000 <= OriginalAmount(d) <= 449999 && 2000 <= LastPaymentAmount(d) <= 16999
    ensures OriginalAmount(d) <= 2 * OutstandingAmount(d) + 1
    ensures 10 * OutstandingAmount(d) < 9 * OriginalAmount(d)
  {
    var o, den := OriginalAmount(d), d.shareDen;
    var w := 4 * d.shareNum + 5 * den;
    var q := OutstandingAmount(d);
    FloorDiv(o * w, 10 * den);
    assert 5 * den <= w < 9 * den;
    MulLe(o, 5 * den, w);
    MulLt(o, w, 9 * den);
    assert (10 * q) * den <= o * w < (10 * q + 10) * den;
    assert (5 * o) * den <= o * w && o * w < (9 * o) * den;
    CancelLt(10 * q, 9 * o, den);
    CancelLt(5 * o, 10 * q + 10, den);
  }

  lemma FloorDiv(a: nat, b: nat)
    requires b > 0
    ensures (a / b) * b <= a < (a / b + 1) * b
  {
  }

  lemma MulLe(x: nat, a: nat, b: nat)
    requires a <= b
    ensures x * a <= x * b
  {
  }

  lemma MulLt(x: nat, a: nat, b: nat)
    requires x > 0 && a < b
    ensures x * a < x * b
  {
  }

  lemma CancelLt(a: int, b: int, c: int)
    requires c > 0 && a * c < b * c
    ensures a < b
  {
    assert (b - a) * c == b * c - a * c;
  }

  /** `fillMockData()`: the loan fields come from the drawn scenario and
      the drawn amounts; the customer's own fields stay. */
  function FillMock(f: FormData, loan: MockLoan, d: Draws): (r: FormData)
    requires d.shareDen > 0
    ensures r.name == f.name && r.phone == f.phone && r.email == f.email && r.nbfcName == f.nbfcName
    ensures AllDigits(r.originalAmount) && DecimalValue(r.originalAmount) == OriginalAmount(d)
    ensures AllDigits(r.outstandingAmount) && DecimalValue(r.outstandingAmount) == OutstandingAmount(d)
    ensures AllDigits(r.lastPaymentAmount) && DecimalValue(r.lastPaymentAmount) == LastPaymentAmount(d)
    ensures r.emiDueDate == loan.emiDueDate && r.lastPaymentDate == loan.lastPaymentDate
    ensures r.loanType == loan.loanType
  {
    DecimalRoundTrip(OriginalAmount(d));
    DecimalRoundTrip(OutstandingAmount(d));
    DecimalRoundTrip(LastPaymentAmount(d));
    f.(originalAmount := NatToString(OriginalAmount(d)),
       outstandingAmount := NatToString(OutstandingAmount(d)),
       emiDueDate := loan.emiDueDate, lastPaymentDate := loan.lastPaymentDate,
       lastPaymentAmount := NatToString(LastPaymentAmount(d)), loanType := loan.loanType)
  }

  /** The days past due computed for a mock due date that was `dpd` days
      before today, with `nowMs` on today: exactly `dpd` at midnight, one
      more at any later time of the day. */
  lemma MockDaysPastDue(today: int, dpd: nat, nowMs: int)
    requires today * DayMs <= nowMs < (today + 1) * DayMs
    ensures DaysPastDue(nowMs - DueDay(today, dpd) * DayMs) == if nowMs == today * DayMs then dpd else dpd + 1
  {
    var diff := nowMs - DueDay(today, dpd) * DayMs;
    var t := nowMs - today * DayMs;
    assert diff == dpd * DayMs + t;
    var r := DaysPastDue(diff);
    if t == 0 {
      DaysPastDueWhole(dpd);
    } else {
      assert dpd * DayMs < r * DayMs;
      CancelLt(dpd, r, DayMs);
      assert (r - 1) * DayMs < (dpd + 1) * DayMs;
      CancelLt(r - 1, dpd + 1, DayMs);
    }
  }

  // ---------------------------------------------------------------------
  // The wizard's controller

  /** One `setInterval` poll and its closure: the room it watches, its
      latch `lastRoomPresent`, its `pollCount`, its
      `shouldContinuePolling`, and whether the interval is still
      scheduled. */
  datatype ModalPoll = ModalPoll(
    room: string, lastRoomPresent: bool, pollCount: nat, shouldContinue: bool, live: bool)

  /** `pollingIntervalRef.current` and the polls started so far, where
      `polls[id]` is the one with interval id `id`. */
  datatype Timers = Timers(ref: Option<nat>, polls: seq<ModalPoll>)

  /** The reference holds a scheduled interval, and no other interval is
      scheduled. */
  predicate OneLive(t: Timers) {
    (t.ref.Some? ==> t.ref.value < |t.polls| && t.polls[t.ref.value].live) &&
    forall i :: 0 <= i < |t.polls| && t.polls[i].live ==> t.ref == Some(i)
  }

  /** Clearing the interval reference, when it holds one, stops that
      interval and empties the reference: afterwards no interval is scheduled, and nothing else about the
      polls has changed. */
  function Cleared(t: Timers): (r: Timers)
    requires OneLive(t)
    ensures r.ref.None? && |r.polls| == |t.polls|
    ensures forall i :: 0 <= i < |t.polls| ==> r.polls[i] == t.polls[i].(live := false)
  {
    match t.ref
    case None => t
    case Some(id) => Timers(None, t.polls[id := t.polls[id].(live := false)])
  }

  /** The observations a poll makes of a run of replies. */
  function Observations(replies: seq<Reply>, room: string): seq<Option<bool>>
  {
    seq(|replies|, i requires 0 <= i < |replies| => TickObservation(replies[i], room))
  }

  /** The wizard's call-status flags. */
  datatype ModalFlags = ModalFlags(
    isConnecting: bool, isCallActive: bool, isOngoingCall: bool, isPolling: bool,
    isSystemReady: bool, isLoadingMedia: bool)

  const InitialFlags: ModalFlags := ModalFlags(false, false, false, false, true, false)

  const InitialForm: FormData := FormData("", "", "", "Demo NBFC", "", "", "", "", "", "")

  const NoMedia: Artifacts := Artifacts("", JNull, JNull)

  /** The wizard's state: its step, the form, the flags, the days past
      due, the recorded field errors, the current room, the artifacts
      shown, the timer reference with the polls, and the mock loans built
      when the page loaded. Requests are answered within the event that
      sends them. */
  class Modal {
    var step: nat
    var form: FormData
    var flags: ModalFlags
    var dpd: Dpd
    var errors: map<Field, string>
    var roomName: string
    var media: Artifacts
    var timers: Timers
    const parse: string -> Option<Json>
    const loans: seq<MockLoan>

    /** The step is one of the four, nothing is in flight, the polling
        flag follows the call-active flag, and at most the referenced
        interval is scheduled. */
    predicate Valid()
      reads this
    {
      1 <= step <= 4 && !flags.isConnecting && !flags.isLoadingMedia &&
      flags.isPolling == flags.isCallActive && OneLive(timers) && |loans| == ScenarioCount
    }

    /** The call button of step 2 is enabled. */
    predicate CallEnabled()
      reads this
    {
      !(flags.isConnecting || flags.isCallActive || !flags.isSystemReady || !HasContact(form))
    }

    constructor (parse: string -> Option<Json>, today: int, dateText: int -> string)
      ensures Valid()
      ensures step == 1 && form == InitialForm && flags == InitialFlags && dpd == Days(0)
      ensures errors == map[] && roomName == "" && media == NoMedia && timers == Timers(None, [])
      ensures this.parse == parse && loans == MockLoanData(today, dateText)
    {
      step, form, flags, dpd := 1, InitialForm, InitialFlags, Days(0);
      errors, roomName, media, timers := map[], "", NoMedia, Timers(None, []);
      this.parse := parse;
      loans := MockLoanData(today, dateText);
    }

    /** `handleInputChange(field, value)`, with the field's check
        recorded, followed by the days-past-due effect, which runs when
        the due date changed. */
    method HandleInputChange(field: Field, value: string, dueMs: Option<int>, nowMs: int)
      requires Valid()
      modifies this`form, this`errors, this`dpd
      ensures Valid()
      ensures form == WithField(old(form), field, value)
      ensures errors == old(errors)[field := ValidateField(field, value)]
      ensures dpd == if field == EmiDueDate && value != old(form.emiDueDate)
        then DpdEffect(value, dueMs, nowMs, old(dpd)) else old(dpd)
    {
      var before := form.emiDueDate;
      form := WithField(form, field, value);
      errors := errors[field := ValidateField(field, value)];
      if field == EmiDueDate && value != before {
        dpd := DpdEffect(value, dueMs, nowMs, dpd);
      }
    }

    /** `validateForm()`: the errors become exactly the four checks, and
        the form passes when none of them has a message. */
    method ValidateForm() returns (ok: bool)
      modifies this`errors
      ensures errors == FormErrors(form) && ok == NoErrors(errors)
    {
      errors := FormErrors(form);
      ok := NoErrors(errors);
    }

    /** `fillMockData()` with the drawn scenario and amounts, followed by
        the days-past-due effect, which runs when the due date changed. */
    method FillMockData(d: Draws, dueMs: Option<int>, nowMs: int)
      requires Valid() && DrawsInRange(d)
      modifies this`form, this`dpd
      ensures Valid()
      ensures form == FillMock(old(form), loans[d.scenario], d)
      ensures dpd == if loans[d.scenario].emiDueDate != old(form.emiDueDate)
        then DpdEffect(loans[d.scenario].emiDueDate, dueMs, nowMs, old(dpd)) else old(dpd)
    {
      var loan := loans[d.scenario];
      var before := form.emiDueDate;
      form := FillMock(form, loan, d);
      if loan.emiDueDate != before {
        dpd := DpdEffect(loan.emiDueDate, dueMs, nowMs, dpd);
      }
    }

    /** `handleUserInfoSubmit`: a form that passes is filled with the
        drawn mock loan and the wizard moves to step 2; one that does not
        stays, with its errors shown. */
    method HandleUserInfoSubmit(d: Draws, dueMs: Option<int>, nowMs: int) returns (ok: bool)
      requires Valid() && DrawsInRange(d)
      modifies this`errors, this`form, this`step, this`dpd
      ensures Valid()
      ensures errors == FormErrors(old(form)) && ok == NoErrors(errors)
      ensures !ok ==> unchanged(`form, `step, `dpd)
      ensures ok ==> form == FillMock(old(form), loans[d.scenario], d) && step == 2
      ensures ok ==> dpd == if loans[d.scenario].emiDueDate != old(form.emiDueDate)
        then DpdEffect(loans[d.scenario].emiDueDate, dueMs, nowMs, old(dpd)) else old(dpd)
    {
      // The checks' definitions play no part in this proof.
      hide NameError, PhoneError, EmailError, NbfcError;
      ok := ValidateForm();
      if ok {
        FillMockData(d, dueMs, nowMs);
        step := 2;
      }
    }

    /** `startPolling(room)`: the interval the reference holds is cleared
        first, then a fresh poll is scheduled and referenced, so it is
        the only one scheduled. */
    method StartPolling(room: string)
      requires OneLive(timers)
      modifies this`timers
      ensures OneLive(timers)
      ensures timers == Timers(Some(|old(timers.polls)|),
        Cleared(old(timers)).polls + [ModalPoll(room, false, 0, true, true)])
    {
      var c := Cleared(timers);
      timers := Timers(Some(|c.polls|), c.polls + [ModalPoll(room, false, 0, true, true)]);
    }

    /** An accepted call request: the call is on, the artifacts of any
        earlier call are cleared, the poll of `room` starts, and the
        wizard moves to step 3. */
    method Connect(room: string)
      requires Valid()
      modifies this`flags, this`media, this`timers, this`step
      ensures Valid()
      ensures flags == old(flags).(isConnecting := false, isCallActive := true, isOngoingCall := true,
        isPolling := true, isSystemReady := false)
      ensures media == NoMedia && step == 3
      ensures timers == Timers(Some(|old(timers.polls)|),
        Cleared(old(timers)).polls + [ModalPoll(room, false, 0, true, true)])
    {
      flags := flags.(isConnecting := false, isCallActive := true, isOngoingCall := true,
        isPolling := true, isSystemReady := false);
      media := NoMedia;
      StartPolling(room);
      step := 3;
    }

    /** `handleCallTrigger()` at the instant `iso`, answered by `reply`.
        Without a name or a phone number nothing is sent. Otherwise the
        request, which carries the loan type, goes out with a new room;
        an accepted request (status 200) clears the artifacts, starts the
        poll and moves to step 3; anything else makes the system ready
        again and stays at the step. */
    method HandleCallTrigger(iso: string, reply: Reply) returns (request: Option<Payload>)
      requires Valid()
      modifies this`roomName, this`flags, this`media, this`timers, this`step
      ensures Valid()
      ensures !HasContact(old(form)) ==> request.None? && unchanged(`roomName, `flags, `media, `timers, `step)
      ensures HasContact(old(form)) ==>
        var room := RoomName(old(form.phone), iso);
        request == Some(BuildPayload(old(form), old(dpd), room, true)) && roomName == room
      ensures HasContact(old(form)) && CallAccepted(reply) ==>
        flags == old(flags).(isConnecting := false, isCallActive := true, isOngoingCall := true,
          isPolling := true, isSystemReady := false) &&
        media == NoMedia && step == 3 &&
        timers == Timers(Some(|old(timers.polls)|),
          Cleared(old(timers)).polls + [ModalPoll(RoomName(old(form.phone), iso), false, 0, true, true)])
      ensures HasContact(old(form)) && !CallAccepted(reply) ==>
        flags == old(flags).(isConnecting := false, isSystemReady := true) &&
        unchanged(`media, `timers, `step)
    {
      hide RoomName, BuildPayload;
      if !HasContact(form) {
        return None;
      }
      var room := RoomName(form.phone, iso);
      roomName := room;
      request := Some(BuildPayload(form, dpd, room, true));
      if CallAccepted(reply) {
        Connect(room);
      } else {
        flags := flags.(isConnecting := false, isSystemReady := true);
      }
    }

    /** `fetchMediaFiles(room)`: the recording URL, the transcript and
        the analysis (five attempts); then the system is ready and the
        wizard shows the analysis, step 4. */
    method FetchMediaFiles(room: string, transcriptReply: Reply, analysisReplies: nat -> Reply)
      returns (attempts: nat, trace: seq<Effect>)
      modifies this`media, this`flags, this`step
      ensures media.recordingUrl == ProxyUrl(RecordingTarget(room))
      ensures media.transcript == TranscriptAfter(transcriptReply, old(media.transcript))
      ensures exists found ::
        RetryResult(5, analysisReplies, parse, found, attempts) &&
        media.outcome == (if found.Some? then found.value else old(media.outcome))
      ensures trace == [Fetch(ProxyUrl(TranscriptTarget(room)))] + Schedule(ProxyUrl(AnalysisTarget(room)), attempts)
      ensures flags == old(flags).(isSystemReady := true, isLoadingMedia := false) && step == 4
    {
      var found;
      media, found, attempts, trace := RetrieveArtifacts(room, media, transcriptReply, analysisReplies, parse);
      flags := flags.(isSystemReady := true, isLoadingMedia := false);
      step := 4;
    }

    /** The closure's ending branch, once the room it watches is gone:
        it stops, the call flags drop, the referenced interval is
        cleared, the artifacts are fetched, and its latch is reset. */
    method EndCall(id: nat, transcriptReply: Reply, analysisReplies: nat -> Reply)
      returns (trace: seq<Effect>)
      requires Valid() && id < |timers.polls|
      modifies this`timers, this`flags, this`media, this`step
      ensures Valid()
      ensures var p := old(timers.polls[id]);
        flags == old(flags).(isCallActive := false, isOngoingCall := false, isPolling := false,
          isSystemReady := true) &&
        step == 4 &&
        timers == Timers(None, Cleared(old(timers)).polls[id :=
          p.(lastRoomPresent := false, shouldContinue := false, live := false)]) &&
        media.recordingUrl == ProxyUrl(RecordingTarget(p.room)) &&
        media.transcript == TranscriptAfter(transcriptReply, old(media.transcript)) &&
        exists found, attempts ::
          RetryResult(5, analysisReplies, parse, found, attempts) &&
          media.outcome == (if found.Some? then found.value else old(media.outcome)) &&
          trace == [Fetch(ProxyUrl(TranscriptTarget(p.room)))] + Schedule(ProxyUrl(AnalysisTarget(p.room)), attempts)
    {
      var p := timers.polls[id];
      flags := flags.(isCallActive := false, isOngoingCall := false, isPolling := false);
      var c := Cleared(timers);
      timers := Timers(None, c.polls[id := p.(lastRoomPresent := false, shouldContinue := false, live := false)]);
      var attempts;
      attempts, trace := FetchMediaFiles(p.room, transcriptReply, analysisReplies);
    }

    /** One run of the closure of poll `id`, whose interval is still
        scheduled: a cleared interval never fires. A closure told to stop only
        clears the referenced interval. Otherwise the tick is counted; a
        failed tick changes nothing more. A good tick shows whether the
        room is listed, and the latch takes the observation; when the
        room is gone and the previous good tick saw it, the call ends. */
    method Tick(id: nat, reply: Reply, transcriptReply: Reply, analysisReplies: nat -> Reply)
      returns (ended: bool, trace: seq<Effect>)
      requires Valid() && id < |timers.polls| && timers.polls[id].live
      modifies this`timers, this`flags, this`media, this`step
      ensures Valid() && |timers.polls| == old(|timers.polls|)
      ensures var p := old(timers.polls[id]);
        ended <==> p.shouldContinue && TickObservation(reply, p.room) == Some(false) && p.lastRoomPresent
      ensures !old(timers.polls[id].shouldContinue) ==>
        timers == Cleared(old(timers)) && trace == [] && unchanged(`flags, `media, `step)
      ensures var p := old(timers.polls[id]);
        p.shouldContinue && TickObservation(reply, p.room).None? ==>
          timers == old(timers).(polls := old(timers.polls)[id := p.(pollCount := p.pollCount + 1)]) &&
          trace == [] && unchanged(`flags, `media, `step)
      ensures var p, o := old(timers.polls[id]), TickObservation(reply, old(timers.polls[id].room));
        p.shouldContinue && o.Some? && !ended ==>
          flags == old(flags).(isOngoingCall := o.value) &&
          timers == old(timers).(polls := old(timers.polls)[id :=
            p.(pollCount := p.pollCount + 1, lastRoomPresent := o.value)]) &&
          trace == [] && unchanged(`media, `step)
      ensures var p := old(timers.polls[id]);
        ended ==>
          flags == old(flags).(isCallActive := false, isOngoingCall := false, isPolling := false,
            isSystemReady := true) &&
          step == 4 &&
          timers == Timers(None, Cleared(old(timers)).polls[id :=
            p.(pollCount := p.pollCount + 1, lastRoomPresent := false, shouldContinue := false, live := false)]) &&
          media.recordingUrl == ProxyUrl(RecordingTarget(p.room)) &&
          media.transcript == TranscriptAfter(transcriptReply, old(media.transcript)) &&
          exists found, attempts ::
            RetryResult(5, analysisReplies, parse, found, attempts) &&
            media.outcome == (if found.Some? then found.value else old(media.outcome)) &&
            trace == [Fetch(ProxyUrl(TranscriptTarget(p.room)))] + Schedule(ProxyUrl(AnalysisTarget(p.room)), attempts)
    {
      var p := timers.polls[id];
      ended, trace := false, [];
      if !p.shouldContinue {
        timers := Cleared(timers);
        return;
      }
      p := p.(pollCount := p.pollCount + 1);
      timers := timers.(polls := timers.polls[id := p]);
      var o := TickObservation(reply, p.room);
      if o.None? {
        return;
      }
      var present := o.value;
      if !present && p.lastRoomPresent {
        trace := EndCall(id, transcriptReply, analysisReplies);
        ended := true;
      } else {
        flags := flags.(isOngoingCall := present);
        timers := timers.(polls := timers.polls[id := p.(lastRoomPresent := present)]);
      }
    }

    /** Where a run of the poll `id` over the observations `seen` has
        got to: `ended` is the tick that ended the call, if any; until
        then the poll is referenced and running, holds the latch of the
        last good tick, and has counted every tick; once it has ended, it
        is stopped, the wizard shows the analysis, and later ticks are not
        counted. */
    predicate Progress(id: nat, room: string, count: nat, seen: seq<Option<bool>>, ended: Option<nat>)
      reads this
    {
      id < |timers.polls| && timers.polls[id].room == room &&
      ended == EndIndex(false, seen) &&
      (ended.None? ==>
        timers.ref == Some(id) && timers.polls[id].shouldContinue &&
        timers.polls[id].lastRoomPresent == LatchAfter(false, seen) &&
        timers.polls[id].pollCount == count + |seen|) &&
      (ended.Some? ==>
        timers.ref.None? && !timers.polls[id].shouldContinue && step == 4 &&
        flags.isSystemReady && !flags.isCallActive &&
        timers.polls[id].pollCount == count + ended.value + 1)
    }

    /** The next tick of a run: it runs only while the call has not ended,
        and the run's progress takes in its observation. */
    method PollStep(id: nat, room: string, count: nat, seen: seq<Option<bool>>, ended: Option<nat>,
                    reply: Reply, transcriptReply: Reply, analysisReplies: nat -> Reply)
      returns (next: Option<nat>)
      requires Valid() && Progress(id, room, count, seen, ended)
      modifies this`timers, this`flags, this`media, this`step
      ensures Valid() && Progress(id, room, count, seen + [TickObservation(reply, room)], next)
    {
      var o := TickObservation(reply, room);
      EndIndexSnoc(false, seen, o);
      LatchAfterSnoc(false, seen, o);
      next := ended;
      if ended.None? {
        var e, trace := Tick(id, reply, transcriptReply, analysisReplies);
        if e {
          next := Some(|seen|);
        }
      }
    }

    /** The referenced poll, fresh, run over the replies of its
        successive ticks while it stays scheduled: it ends the call at the
        tick `EndIndex` names, the first tick that finds the room gone
        after a good tick saw it, and keeps running, counting every tick,
        when there is none. */
    method RunPoll(id: nat, replies: seq<Reply>, transcriptReply: Reply, analysisReplies: nat -> Reply)
      returns (ended: Option<nat>)
      requires Valid() && timers.ref == Some(id)
      requires timers.polls[id].shouldContinue && !timers.polls[id].lastRoomPresent
      modifies this`timers, this`flags, this`media, this`step
      ensures Valid() && id < |timers.polls|
      ensures ended == EndIndex(false, Observations(replies, old(timers.polls[id].room)))
      ensures ended.Some? <==> timers.ref.None?
      ensures ended.None? ==>
        timers.ref == Some(id) && timers.polls[id].shouldContinue &&
        timers.polls[id].lastRoomPresent == LatchAfter(false, Observations(replies, old(timers.polls[id].room))) &&
        timers.polls[id].pollCount == old(timers.polls[id].pollCount) + |replies|
      ensures ended.Some? ==>
        !timers.polls[id].shouldContinue && step == 4 && flags.isSystemReady && !flags.isCallActive &&
        timers.polls[id].pollCount == old(timers.polls[id].pollCount) + ended.value + 1
    {
      var room, count := timers.polls[id].room, timers.polls[id].pollCount;
      var obs := Observations(replies, room);
      ended := None;
      var i := 0;
      while i < |replies|
        invariant 0 <= i <= |replies|
        invariant Valid() && Progress(id, room, count, obs[..i], ended)
        decreases |replies| - i
      {
        assert obs[..i + 1] == obs[..i] + [obs[i]];
        ended := PollStep(id, room, count, obs[..i], ended, replies[i], transcriptReply, analysisReplies);
        i := i + 1;
      }
      assert obs[..i] == obs;
    }

    /** `resetModal()`: the referenced interval is cleared and every
        other part of the state is back to its initial value. */
    method ResetModal()
      requires Valid()
      modifies this
      ensures Valid()
      ensures step == 1 && form == InitialForm && flags == InitialFlags && dpd == Days(0)
      ensures errors == map[] && roomName == "" && media == NoMedia
      ensures timers == Cleared(old(timers))
    {
      timers := Cleared(timers);
      step, form, flags, dpd := 1, InitialForm, InitialFlags, Days(0);
      errors, roomName, media := map[], "", NoMedia;
    }

    /** The unmount cleanup: the referenced interval is cleared. */
    method Unmount()
      requires Valid()
      modifies this`timers
      ensures Valid() && timers == Cleared(old(timers))
    {
      timers := Cleared(timers);
    }
  }

  /** From step 2 with the call button enabled, an accepted call moves
      the wizard to step 3 with the button disabled and with the new poll
      as the only scheduled interval. */
  method AcceptedCallLocksButton(m: Modal, iso: string, reply: Reply) returns (request: Option<Payload>)
    requires m.Valid() && m.step == 2 && m.CallEnabled() && CallAccepted(reply)
    modifies m
    ensures m.Valid() && m.step == 3 && !m.CallEnabled() && m.flags.isOngoingCall
    ensures request.Some? && request.value.roomname == m.roomName
    ensures m.timers.ref == Some(|m.timers.polls| - 1)
    ensures forall i :: 0 <= i < |m.timers.polls| && m.timers.polls[i].live ==> i == |m.timers.polls| - 1
  {
    request := m.HandleCallTrigger(iso, reply);
  }
}

/**
 * Applicant onboarding (`/api/applicants`): sign-up with an emailed one-time
 * code, code verification and resend, and the admin routes over the
 * `applicants` table.
 *
 * Two tables take part: `applicants`, whose `passport_number` is UNIQUE, and
 * `otp_codes`, an append-only log of (email, code, expiry) rows that nothing
 * ever updates or deletes; a code is accepted while its expiry lies in the
 * future, and accepting it does not consume it.
 */
module Applicants {
  import opened Tables
  import opened Http

  /** `10 * 60 * 1000`: a code expires ten minutes (in milliseconds) after it is issued. */
  const OtpLifetime: nat := 600000
  /** `Math.floor(100000 + Math.random() * 900000)` ranges over [CodeBase, CodeBase + CodeRange). */
  const CodeBase: nat := 100000
  const CodeRange: nat := 900000

  // ---------------------------------------------------------------- codes

  predicate IsDigits(s: string) {
    forall i :: 0 <= i < |s| ==> '0' <= s[i] <= '9'
  }

  function Digit(d: nat): (c: char)
    requires d < 10
    ensures '0' <= c <= '9'
  {
    (d + '0' as int) as char
  }

  function DigitValue(c: char): nat
    requires '0' <= c <= '9'
  {
    c as int - '0' as int
  }

  /** `Number.prototype.toString()` of a non-negative integer: decimal digits, no leading zero. */
  function Decimal(n: nat): (s: string)
    ensures |s| >= 1 && IsDigits(s)
    ensures n > 0 ==> s[0] != '0'
  {
    if n < 10 then [Digit(n)] else Decimal(n / 10) + [Digit(n % 10)]
  }

  /** A string of decimal digits read back as a number. */
  function DecimalValue(s: string): nat
    requires IsDigits(s)
  {
    if |s| == 0 then 0 else DecimalValue(s[..|s| - 1]) * 10 + DigitValue(s[|s| - 1])
  }

  lemma {:induction false} DecimalRoundTrip(n: nat)
    ensures DecimalValue(Decimal(n)) == n
  {
    if n >= 10 {
      var s := Decimal(n);
      assert s[..|s| - 1] == Decimal(n / 10);
      DecimalRoundTrip(n / 10);
    }
  }

  function Pow10(k: nat): nat {
    if k == 0 then 1 else 10 * Pow10(k - 1)
  }

  /** A number with k digits prints as k characters. */
  lemma {:induction false} DecimalLength(n: nat, k: nat)
    requires k >= 1 && Pow10(k - 1) <= n < Pow10(k)
    ensures |Decimal(n)| == k
  {
    if k > 1 {
      assert Pow10(k - 1) == 10 * Pow10(k - 2);
      assert n >= 10;
      assert Pow10(k - 2) <= n / 10 < Pow10(k - 1);
      DecimalLength(n / 10, k - 1);
    }
  }

  /**
   * The code `POST /` and `POST /resend-otp` generate; `draw` stands for
   * `Math.floor(Math.random() * 900000)`, the only random part.
   */
  function OtpCode(draw: nat): (code: string)
    requires draw < CodeRange
    ensures |code| == 6 && IsDigits(code)
    ensures DecimalValue(code) == CodeBase + draw
    ensures CodeBase <= DecimalValue(code) <= 999999
  {
    assert Pow10(5) == CodeBase && Pow10(6) == CodeBase + CodeRange;
    DecimalLength(CodeBase + draw, 6);
    DecimalRoundTrip(CodeBase + draw);
    Decimal(CodeBase + draw)
  }

  /** Different draws give different codes. */
  lemma OtpCodeInjective(d1: nat, d2: nat)
    requires d1 < CodeRange && d2 < CodeRange && d1 != d2
    ensures OtpCode(d1) != OtpCode(d2)
  {
    assert DecimalValue(OtpCode(d1)) != DecimalValue(OtpCode(d2));
  }

  // ---------------------------------------------------------------- rows

  /** A row of `applicants` (the step-2 and step-3 columns, never written by these routes, are left out). */
  datatype Applicant = Applicant(
    passportNumber: string,
    firstName: Option<string>,
    lastName: Option<string>,
    noFirstName: bool,
    noLastName: bool,
    nationality: string,
    email: string,
    phone: string,
    countryCode: string,
    passportImage: string,
    passwordHash: string,
    status: string,
    isVerified: bool,
    verificationCode: Option<string>,
    verificationStatus: string,
    currentStep: int)

  /** The body of `POST /api/applicants`; the password goes to the hasher and only its digest reaches the table. */
  datatype Application = Application(
    passportNumber: string,
    firstName: Option<string>,
    lastName: Option<string>,
    noFirstName: Option<bool>,
    noLastName: Option<bool>,
    nationality: string,
    email: string,
    phone: string,
    countryCode: string,
    passportImagePath: string)

  /** JavaScript truthiness of an optional boolean flag: only a present `true` counts. */
  predicate Truthy(flag: Option<bool>) {
    flag == Some(true)
  }

  /** The row `POST /` inserts, with the schema's defaults for the columns it does not name. */
  function NewApplicant(a: Application, passwordHash: string): (r: Applicant)
    ensures Truthy(a.noFirstName) ==> r.firstName == None && r.noFirstName
    ensures !Truthy(a.noFirstName) ==> r.firstName == a.firstName && !r.noFirstName
    ensures Truthy(a.noLastName) ==> r.lastName == None && r.noLastName
    ensures !Truthy(a.noLastName) ==> r.lastName == a.lastName && !r.noLastName
    ensures r.passportNumber == a.passportNumber && r.email == a.email
    ensures r.passwordHash == passwordHash && r.passportImage == a.passportImagePath
    ensures r.status == "Pending" && !r.isVerified
    ensures r.verificationCode == None && r.verificationStatus == "Pending" && r.currentStep == 1
  {
    Applicant(
      a.passportNumber,
      if Truthy(a.noFirstName) then None else a.firstName,
      if Truthy(a.noLastName) then None else a.lastName,
      Truthy(a.noFirstName),
      Truthy(a.noLastName),
      a.nationality, a.email, a.phone, a.countryCode, a.passportImagePath,
      passwordHash,
      "Pending",
      false,  // is_verified BIT DEFAULT 0
      None,
      "Pending",  // verification_status DEFAULT 'Pending'
      1)  // current_step DEFAULT 1
  }

  function PassportOf(row: Row<Applicant>): string { row.data.passportNumber }

  predicate PassportTaken(rows: seq<Row<Applicant>>, passport: string) {
    exists i :: 0 <= i < |rows| && rows[i].data.passportNumber == passport
  }

  /** `UPDATE applicants SET is_verified = 1 WHERE email = $1` (this statement leaves `updated_at` alone). */
  function MarkVerified(rows: seq<Row<Applicant>>, email: string): (r: seq<Row<Applicant>>)
    ensures |r| == |rows|
    ensures forall i :: 0 <= i < |rows| && rows[i].data.email != email ==> r[i] == rows[i]
    ensures forall i :: 0 <= i < |rows| && rows[i].data.email == email ==>
      r[i] == rows[i].(data := rows[i].data.(isVerified := true))
  {
    if |rows| == 0 then []
    else
      var head := if rows[0].data.email == email then rows[0].(data := rows[0].data.(isVerified := true)) else rows[0];
      var rest := MarkVerified(rows[1..], email);
      assert forall i :: 1 <= i < |rows| ==> rows[i] == rows[1..][i - 1];
      [head] + rest
  }

  /** Verifying the same email twice leaves the table as verifying it once. */
  lemma MarkVerifiedIdempotent(rows: seq<Row<Applicant>>, email: string)
    ensures MarkVerified(MarkVerified(rows, email), email) == MarkVerified(rows, email)
  {
    var once := MarkVerified(rows, email);
    assert forall i :: 0 <= i < |rows| ==> once[i].data.email == rows[i].data.email;
  }

  /** A row of `otp_codes`. */
  datatype OtpRow = OtpRow(id: nat, email: string, code: string, expiry: nat, createdAt: nat)

  /** `WHERE email = $1 AND code = $2 AND expiry > NOW()`. */
  predicate Accepts(row: OtpRow, email: string, code: string, now: nat) {
    row.email == email && row.code == code && row.expiry > now
  }

  predicate HasValidOtp(log: seq<OtpRow>, email: string, code: string, now: nat) {
    exists i :: 0 <= i < |log| && Accepts(log[i], email, code, now)
  }

  /** `... ORDER BY created_at DESC LIMIT 1`: the newest row that accepts (email, code) now. */
  function LatestValid(log: seq<OtpRow>, email: string, code: string, now: nat): (r: Option<OtpRow>)
    ensures r.None? <==> !HasValidOtp(log, email, code, now)
    ensures r.Some? ==> r.value in log && Accepts(r.value, email, code, now)
    ensures r.Some? ==> forall i :: 0 <= i < |log| && Accepts(log[i], email, code, now) ==>
      log[i].createdAt <= r.value.createdAt
  {
    if |log| == 0 then None
    else
      var init := log[..|log| - 1];
      var last := log[|log| - 1];
      var rest := LatestValid(init, email, code, now);
      assert forall i :: 0 <= i < |log| - 1 ==> log[i] == init[i];
      if Accepts(last, email, code, now) && (rest.None? || rest.value.createdAt <= last.createdAt) then Some(last)
      else rest
  }

  /** An accepting row stays accepting when rows are appended: resend never invalidates an earlier code. */
  lemma {:induction false} AppendKeepsValid(log: seq<OtpRow>, more: seq<OtpRow>, email: string, code: string, now: nat)
    requires HasValidOtp(log, email, code, now)
    ensures HasValidOtp(log + more, email, code, now)
  {
    var i :| 0 <= i < |log| && Accepts(log[i], email, code, now);
    assert (log + more)[i] == log[i];
  }

  /** A code issued at `issued` is accepted exactly until ten minutes have passed, unless another row accepts it. */
  lemma IssuedCodeWindow(log: seq<OtpRow>, row: OtpRow, issued: nat, now: nat)
    requires row.expiry == issued + OtpLifetime
    requires !HasValidOtp(log, row.email, row.code, now)
    ensures HasValidOtp(log + [row], row.email, row.code, now) <==> now < issued + OtpLifetime
  {
    var ext := log + [row];
    assert ext[|log|] == row;
    if HasValidOtp(ext, row.email, row.code, now) {
      var i :| 0 <= i < |ext| && Accepts(ext[i], row.email, row.code, now);
      if i < |log| {
        assert ext[i] == log[i];
      }
    }
  }

  /** The message `sendOTPEmail` is asked to deliver; whether it arrives changes nothing. */
  datatype OtpMail = OtpMail(to: string, code: string)

  // ---------------------------------------------------------------- the tables

  class Onboarding {
    var applicants: seq<Row<Applicant>>
    /** The identity counter of `applicants`. */
    var nextId: nat
    /** `otp_codes`; only ever appended to, so its ids are 1, 2, 3, ... in order. */
    var otps: seq<OtpRow>

    ghost predicate Valid()
      reads this
    {
      && Identity(applicants, nextId)
      && Distinct(applicants, PassportOf)
      && (forall i :: 0 <= i < |otps| ==> otps[i].id == i + 1)
      && (forall i :: 0 <= i < |otps| ==> |otps[i].code| == 6 && IsDigits(otps[i].code))
    }

    constructor ()
      ensures Valid() && applicants == [] && otps == [] && nextId == 1
    {
      applicants, nextId, otps := [], 1, [];
    }

    /**
     * `POST /`: refuses a passport number that is already stored; otherwise issues a
     * code valid for ten minutes, hands it to the mailer (whose failure is swallowed),
     * logs it, inserts a `Pending` applicant and returns its id.
     */
    method Create(a: Application, passwordHash: string, draw: nat, now: nat)
      returns (resp: Response<Created>, mail: Option<OtpMail>)
      requires Valid() && draw < CodeRange
      modifies this
      ensures Valid()
      ensures PassportTaken(old(applicants), a.passportNumber) ==>
        && resp == Failure(400, "Applicant already exists with this passport")
        && mail == None
        && applicants == old(applicants) && otps == old(otps) && nextId == old(nextId)
      ensures !PassportTaken(old(applicants), a.passportNumber) ==>
        && mail == Some(OtpMail(a.email, OtpCode(draw)))
        && otps == old(otps) + [OtpRow(|old(otps)| + 1, a.email, OtpCode(draw), now + OtpLifetime, now)]
        && applicants == old(applicants) + [Row(old(nextId), now, now, NewApplicant(a, passwordHash))]
        && nextId == old(nextId) + 1
        && resp == Success(201, Created("Application submitted successfully", old(nextId)))
    {
      if PassportTaken(applicants, a.passportNumber) {
        return Failure(400, "Applicant already exists with this passport"), None;
      }
      var code := OtpCode(draw);
      mail := Some(OtpMail(a.email, code));
      otps := otps + [OtpRow(|otps| + 1, a.email, code, now + OtpLifetime, now)];
      var id := nextId;
      var row := Row(id, now, now, NewApplicant(a, passwordHash));
      AppendKeepsIdentity(applicants, nextId, row);
      applicants := applicants + [row];
      nextId := nextId + 1;
      resp := Success(201, Created("Application submitted successfully", id));
    }

    /**
     * `POST /verify-otp`: succeeds iff some logged row has exactly this email and code and
     * has not expired; then flags every applicant with that email as verified. The log is
     * left as it was, so the same code keeps working until it expires.
     */
    method VerifyOtp(email: string, code: string, now: nat) returns (resp: Response<string>)
      requires Valid()
      modifies this
      ensures Valid()
      ensures otps == old(otps) && nextId == old(nextId)
      ensures HasValidOtp(old(otps), email, code, now) ==>
        resp == Success(200, "Email verified successfully") && applicants == MarkVerified(old(applicants), email)
      ensures !HasValidOtp(old(otps), email, code, now) ==>
        resp == Failure(400, "Invalid or expired OTP") && applicants == old(applicants)
    {
      var found := LatestValid(otps, email, code, now);
      if found.None? {
        return Failure(400, "Invalid or expired OTP");
      }
      var marked := MarkVerified(applicants, email);
      assert forall i :: 0 <= i < |applicants| ==> marked[i].id == applicants[i].id && PassportOf(marked[i]) == PassportOf(applicants[i]);
      applicants := marked;
      resp := Success(200, "Email verified successfully");
    }

    /** `POST /resend-otp`: logs one more code for the email; earlier codes stay as they were. */
    method ResendOtp(email: string, draw: nat, now: nat) returns (resp: Response<string>, mail: OtpMail)
      requires Valid() && draw < CodeRange
      modifies this
      ensures Valid()
      ensures otps == old(otps) + [OtpRow(|old(otps)| + 1, email, OtpCode(draw), now + OtpLifetime, now)]
      ensures applicants == old(applicants) && nextId == old(nextId)
      ensures mail == OtpMail(email, OtpCode(draw))
      ensures resp == Success(200, "OTP resent successfully")
    {
      var code := OtpCode(draw);
      otps := otps + [OtpRow(|otps| + 1, email, code, now + OtpLifetime, now)];
      mail := OtpMail(email, code);
      resp := Success(200, "OTP resent successfully");
    }

    /** `GET /`: every applicant row (the password digest included), newest first. */
    function List(): (r: seq<Row<Applicant>>)
      reads this
      ensures NewestFirst(r) && multiset(r) == multiset(applicants)
    {
      SortNewestFirst(applicants)
    }

    /** `GET /:id`. */
    function Get(id: nat): (r: Response<Row<Applicant>>)
      reads this
      ensures r.Failure? <==> !HasId(applicants, id)
      ensures r.Failure? ==> r == Failure(404, "Applicant not found")
      ensures r.Success? ==> r.status == 200 && r.value in applicants && r.value.id == id
    {
      match FindById(applicants, id)
      case None => Failure(404, "Applicant not found")
      case Some(row) => Success(200, row)
    }

    /** `PUT /:id/status`: only that row's `status` (and `updated_at`) change; a missing id changes nothing. */
    method UpdateStatus(id: nat, status: string, now: nat) returns (resp: Response<string>)
      requires Valid()
      modifies this
      ensures Valid()
      ensures otps == old(otps) && nextId == old(nextId)
      ensures |applicants| == |old(applicants)|
      ensures forall i :: 0 <= i < |applicants| && old(applicants)[i].id != id ==> applicants[i] == old(applicants)[i]
      ensures forall i :: 0 <= i < |applicants| && old(applicants)[i].id == id ==>
        applicants[i] == old(applicants)[i].(updatedAt := now, data := old(applicants)[i].data.(status := status))
      ensures resp == Success(200, "Status updated")
    {
      SetDataKeepsIds(applicants, id, now, (x: Applicant) => x.(status := status), nextId);
      applicants := SetData(applicants, id, now, (x: Applicant) => x.(status := status));
      resp := Success(200, "Status updated");
    }

    /** `PUT /:id/verification`: only that row's verification code and status (and `updated_at`) change. */
    method UpdateVerification(id: nat, verificationCode: string, verificationStatus: string, now: nat)
      returns (resp: Response<string>)
      requires Valid()
      modifies this
      ensures Valid()
      ensures otps == old(otps) && nextId == old(nextId)
      ensures |applicants| == |old(applicants)|
      ensures forall i :: 0 <= i < |applicants| && old(applicants)[i].id != id ==> applicants[i] == old(applicants)[i]
      ensures forall i :: 0 <= i < |applicants| && old(applicants)[i].id == id ==>
        applicants[i] == old(applicants)[i].(updatedAt := now,
          data := old(applicants)[i].data.(verificationCode := Some(verificationCode), verificationStatus := verificationStatus))
      ensures resp == Success(200, "Verification updated")
    {
      var change := (x: Applicant) => x.(verificationCode := Some(verificationCode), verificationStatus := verificationStatus);
      SetDataKeepsIds(applicants, id, now, change, nextId);
      applicants := SetData(applicants, id, now, change);
      resp := Success(200, "Verification updated");
    }

    /** `DELETE /:id`: removes that row only; deleting a missing id still answers 200. */
    method Delete(id: nat) returns (resp: Response<string>)
      requires Valid()
      modifies this
      ensures Valid()
      ensures applicants == DeleteById(old(applicants), id)
      ensures otps == old(otps) && nextId == old(nextId)
      ensures resp == Success(200, "Applicant deleted")
    {
      DeleteKeepsIdentity(applicants, id, nextId);
      DeleteKeepsDistinct(applicants, id, PassportOf);
      applicants := DeleteById(applicants, id);
      resp := Success(200, "Applicant deleted");
    }
  }
}

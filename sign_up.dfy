/**
 * The applicant sign-up wizard (the `/auth/signup` page): four steps (passport
 * information, other details, contact information, account verification), a
 * validator per step that reports the first missing item, the six-cell
 * verification-code input, and the type and size gate on uploaded photos.
 *
 * The page's asynchronous calls (the upload, `register`, `verifyOTP`) are
 * modelled as settled: each handler takes the reply it receives as a
 * parameter and applies what the page does once the call settles.
 */
module SignUp {
  import opened Tables
  import Http
  import Applicants

  const FirstStep: int := 1
  const LastStep: int := 4
  /** The number of verification-code cells. */
  const CodeLength: nat := 6
  /** `3 * 1024 * 1024` bytes. */
  const MaxUpload: nat := 3145728
  const AllowedTypes: set<string> := {"image/jpeg", "image/png", "image/jpg"}

  datatype FileInfo = FileInfo(name: string, mimeType: string, size: nat)

  /** The form fields the page checks or sends; `countryCode` starts as '+966'. */
  datatype Form = Form(
    passportFile: Option<FileInfo>,
    passportImagePath: string,
    firstName: string,
    lastName: string,
    noFirstName: bool,
    noLastName: bool,
    passportNumber: string,
    nationality: string,
    occupationKey: string,
    email: string,
    phone: string,
    countryCode: string,
    verificationCode: string,
    captchaVerified: bool,
    password: string,
    confirmPassword: string,
    personalPhotoFile: Option<FileInfo>)

  function InitialForm(): Form {
    Form(None, "", "", "", false, false, "", "", "", "", "", "+966", "", false, "", "", None)
  }

  // ---------------------------------------------------------------- field edits

  /** The text inputs wired to `handleInputChange`. */
  datatype TextField =
    | FirstName | LastName | PassportNumber | Nationality | OccupationKey
    | Email | Phone | CountryCode | Password | ConfirmPassword

  /** The checkboxes wired to `handleInputChange`. */
  datatype FlagField = NoFirstName | NoLastName | CaptchaVerified

  function TextOf(f: Form, field: TextField): string {
    match field
    case FirstName => f.firstName
    case LastName => f.lastName
    case PassportNumber => f.passportNumber
    case Nationality => f.nationality
    case OccupationKey => f.occupationKey
    case Email => f.email
    case Phone => f.phone
    case CountryCode => f.countryCode
    case Password => f.password
    case ConfirmPassword => f.confirmPassword
  }

  function FlagOf(f: Form, field: FlagField): bool {
    match field
    case NoFirstName => f.noFirstName
    case NoLastName => f.noLastName
    case CaptchaVerified => f.captchaVerified
  }

  /** The parts of the form no input field writes: the uploads and the joined code. */
  predicate SameUploadsAndCode(f: Form, g: Form) {
    f.passportFile == g.passportFile && f.passportImagePath == g.passportImagePath
    && f.personalPhotoFile == g.personalPhotoFile && f.verificationCode == g.verificationCode
  }

  /** `{...prev, [field]: value}` for a text input: that field changes and no other. */
  function WithText(f: Form, field: TextField, value: string): (r: Form)
    ensures TextOf(r, field) == value
    ensures forall g: TextField :: g != field ==> TextOf(r, g) == TextOf(f, g)
    ensures forall g: FlagField :: FlagOf(r, g) == FlagOf(f, g)
    ensures SameUploadsAndCode(r, f)
  {
    match field
    case FirstName => f.(firstName := value)
    case LastName => f.(lastName := value)
    case PassportNumber => f.(passportNumber := value)
    case Nationality => f.(nationality := value)
    case OccupationKey => f.(occupationKey := value)
    case Email => f.(email := value)
    case Phone => f.(phone := value)
    case CountryCode => f.(countryCode := value)
    case Password => f.(password := value)
    case ConfirmPassword => f.(confirmPassword := value)
  }

  /** `{...prev, [field]: value}` for a checkbox: that flag changes and nothing else. */
  function WithFlag(f: Form, field: FlagField, value: bool): (r: Form)
    ensures FlagOf(r, field) == value
    ensures forall g: FlagField :: g != field ==> FlagOf(r, g) == FlagOf(f, g)
    ensures forall g: TextField :: TextOf(r, g) == TextOf(f, g)
    ensures SameUploadsAndCode(r, f)
  {
    match field
    case NoFirstName => f.(noFirstName := value)
    case NoLastName => f.(noLastName := value)
    case CaptchaVerified => f.(captchaVerified := value)
  }

  // ---------------------------------------------------------------- step validation

  /** One check of a validator: whether it passes, and the message shown when it does not. */
  datatype Check = Check(passes: bool, message: string)

  /** The message of the first failing check, or None when every check passes. */
  function FirstFailure(checks: seq<Check>): (r: Option<string>)
    ensures r.None? <==> forall i :: 0 <= i < |checks| ==> checks[i].passes
    ensures r.Some? ==> exists k :: (0 <= k < |checks| && !checks[k].passes && r.value == checks[k].message
                                     && forall i :: 0 <= i < k ==> checks[i].passes)
  {
    if |checks| == 0 then None
    else if !checks[0].passes then Some(checks[0].message)
    else
      var r := FirstFailure(checks[1..]);
      assert forall i :: 1 <= i < |checks| ==> checks[i] == checks[1..][i - 1];
      assert r.Some? ==> exists k :: (0 <= k < |checks| && !checks[k].passes && r.value == checks[k].message
                                      && forall i :: 0 <= i < k ==> checks[i].passes) by {
        if r.Some? {
          var k :| 0 <= k < |checks[1..]| && !checks[1..][k].passes && r.value == checks[1..][k].message
                   && forall i :: 0 <= i < k ==> checks[1..][i].passes;
          assert !checks[k + 1].passes && forall i :: 0 <= i < k + 1 ==> checks[i].passes;
        }
      }
      r
  }

  /** `validateStep`'s checks, in the order it makes them. */
  function StepChecks(step: int, f: Form): (r: seq<Check>)
    ensures forall i :: 0 <= i < |r| ==> r[i].message != ""
  {
    if step == 1 then [
      Check(f.passportImagePath != "", "Please upload your passport image"),
      Check(f.noFirstName || f.firstName != "", "Please enter your first name or check \"I do not have a first name\""),
      Check(f.noLastName || f.lastName != "", "Please enter your last name or check \"I do not have a last name\""),
      Check(f.passportNumber != "", "Please enter your passport number"),
      Check(f.nationality != "", "Please select your nationality")]
    else if step == 2 then [
      Check(f.occupationKey != "", "Please enter your occupation key")]
    else if step == 3 then [
      Check(f.email != "", "Please enter your email address"),
      Check(f.phone != "", "Please enter your phone number"),
      Check(|f.password| >= 8, "Password must be at least 8 characters"),
      Check(f.password == f.confirmPassword, "Passwords do not match")]
    else []
  }

  /** What each step asks of the form before the wizard moves on. */
  predicate StepComplete(step: int, f: Form) {
    if step == 1 then
      && f.passportImagePath != ""
      && (f.firstName != "" || f.noFirstName)
      && (f.lastName != "" || f.noLastName)
      && f.passportNumber != ""
      && f.nationality != ""
    else if step == 2 then f.occupationKey != ""
    else if step == 3 then
      f.email != "" && f.phone != "" && |f.password| >= 8 && f.password == f.confirmPassword
    else true
  }

  /** The checks of a step all pass exactly when the step is complete. */
  lemma ChecksMatchStep(step: int, f: Form)
    ensures (forall i :: 0 <= i < |StepChecks(step, f)| ==> StepChecks(step, f)[i].passes) <==> StepComplete(step, f)
  {
    var c := StepChecks(step, f);
    if StepComplete(step, f) {
      forall i | 0 <= i < |c| ensures c[i].passes {
        assert i == 0 || i == 1 || i == 2 || i == 3 || i == 4;
      }
    } else if step == 1 {
      assert !c[0].passes || !c[1].passes || !c[2].passes || !c[3].passes || !c[4].passes;
    } else if step == 3 {
      assert !c[0].passes || !c[1].passes || !c[2].passes || !c[3].passes;
    } else {
      assert !c[0].passes;
    }
  }

  /** `validateStep`: None when the step passes, else the message of its first failing check. */
  function ValidateStep(step: int, f: Form): (r: Option<string>)
    ensures r.None? <==> StepComplete(step, f)
    ensures r.Some? ==> r.value != ""
  {
    ChecksMatchStep(step, f);
    FirstFailure(StepChecks(step, f))
  }

  /** The step-3 checks are reported in order: a short password hides a mismatched confirmation. */
  lemma ShortPasswordReportedFirst(f: Form)
    requires f.email != "" && f.phone != "" && |f.password| < 8
    ensures ValidateStep(3, f) == Some("Password must be at least 8 characters")
  {
    var checks := StepChecks(3, f);
    assert checks[0].passes && checks[1].passes && !checks[2].passes;
  }

  /** Without a passport image nothing else on step 1 is reported. */
  lemma MissingImageReportedFirst(f: Form)
    requires f.passportImagePath == ""
    ensures ValidateStep(1, f) == Some("Please upload your passport image")
  {
    assert !StepChecks(1, f)[0].passes;
  }

  // ---------------------------------------------------------------- registration

  /**
   * How `register` settles: the JSON body it resolves with (whatever the status), of which
   * only `applicantId` is read, or the message of the error it rejects with.
   */
  datatype RegisterReply = Answered(applicantId: Option<int>) | Threw(message: string)

  /** `if (data.applicantId)`: present and not 0. */
  predicate Registered(reply: RegisterReply) {
    reply.Answered? && reply.applicantId.Some? && reply.applicantId.value != 0
  }

  /** The body `POST /api/applicants` answers with, as the page reads it: `applicantId` only on success. */
  function ReplyOf(resp: Http.Response<Http.Created>): RegisterReply {
    match resp
    case Success(_, created) => Answered(Some(created.id))
    case Failure(_, _) => Answered(None)
  }

  /** An application the backend stores moves the wizard on; one it refuses does not. */
  lemma RegisteredIffStored(resp: Http.Response<Http.Created>)
    requires resp.Success? ==> resp.value.id >= 1
    ensures Registered(ReplyOf(resp)) <==> resp.Success?
  {
  }

  /** The request body `handleRegister` sends; the password travels beside it to the hasher. */
  function ApplicationOf(f: Form): Applicants.Application {
    Applicants.Application(
      f.passportNumber, Some(f.firstName), Some(f.lastName), Some(f.noFirstName), Some(f.noLastName),
      f.nationality, f.email, f.phone, f.countryCode, f.passportImagePath)
  }

  /**
   * A form that passed step 1 yields an applicant row with a first and a last name, or
   * with the matching "no name" flag set and the name NULL, and with the passport image.
   */
  lemma StepOneReachesTheTable(f: Form, passwordHash: string)
    requires StepComplete(1, f)
    ensures var row := Applicants.NewApplicant(ApplicationOf(f), passwordHash);
      && (row.noFirstName <==> f.noFirstName)
      && (row.noFirstName ==> row.firstName == None)
      && (!row.noFirstName ==> row.firstName == Some(f.firstName) && f.firstName != "")
      && (row.noLastName <==> f.noLastName)
      && (row.noLastName ==> row.lastName == None)
      && (!row.noLastName ==> row.lastName == Some(f.lastName) && f.lastName != "")
      && row.passportNumber != "" && row.passportImage != ""
  {
  }

  /** The error `handleRegister` shows when registration does not go through. */
  function RegisterError(reply: RegisterReply): (r: string)
    requires !Registered(reply)
    ensures r != ""
  {
    match reply
    case Answered(_) => "Registration failed. Please try again."
    case Threw(message) => Http.OrElse(Some(message), "Registration failed")
  }

  /**
   * The step `handleNext` leads to: it moves on only from a step that validates; steps 1
   * and 2 move to the next step; step 3 moves to step 4 only once registration returns an
   * applicant id; nothing moves past step 4.
   */
  function NextStep(step: int, f: Form, reply: RegisterReply): (r: int)
    ensures FirstStep <= step <= LastStep ==> FirstStep <= r <= LastStep
    ensures r != step ==> StepComplete(step, f)
    ensures step == 1 || step == 2 ==> (r == step + 1 <==> StepComplete(step, f))
    ensures step == 3 ==> (r == 4 <==> StepComplete(3, f) && Registered(reply))
    ensures step == LastStep ==> r == LastStep
  {
    if ValidateStep(step, f).Some? then step
    else if step == 3 then (if Registered(reply) then LastStep else step)
    else if step + 1 < LastStep then step + 1 else LastStep
  }

  /** The error `handleNext` leaves: empty exactly when the step validated and, from step 3, registration went through. */
  function NextError(step: int, f: Form, reply: RegisterReply): (r: string)
    ensures !StepComplete(step, f) ==> Some(r) == ValidateStep(step, f)
    ensures r == "" <==> StepComplete(step, f) && (step == 3 ==> Registered(reply))
  {
    match ValidateStep(step, f)
    case Some(message) => message
    case None => if step == 3 && !Registered(reply) then RegisterError(reply) else ""
  }

  /** The applicant id the page keeps after `handleNext`. */
  function NextApplicantId(step: int, f: Form, reply: RegisterReply, id: Option<int>): (r: Option<int>)
    ensures r != id ==> step == 3 && StepComplete(3, f) && Registered(reply) && r == reply.applicantId
  {
    if step == 3 && ValidateStep(step, f).None? && Registered(reply) then reply.applicantId else id
  }

  // ---------------------------------------------------------------- the verification code

  /** `otpDigits.join('')`. */
  function Concat(cells: seq<string>): string {
    if |cells| == 0 then "" else cells[0] + Concat(cells[1..])
  }

  /** Cells of at most one character join to at most one character per cell, and to exactly one each iff none is empty. */
  lemma {:induction false} ConcatLength(cells: seq<string>)
    requires forall i :: 0 <= i < |cells| ==> |cells[i]| <= 1
    ensures |Concat(cells)| <= |cells|
    ensures |Concat(cells)| == |cells| <==> forall i :: 0 <= i < |cells| ==> |cells[i]| == 1
  {
    if |cells| > 0 {
      ConcatLength(cells[1..]);
      assert forall i :: 1 <= i < |cells| ==> cells[i] == cells[1..][i - 1];
    }
  }

  /** When every cell holds one character, the code reads the cells in order. */
  lemma {:induction false} ConcatReadsCells(cells: seq<string>)
    requires forall i :: 0 <= i < |cells| ==> |cells[i]| == 1
    ensures |Concat(cells)| == |cells|
    ensures forall i :: 0 <= i < |cells| ==> Concat(cells)[i] == cells[i][0]
  {
    if |cells| > 0 {
      ConcatReadsCells(cells[1..]);
      assert forall i :: 1 <= i < |cells| ==> cells[i] == cells[1..][i - 1];
    }
  }

  /** The verification button's length guard passes exactly when all six cells are filled. */
  lemma SixCellsFilled(cells: seq<string>)
    requires |cells| == CodeLength && forall i :: 0 <= i < |cells| ==> |cells[i]| <= 1
    ensures |Concat(cells)| == CodeLength <==> forall i :: 0 <= i < |cells| ==> cells[i] != ""
  {
    ConcatLength(cells);
  }

  // ---------------------------------------------------------------- verification

  datatype Outcome = Succeeded | Failed(message: string)

  const NotRobotMessage: string := "Please verify that you are not a robot"
  const CodeLengthMessage: string := "Please enter the 6-digit verification code"
  const VerifyFailedMessage: string := "Verification failed. Invalid or expired code."

  /** The two guards `handleVerify` runs before it calls the server. */
  function VerifyGuard(captcha: bool, code: string): (r: Option<string>)
    ensures r.None? <==> captcha && |code| == CodeLength
    ensures !captcha ==> r == Some(NotRobotMessage)
  {
    if !captcha then Some(NotRobotMessage)
    else if |code| != CodeLength then Some(CodeLengthMessage)
    else None
  }

  /**
   * `handleVerify` as written: `verifyOTP` resolves with the JSON body whatever the status
   * (`reply` is that status, None when the request itself fails), so any answer counts as success.
   */
  function VerifyOutcomeAsWritten(captcha: bool, code: string, reply: Option<nat>): (r: Outcome)
    ensures r == Succeeded <==> captcha && |code| == CodeLength && reply.Some?
  {
    match VerifyGuard(captcha, code)
    case Some(message) => Failed(message)
    case None => if reply.Some? then Succeeded else Failed(VerifyFailedMessage)
  }

  /** The server's answer to a wrong or expired code still completes sign-up in the page as written. */
  lemma AsWrittenAcceptsRejectedCode()
    ensures VerifyOutcomeAsWritten(true, "000000", Some(Http.Response<string>.Failure(400, "Invalid or expired OTP").status)) == Succeeded
  {
  }

  /** `handleVerify` with the reply's status checked: sign-up completes only when the server accepted the code. */
  function VerifyOutcome(captcha: bool, code: string, reply: Option<nat>): (r: Outcome)
    ensures r == Succeeded <==> captcha && |code| == CodeLength && reply == Some(200)
    ensures r.Failed? ==> r.message in {NotRobotMessage, CodeLengthMessage, VerifyFailedMessage}
  {
    match VerifyGuard(captcha, code)
    case Some(message) => Failed(message)
    case None => if reply == Some(200) then Succeeded else Failed(VerifyFailedMessage)
  }

  /** The corrected page turns the same rejection into the failure message. */
  lemma RejectedCodeFails(code: string)
    requires |code| == CodeLength
    ensures VerifyOutcome(true, code, Some(400)) == Failed(VerifyFailedMessage)
  {
  }

  // ---------------------------------------------------------------- uploads

  /** The gate of `handleFileSelect`: None for an accepted file, else the error it shows. */
  function AcceptFile(file: FileInfo): (r: Option<string>)
    ensures r.None? <==> file.mimeType in AllowedTypes && file.size <= MaxUpload
    ensures file.mimeType !in AllowedTypes ==> r == Some("Please upload a PNG, JPG, or JPEG image")
  {
    if file.mimeType !in AllowedTypes then Some("Please upload a PNG, JPG, or JPEG image")
    else if file.size > MaxUpload then Some("File size must be less than 3MB")
    else None
  }

  /** Which photo the file input was for. */
  datatype PhotoKind = PassportPhoto | PersonalPhoto

  /** How the upload to `/upload/passport` settles: the stored path, a non-OK status, or no connection. */
  datatype UploadReply = Stored(path: string) | Refused | Unreachable

  // ---------------------------------------------------------------- the page

  class Wizard {
    var currentStep: int
    var form: Form
    var otpDigits: seq<string>
    var error: string
    var success: bool
    var applicantId: Option<int>

    /** The step is one of the four, six code cells of at most one character each, and the code is their join. */
    ghost predicate Valid()
      reads this
    {
      && FirstStep <= currentStep <= LastStep
      && |otpDigits| == CodeLength
      && (forall i :: 0 <= i < |otpDigits| ==> |otpDigits[i]| <= 1)
      && form.verificationCode == Concat(otpDigits)
    }

    constructor ()
      ensures Valid()
      ensures currentStep == FirstStep && form == InitialForm() && error == "" && !success && applicantId == None
      ensures otpDigits == ["", "", "", "", "", ""]
    {
      currentStep := FirstStep;
      form := InitialForm();
      otpDigits := ["", "", "", "", "", ""];
      error := "";
      success := false;
      applicantId := None;
    }

    /** `handleInputChange` on a text input: sets the field and clears the error. */
    method HandleTextChange(field: TextField, value: string)
      requires Valid()
      modifies this
      ensures Valid()
      ensures form == WithText(old(form), field, value) && error == ""
      ensures currentStep == old(currentStep) && otpDigits == old(otpDigits)
      ensures success == old(success) && applicantId == old(applicantId)
    {
      form := WithText(form, field, value);
      error := "";
    }

    /** `handleInputChange` on a checkbox (the two "no name" boxes and the captcha). */
    method HandleFlagChange(field: FlagField, value: bool)
      requires Valid()
      modifies this
      ensures Valid()
      ensures form == WithFlag(old(form), field, value) && error == ""
      ensures currentStep == old(currentStep) && otpDigits == old(otpDigits)
      ensures success == old(success) && applicantId == old(applicantId)
    {
      form := WithFlag(form, field, value);
      error := "";
    }

    /**
     * `handleNext`, with `handleRegister` settled on `reply` when leaving step 3: the step,
     * the error and the applicant id follow NextStep, NextError and NextApplicantId.
     */
    method HandleNext(reply: RegisterReply)
      requires Valid()
      modifies this
      ensures Valid()
      ensures currentStep == NextStep(old(currentStep), old(form), reply)
      ensures error == NextError(old(currentStep), old(form), reply)
      ensures applicantId == NextApplicantId(old(currentStep), old(form), reply, old(applicantId))
      ensures form == old(form) && otpDigits == old(otpDigits) && success == old(success)
    {
      error := "";
      var failure := ValidateStep(currentStep, form);
      if failure.Some? {
        error := failure.value;
        return;
      }
      if currentStep == 3 {
        if Registered(reply) {
          applicantId := reply.applicantId;
          currentStep := LastStep;
        } else {
          error := RegisterError(reply);
        }
      } else {
        currentStep := if currentStep + 1 < LastStep then currentStep + 1 else LastStep;
      }
    }

    /** `handleBack`: one step back, never before step 1. */
    method HandleBack()
      requires Valid()
      modifies this
      ensures Valid()
      ensures old(currentStep) > FirstStep ==> currentStep == old(currentStep) - 1
      ensures old(currentStep) == FirstStep ==> currentStep == FirstStep
      ensures form == old(form) && otpDigits == old(otpDigits) && error == old(error)
      ensures success == old(success) && applicantId == old(applicantId)
    {
      currentStep := if currentStep - 1 > FirstStep then currentStep - 1 else FirstStep;
    }

    /** The "change email" link of step 4: back to the contact step. */
    method ChangeEmail()
      requires Valid()
      modifies this
      ensures Valid()
      ensures currentStep == 3
      ensures form == old(form) && otpDigits == old(otpDigits) && error == old(error)
      ensures success == old(success) && applicantId == old(applicantId)
    {
      currentStep := 3;
    }

    /**
     * `handleOtpChange` and the effect that joins the cells: a value longer than one
     * character is ignored; otherwise only cell `index` takes the value and the code is re-joined.
     */
    method HandleOtpChange(index: nat, value: string)
      requires Valid() && index < CodeLength
      modifies this
      ensures Valid()
      ensures |value| > 1 ==> otpDigits == old(otpDigits) && form == old(form)
      ensures |value| <= 1 ==>
        && otpDigits == old(otpDigits)[index := value]
        && form == old(form).(verificationCode := Concat(otpDigits))
      ensures currentStep == old(currentStep) && error == old(error)
      ensures success == old(success) && applicantId == old(applicantId)
    {
      if |value| > 1 {
        return;
      }
      otpDigits := otpDigits[index := value];
      form := form.(verificationCode := Concat(otpDigits));
    }

    /**
     * `handleVerify` as the page has it, settled on the status `reply` of the verify-code
     * request (None when the request fails): any answer at all sets `success`.
     */
    method HandleVerifyAsWritten(reply: Option<nat>)
      requires Valid()
      modifies this
      ensures Valid()
      ensures var outcome := VerifyOutcomeAsWritten(old(form.captchaVerified), old(form.verificationCode), reply);
        && (outcome == Succeeded ==> success && error == "")
        && (outcome.Failed? ==> success == old(success) && error == outcome.message)
      ensures currentStep == old(currentStep) && form == old(form) && otpDigits == old(otpDigits)
      ensures applicantId == old(applicantId)
    {
      var outcome := VerifyOutcomeAsWritten(form.captchaVerified, form.verificationCode, reply);
      match outcome
      case Succeeded =>
        error := "";
        success := true;
      case Failed(message) =>
        error := message;
    }

    /**
     * `handleVerify` corrected, settled on the status `reply` of the verify-code request (None
     * when the request fails): the reply's status is checked as VerifyOutcome states.
     */
    method HandleVerify(reply: Option<nat>)
      requires Valid()
      modifies this
      ensures Valid()
      ensures var outcome := VerifyOutcome(old(form.captchaVerified), old(form.verificationCode), reply);
        && (outcome == Succeeded ==> success && error == "")
        && (outcome.Failed? ==> success == old(success) && error == outcome.message)
      ensures currentStep == old(currentStep) && form == old(form) && otpDigits == old(otpDigits)
      ensures applicantId == old(applicantId)
    {
      var outcome := VerifyOutcome(form.captchaVerified, form.verificationCode, reply);
      match outcome
      case Succeeded =>
        error := "";
        success := true;
      case Failed(message) =>
        error := message;
    }

    /**
     * `handleFileSelect`: no file, nothing happens; a refused file only sets the error; an
     * accepted one is kept as the passport or personal photo and uploaded, and a stored upload's
     * path becomes `passportImagePath` whichever photo it was.
     */
    method HandleFileSelect(kind: PhotoKind, file: Option<FileInfo>, upload: UploadReply)
      requires Valid()
      modifies this
      ensures Valid()
      ensures file.None? ==> form == old(form) && error == old(error)
      ensures file.Some? && AcceptFile(file.value).Some? ==>
        form == old(form) && error == AcceptFile(file.value).value
      ensures file.Some? && AcceptFile(file.value).None? ==>
        var kept := if kind == PassportPhoto then old(form).(passportFile := file) else old(form).(personalPhotoFile := file);
        && form == (if upload.Stored? then kept.(passportImagePath := upload.path) else kept)
        && error == (match upload
                     case Stored(_) => old(error)
                     case Refused => "Failed to upload passport image"
                     case Unreachable => "Upload failed. Make sure the backend is running.")
      ensures currentStep == old(currentStep) && otpDigits == old(otpDigits)
      ensures success == old(success) && applicantId == old(applicantId)
    {
      if file.None? {
        return;
      }
      var refusal := AcceptFile(file.value);
      if refusal.Some? {
        error := refusal.value;
        return;
      }
      if kind == PassportPhoto {
        form := form.(passportFile := file);
      } else {
        form := form.(personalPhotoFile := file);
      }
      match upload
      case Stored(path) =>
        form := form.(passportImagePath := path);
      case Refused =>
        error := "Failed to upload passport image";
      case Unreachable =>
        error := "Upload failed. Make sure the backend is running.";
    }
  }
}

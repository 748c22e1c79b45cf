# Saudi skill-verification portal: routes, sign-up wizard and photo instructions

This project models three parts of a web portal where workers check certificates
and skill-test results and apply for an account.

- **The Express backend routes.** These cover applicants, users, authentication,
  certificates, labor results and support tickets. Each table is a class with a
  sequence of rows and an identity counter. Each route handler is a method or
  function that returns the status and body the route sends. The properties
  proved are:
  - the UNIQUE keys (user email, certificate serial, applicant passport number)
    are kept;
  - a write changes only the row it names, and nothing else;
  - the error paths send the route's own status and message;
  - one-time codes are six digits, and accepting one depends only on the code
    log;
  - login is correct both ways;
  - the `Authorization` header parser is a round trip.
- **The four-step sign-up page.** It is a `Wizard` class holding the page's
  state. It covers step validation (the first failing check's message), the step
  transitions, the six cells of the verification code and the upload gate. Each
  asynchronous call is modelled once it has settled: the handler takes the reply
  as a parameter.
- **The two photo-instruction dialogs** (passport scan and personal photo). They
  share one module for the page logic: a six-page step table, `handleNext`,
  `handleBack` and the text renderer that wraps bold fragments in `<strong>`.
  Each dialog has its own step table and a `Modal` class.

Inputs from outside the program are parameters:

- the clock is `now`, in milliseconds;
- `Math.random` is `draw < 900000`;
- the password hasher and JSON Web Token signing and checking are `compare`,
  `sign` and `verify`, and a digest is an argument;
- the one-time code mail is an out-value;
- the replies of `fetch` calls are `reply` or `upload` parameters.

Some members are deliberately alike. The two dialog modules each have their own
`RenderText`, `Modal` and step table, because the two source dialogs repeat the
same code. The admin `List` of the certificate, labor-result and support stores,
and the `Get` of the certificate and support stores, are the same one-line uses of
`SortNewestFirst` and `FindById`, because the routes repeat the same queries.

Files:

- `tables.dfy`: rows, identity, the UNIQUE-key predicate, and find, delete,
  update and newest-first ordering.
- `http.dfy`: responses and the JavaScript `x || fallback` idiom.
- `applicants.dfy`, `users.dfy`, `auth.dfy`, `certificates.dfy`,
  `labor_results.dfy`, `support.dfy`: the routes.
- `sign_up.dfy`: the sign-up page.
- `instruction_steps.dfy`, `passport_instructions.dfy`,
  `personal_photo_instructions.dfy`: the dialogs.

## Model

| member | source | states |
|---|---|---|
| Tables.AppendKeepsIdentity | svp-backend/database/init.js:41 | inserting a row with the next identity value keeps ids unique and below the counter, and the id was not in use |
| Tables.FindById | svp-backend/routes/support.js:33-45 | `WHERE id = $1`: None iff no row has the id, else a row of the table with that id |
| Tables.FindByIdIsTheRow | svp-backend/database/init.js:41 | with unique ids, looking up a row's id finds exactly that row |
| Tables.FindFirst | svp-backend/routes/laborResults.js:7-35 | the first row satisfying a condition: None iff none does, else a satisfying index with no satisfying row before it |
| Tables.DeleteById | svp-backend/routes/certificates.js:96-103 | `DELETE ... WHERE id = $1`: no kept row has the id, every row with another id is kept, a missing id changes nothing |
| Tables.DeleteRemovesOne | svp-backend/routes/certificates.js:96-103 | with unique ids, deleting a row's id removes exactly that row and keeps the order of the rest |
| Tables.DistinctTail | svp-backend/database/init.js:42 | a UNIQUE key still holds on the rows after the first |
| Tables.DeleteKeepsDistinct | svp-backend/database/init.js:57 | a delete never breaks a UNIQUE key |
| Tables.DeleteKeepsIdentity | svp-backend/database/init.js:41 | a delete keeps ids unique and below the identity counter |
| Tables.SetData | svp-backend/routes/support.js:48-60 | `UPDATE ... WHERE id = $1`: the same number of rows; rows with other ids are unchanged; the row with that id gets the new columns and `updated_at = now` |
| Tables.SetDataKeepsIds | svp-backend/routes/certificates.js:80-93 | an update keeps every id where it was, and so keeps the identity invariant |
| Tables.InsertByAge | svp-backend/routes/certificates.js:41 | inserting one row into a newest-first listing keeps it newest first and adds exactly that row |
| Tables.SortNewestFirst | svp-backend/routes/certificates.js:39-46 | `ORDER BY created_at DESC`: newest first, and a permutation of the table |
| Tables.SortedListingHasTheRows | svp-backend/routes/support.js:23-30 | the listing has as many rows as the table, every row of the table appears in it, and it shows nothing else |
| Http.OrElse | svp-backend/routes/certificates.js:70 | `value \|\| fallback`: a missing or empty value gives the fallback, any other value is kept |
| Applicants.Digit | svp-backend/routes/applicants.js:40 | a digit below ten prints as a character from '0' to '9' |
| Applicants.Decimal | svp-backend/routes/applicants.js:40 | `toString()` of a number: at least one character, all decimal digits, no leading zero |
| Applicants.DecimalRoundTrip | svp-backend/routes/applicants.js:40 | reading the printed digits back gives the number |
| Applicants.DecimalLength | svp-backend/routes/applicants.js:40 | a number with k digits prints as exactly k characters |
| Applicants.OtpCode | svp-backend/routes/applicants.js:40 | the generated code is six decimal digits, worth 100000 plus the random draw, so between 100000 and 999999 |
| Applicants.OtpCodeInjective | svp-backend/routes/applicants.js:123 | different draws give different codes |
| Applicants.NewApplicant | svp-backend/routes/applicants.js:58-76 | a checked "no name" flag stores a NULL name with the flag set, otherwise the name given; status and verification are 'Pending', not verified, at step 1 |
| Applicants.MarkVerified | svp-backend/routes/applicants.js:105-109 | every applicant with that email is flagged verified, and every other row is unchanged |
| Applicants.MarkVerifiedIdempotent | svp-backend/routes/applicants.js:105-109 | verifying an email twice gives the same table as verifying it once |
| Applicants.LatestValid | svp-backend/routes/applicants.js:92-98 | None iff no logged code accepts (email, code) now; otherwise an accepting row that no accepting row is newer than |
| Applicants.AppendKeepsValid | svp-backend/routes/applicants.js:127-130 | logging more codes never invalidates a code that is accepted |
| Applicants.IssuedCodeWindow | svp-backend/routes/applicants.js:41 | a newly logged code is accepted exactly while less than ten minutes have passed since it was issued |
| Applicants.Onboarding.constructor | svp-backend/database/add-applicants-table.js:25 | both tables start empty and the identity counter starts at 1 |
| Applicants.Onboarding.Create | svp-backend/routes/applicants.js:12-85 | a stored passport number gives 400 and changes nothing; otherwise one code valid for ten minutes is logged and mailed, one 'Pending' applicant is inserted, 201 with its id; UNIQUE passport kept |
| Applicants.Onboarding.VerifyOtp | svp-backend/routes/applicants.js:88-115 | 200 iff some logged code for that email and code has not expired, and then exactly the applicants with that email are flagged verified; otherwise 400 and nothing changes; the log is never consumed |
| Applicants.Onboarding.ResendOtp | svp-backend/routes/applicants.js:118-143 | appends one fresh six-digit code for the email and mails it; applicants unchanged; 200 |
| Applicants.Onboarding.List | svp-backend/routes/applicants.js:146-153 | every applicant row, newest first, a permutation of the table |
| Applicants.Onboarding.Get | svp-backend/routes/applicants.js:156-168 | 404 "Applicant not found" iff no row has the id, else that row |
| Applicants.Onboarding.UpdateStatus | svp-backend/routes/applicants.js:171-184 | only that row's status and `updated_at` change; a missing id changes nothing; 200 |
| Applicants.Onboarding.UpdateVerification | svp-backend/routes/applicants.js:187-200 | only that row's verification code, verification status and `updated_at` change; 200 |
| Applicants.Onboarding.Delete | svp-backend/routes/applicants.js:203-210 | removes that row only, keeps the UNIQUE passport and the code log; 200 even for a missing id |
| Users.Views | svp-backend/routes/users.js:10 | one projection per row, in the same order |
| Users.Listing | svp-backend/routes/users.js:8-15 | one view per row, newest first; every row's view appears; every view shows some row; no digest |
| Users.UserStore.constructor | svp-backend/database/init.js:38-50 | the table starts empty with the identity counter at 1 |
| Users.UserStore.List | svp-backend/routes/users.js:8-15 | the listing of the current table: as many views as rows, newest first, every row shown |
| Users.UserStore.Get | svp-backend/routes/users.js:18-33 | 404 "User not found" iff no row has the id, else the projection of that row |
| Users.UserStore.Insert | svp-backend/routes/users.js:52-55 | for a free email: appends the user with the next id and keeps the UNIQUE email |
| Users.UserStore.Create | svp-backend/routes/users.js:36-61 | a taken email gives 400 "User already exists" and changes nothing; otherwise 201 with the new id, role 'user' unless a non-empty role is given |
| Users.UserStore.Update | svp-backend/routes/users.js:64-77 | when the row exists and another row holds the email, 500 and nothing changes; a missing id gives 200 and nothing changes; otherwise only that row's email, names, role and `updated_at` change, and its digest is kept |
| Users.UserStore.UpdatePassword | svp-backend/routes/users.js:80-96 | only that row's digest and `updated_at` change; 200 |
| Users.UserStore.Delete | svp-backend/routes/users.js:99-106 | removes that row only and keeps the UNIQUE email; 200 |
| Auth.ClaimsFor | svp-backend/routes/auth.js:26-30 | the token's claims are that user's id, email and role, issued at `now` in seconds and expiring 24 hours later |
| Auth.FindByEmail | svp-backend/routes/auth.js:13-17 | None iff no row has the email, else a row of the table with that email |
| Auth.FindByEmailIsTheRow | svp-backend/database/init.js:42 | with the UNIQUE email, looking up a row's email finds exactly that row |
| Auth.Login | svp-backend/routes/auth.js:9-45 | succeeds iff some user has that email and the password matches the digest, and then returns a token over that user's claims and its profile without digest; every failure is the same 401 "Invalid credentials" |
| Auth.Register | svp-backend/routes/auth.js:48-73 | a taken email gives 400 and changes nothing; otherwise exactly one user with role 'user' is appended, 201 "User registered successfully" with its id |
| Auth.FirstSpace | svp-backend/routes/auth.js:77 | the index of the first space |
| Auth.Split | svp-backend/routes/auth.js:77 | `split(' ')`: at least one piece, and no piece contains a space |
| Auth.JoinSplit | svp-backend/routes/auth.js:77 | joining the pieces with single spaces gives the header back |
| Auth.SplitJoin | svp-backend/routes/auth.js:77 | splitting space-free pieces joined by spaces gives the pieces back |
| Auth.BearerToken | svp-backend/routes/auth.js:76-81 | there is a token iff the header is present and its second piece exists and is non-empty, and then the token is that piece, without spaces |
| Auth.SplitAfterField | svp-backend/routes/auth.js:77 | splitting a space-free field, a space and a rest gives the field followed by the pieces of the rest |
| Auth.TokenIgnoresLaterFields | svp-backend/routes/auth.js:77-81 | fields after the token are ignored: a scheme, a token and any rest yield exactly that token |
| Auth.TokenAfterAnyScheme | svp-backend/routes/auth.js:77-81 | any first word, a space and a token yield exactly that token; the scheme is never checked |
| Auth.NoSpaceNoToken | svp-backend/routes/auth.js:77-81 | a header without a space gives "No token provided" |
| Auth.Me | svp-backend/routes/auth.js:76-108 | 401 "No token provided" iff no token; 401 "Invalid token" iff verification fails; 404 iff the token's user id is not in the table; 200 iff the token verifies and its user id is in the table, and then with that user's profile |
| Certificates.AtMostOneMatch | svp-backend/database/init.js:57 | under the UNIQUE serial, two rows matching the same passport number and serial are the same row |
| Certificates.Verify | svp-backend/routes/certificates.js:7-36 | not found iff no row has both the passport number and the serial; otherwise the status and details of the matching row |
| Certificates.CertificateStore.constructor | svp-backend/database/init.js:53-66 | the table starts empty |
| Certificates.CertificateStore.Check | svp-backend/routes/certificates.js:7-36 | found iff some row of the current table matches |
| Certificates.CertificateStore.List | svp-backend/routes/certificates.js:39-46 | every row, newest first, a permutation of the table |
| Certificates.CertificateStore.Get | svp-backend/routes/certificates.js:49-61 | 404 "Certificate not found" iff no row has the id, else that row |
| Certificates.CertificateStore.Create | svp-backend/routes/certificates.js:64-77 | a stored serial gives 500 and changes nothing; otherwise one certificate with status 'Valid' unless one is given, 201 "Certificate created" with its id; UNIQUE serial kept |
| Certificates.CertificateStore.Update | svp-backend/routes/certificates.js:80-93 | when the row exists and another row holds the serial, 500 and nothing changes; a missing id gives 200 and nothing changes; otherwise only that row's columns and `updated_at` change, and the serial stays UNIQUE |
| Certificates.CertificateStore.Delete | svp-backend/routes/certificates.js:96-103 | removes that row only and keeps the UNIQUE serial; 200 |
| LaborResults.Check | svp-backend/routes/laborResults.js:7-35 | not found iff no row has all three keys; otherwise the columns of the first matching row |
| LaborResults.LaborResultStore.constructor | svp-backend/database/init.js:69-82 | the table starts empty |
| LaborResults.LaborResultStore.List | svp-backend/routes/laborResults.js:38-45 | every row, newest first, a permutation of the table |
| LaborResults.LaborResultStore.Create | svp-backend/routes/laborResults.js:48-61 | appends one result, 'Passed' unless one is given; 201 with its id |
| LaborResults.LaborResultStore.Update | svp-backend/routes/laborResults.js:64-77 | only that row's columns and `updated_at` change; 200 |
| LaborResults.LaborResultStore.Delete | svp-backend/routes/laborResults.js:80-87 | removes that row only; 200 |
| Support.TicketStore.constructor | svp-backend/database/init.js:85-97 | the table starts empty |
| Support.TicketStore.Submit | svp-backend/routes/support.js:7-20 | appends one 'Open' ticket; 201 with its id |
| Support.TicketStore.List | svp-backend/routes/support.js:23-30 | every ticket, newest first, a permutation of the table |
| Support.TicketStore.Get | svp-backend/routes/support.js:33-45 | 404 "Ticket not found" iff no row has the id, else that row |
| Support.TicketStore.UpdateStatus | svp-backend/routes/support.js:48-60 | only that ticket's status and `updated_at` change; 200 |
| Support.TicketStore.Delete | svp-backend/routes/support.js:63-70 | removes that row only; 200 |
| SignUp.WithText | svp-clone/src/pages/auth/SignUpPage.tsx:73-76 | a text input sets its own field; every other field, flag, upload and the code stay as they were |
| SignUp.WithFlag | svp-clone/src/pages/auth/SignUpPage.tsx:73-76 | a checkbox sets its own flag; every other flag, text field, upload and the code stay as they were |
| SignUp.FirstFailure | svp-clone/src/pages/auth/SignUpPage.tsx:141-194 | None iff every check passes; otherwise the message of a failing check with no failing check before it |
| SignUp.StepChecks | svp-clone/src/pages/auth/SignUpPage.tsx:144-191 | every message a validator can show is non-empty |
| SignUp.ChecksMatchStep | svp-clone/src/pages/auth/SignUpPage.tsx:144-191 | a step's checks all pass exactly when the step is complete |
| SignUp.ValidateStep | svp-clone/src/pages/auth/SignUpPage.tsx:141-194 | no message iff the step is complete; otherwise a non-empty message |
| SignUp.ShortPasswordReportedFirst | svp-clone/src/pages/auth/SignUpPage.tsx:183-190 | with email and phone given, a password under 8 characters is reported before a mismatched confirmation |
| SignUp.MissingImageReportedFirst | svp-clone/src/pages/auth/SignUpPage.tsx:145-148 | without a passport image, step 1 reports the image whatever else is missing |
| SignUp.RegisteredIffStored | svp-clone/src/pages/auth/SignUpPage.tsx:213-218 | the page moves on exactly when the backend stored the application |
| SignUp.StepOneReachesTheTable | svp-clone/src/pages/auth/SignUpPage.tsx:196-211 | a form that passed step 1 yields an applicant row with non-empty names or the matching "no name" flag with a NULL name, a passport number and an image path |
| SignUp.RegisterError | svp-clone/src/pages/auth/SignUpPage.tsx:216-220 | a failed registration always shows a non-empty message |
| SignUp.NextStep | svp-clone/src/pages/auth/SignUpPage.tsx:226-234 | stays within steps 1 to 4; moves only from a complete step; steps 1 and 2 move on iff complete; step 3 reaches step 4 iff complete and registered; never past step 4 |
| SignUp.NextError | svp-clone/src/pages/auth/SignUpPage.tsx:226-234 | the validator's message for an incomplete step; empty iff the step is complete and, from step 3, registration went through |
| SignUp.NextApplicantId | svp-clone/src/pages/auth/SignUpPage.tsx:213-215 | the applicant id changes only when step 3 completes and registration returns an id, and then it becomes that id |
| SignUp.ConcatLength | svp-clone/src/pages/auth/SignUpPage.tsx:62-64 | cells of at most one character join to at most one character each, and exactly one each iff no cell is empty |
| SignUp.ConcatReadsCells | svp-clone/src/pages/auth/SignUpPage.tsx:62-64 | full cells join to a code whose i-th character is cell i |
| SignUp.SixCellsFilled | svp-clone/src/pages/auth/SignUpPage.tsx:246 | the six-character guard passes exactly when all six cells are filled |
| SignUp.VerifyGuard | svp-clone/src/pages/auth/SignUpPage.tsx:241-249 | no message iff the captcha is ticked and the code has six characters; the captcha is checked first |
| SignUp.VerifyOutcomeAsWritten | svp-clone/src/pages/auth/SignUpPage.tsx:254-259 | as written: success iff both guards pass and the request got any answer at all |
| SignUp.AsWrittenAcceptsRejectedCode | svp-clone/src/services/api.ts:67-76 | the backend's 400 "Invalid or expired OTP" still completes sign-up |
| SignUp.VerifyOutcome | svp-clone/src/pages/auth/SignUpPage.tsx:240-263 | corrected: success iff both guards pass and the backend answered 200; otherwise one of the three page messages |
| SignUp.RejectedCodeFails | svp-backend/routes/applicants.js:100-102 | in the corrected page, a rejected code shows "Verification failed. Invalid or expired code." |
| SignUp.AcceptFile | svp-clone/src/pages/auth/SignUpPage.tsx:102-112 | accepted iff the type is JPEG, PNG or JPG and the size is at most 3 MB; a wrong type is reported first |
| SignUp.Wizard.constructor | svp-clone/src/pages/auth/SignUpPage.tsx:14-60 | step 1, the initial form with country code '+966', six empty code cells, no error, no applicant id |
| SignUp.Wizard.HandleTextChange | svp-clone/src/pages/auth/SignUpPage.tsx:73-76 | the form gains the field's value, the error is cleared, nothing else changes |
| SignUp.Wizard.HandleFlagChange | svp-clone/src/pages/auth/SignUpPage.tsx:73-76 | the form gains the flag's value, the error is cleared, nothing else changes |
| SignUp.Wizard.HandleNext | svp-clone/src/pages/auth/SignUpPage.tsx:226-234 | the step, error and applicant id become NextStep, NextError and NextApplicantId of the old state; the form and the cells are unchanged |
| SignUp.Wizard.HandleBack | svp-clone/src/pages/auth/SignUpPage.tsx:236-238 | one step back, never before step 1; nothing else changes |
| SignUp.Wizard.ChangeEmail | svp-clone/src/pages/auth/SignUpPage.tsx:676 | back to step 3; nothing else changes |
| SignUp.Wizard.HandleOtpChange | svp-clone/src/pages/auth/SignUpPage.tsx:78-89 | a value longer than one character is ignored; otherwise only that cell changes and the code is the join of the cells |
| SignUp.Wizard.HandleVerifyAsWritten | svp-clone/src/pages/auth/SignUpPage.tsx:240-263 | as the page has it: success, with the error cleared, when both guards pass and the request got any answer; otherwise the guard's message or the failure message; nothing else changes |
| SignUp.Wizard.HandleVerify | svp-clone/src/pages/auth/SignUpPage.tsx:240-263 | corrected: success, with the error cleared, only when VerifyOutcome succeeds (the backend answered 200); otherwise the outcome's message; nothing else changes |
| SignUp.Wizard.HandleFileSelect | svp-clone/src/pages/auth/SignUpPage.tsx:98-139 | no file: nothing; refused file: only the error; accepted file: kept as the chosen photo, and a stored upload's path becomes the passport image path; the two upload errors otherwise |
| Instructions.FindStep | svp-clone/src/components/PassportInstructionsModal.tsx:66 | `steps.find`: None iff no step has the id, else a step of the table with that id |
| Instructions.FindInWellFormed | svp-clone/src/components/PassportInstructionsModal.tsx:10-66 | in a six-step table numbered 1 to 6, an id finds a step iff it is 1 to 6, and then its own step |
| Instructions.Next | svp-clone/src/components/PassportInstructionsModal.tsx:68-76 | completes iff on the last page with the box checked, and then resets; before the last page it turns one page; otherwise nothing changes |
| Instructions.Back | svp-clone/src/components/PassportInstructionsModal.tsx:78-82 | one page back, nothing on the first page |
| Instructions.DisabledContinueIsInert | svp-clone/src/components/PassportInstructionsModal.tsx:205 | the disabled Continue button guards nothing: there `handleNext` changes nothing and does not complete |
| Instructions.Apply | svp-clone/src/components/PassportInstructionsModal.tsx:68-88 | every event keeps the page within 1 to 6, and only Continue on the checked last page completes |
| Instructions.RunStaysInRange | svp-clone/src/components/PassportInstructionsModal.tsx:61-88 | after any sequence of events the page shown is one of the six |
| Instructions.CompletionNeedsEveryPage | svp-clone/src/components/PassportInstructionsModal.tsx:68-76 | completion needs at least one Continue per page still ahead, plus one on the last page |
| Instructions.CompletionFromReset | svp-clone/src/components/PersonalPhotoInstructionsModal.tsx:71-79 | from a fresh dialog, completion takes at least six presses of Continue |
| Instructions.IndexFrom | svp-clone/src/components/PassportInstructionsModal.tsx:93 | the first occurrence at or after a position, or None when there is none |
| Instructions.IndexOf | svp-clone/src/components/PassportInstructionsModal.tsx:93 | None iff the fragment does not occur; otherwise its first occurrence |
| Instructions.ReplaceFirst | svp-clone/src/components/PassportInstructionsModal.tsx:93 | `replace` with a string: an absent fragment leaves the text; otherwise the first occurrence is replaced and the text around it is kept |
| Instructions.RenderedInOrder | svp-clone/src/components/PassportInstructionsModal.tsx:92-94 | fragments are applied in list order: two lists in a row render as their concatenation |
| Instructions.AbsentFragmentsKeepText | svp-clone/src/components/PersonalPhotoInstructionsModal.tsx:93-99 | fragments that do not occur, and an empty list, leave the text unchanged |
| Instructions.WrapsFirstOccurrence | svp-clone/src/components/PassportInstructionsModal.tsx:90-96 | one fragment that occurs has its first occurrence, and only that one, wrapped in `<strong>` |
| PassportInstructions.StepsWellFormed | svp-clone/src/components/PassportInstructionsModal.tsx:10-58 | the passport table has pages 1 to 6 in order, and only page 6 is the confirmation page, without rules |
| PassportInstructions.RenderText | svp-clone/src/components/PassportInstructionsModal.tsx:90-96 | the loop produces the text with each bold fragment in turn wrapped at its first occurrence |
| PassportInstructions.Modal.constructor | svp-clone/src/components/PassportInstructionsModal.tsx:61-62 | the dialog opens on page 1 with the box unchecked |
| PassportInstructions.Modal.Shown | svp-clone/src/components/PassportInstructionsModal.tsx:66 | the page found always exists, is page `currentStep`, and is the confirmation page iff it is page 6 |
| PassportInstructions.Modal.HandleNext | svp-clone/src/components/PassportInstructionsModal.tsx:68-76 | the new state and whether `onComplete` fires are Next of the old state |
| PassportInstructions.Modal.HandleBack | svp-clone/src/components/PassportInstructionsModal.tsx:78-82 | the new state is Back of the old state |
| PassportInstructions.Modal.HandleClose | svp-clone/src/components/PassportInstructionsModal.tsx:84-88 | back to page 1 with the box unchecked |
| PassportInstructions.Modal.SetReviewed | svp-clone/src/components/PassportInstructionsModal.tsx:149 | only the checkbox changes |
| PersonalPhotoInstructions.StepsWellFormed | svp-clone/src/components/PersonalPhotoInstructionsModal.tsx:10-61 | the photo table has pages 1 to 6 in order, and only page 6 is the confirmation page, without rules |
| PersonalPhotoInstructions.RenderText | svp-clone/src/components/PersonalPhotoInstructionsModal.tsx:93-99 | the loop produces the text with each bold fragment in turn wrapped at its first occurrence |
| PersonalPhotoInstructions.Modal.constructor | svp-clone/src/components/PersonalPhotoInstructionsModal.tsx:64-65 | the dialog opens on page 1 with the box unchecked |
| PersonalPhotoInstructions.Modal.Shown | svp-clone/src/components/PersonalPhotoInstructionsModal.tsx:69 | the page found always exists, is page `currentStep`, and is the confirmation page iff it is page 6 |
| PersonalPhotoInstructions.Modal.HandleNext | svp-clone/src/components/PersonalPhotoInstructionsModal.tsx:71-79 | the new state and whether `onComplete` fires are Next of the old state |
| PersonalPhotoInstructions.Modal.HandleBack | svp-clone/src/components/PersonalPhotoInstructionsModal.tsx:81-85 | the new state is Back of the old state |
| PersonalPhotoInstructions.Modal.HandleClose | svp-clone/src/components/PersonalPhotoInstructionsModal.tsx:87-91 | back to page 1 with the box unchecked |
| PersonalPhotoInstructions.Modal.SetReviewed | svp-clone/src/components/PersonalPhotoInstructionsModal.tsx:154 | only the checkbox changes |

## Left out

- SignUp.Wizard.HandleVerify: models the corrected page, where only a 200 answer
  completes sign-up. The page as written, where any answer does, is
  `SignUp.Wizard.HandleVerifyAsWritten` (see Findings).
- The password hasher (bcrypt) and JSON Web Token signing and checking are
  parameters, not implementations. Salt generation is part of the hasher.
- Sending mail is not modelled. `Applicants.Onboarding.Create` and `ResendOtp`
  return the mail they ask for, and its delivery and failures are left out. A
  mail failure is swallowed in both routes.
- `Math.random` is the parameter `draw`. The model does not capture that it is
  random, only its range.
- `new Date()` and `NOW()` are the parameter `now`, in milliseconds. The model
  does not capture that the database clock and the process clock may differ.
- Concurrency is left out. Two requests that interleave are not modelled: each
  handler runs as one atomic step.
- Every catch block sends 500 "Server error" with the driver's error text. The
  model produces this only where it follows from the table (a UNIQUE key
  violation). Connection failures are not modelled, and neither is the
  mismatch between the PostgreSQL-style `$1`/`RETURNING`/`LIMIT` queries and
  the SQL Server pool.
- Text comparison follows Dafny string equality. Database collation (case or
  trailing-space insensitivity) is not modelled. Neither are UTF-16 lengths:
  the page's `.length` counts UTF-16 units, and the model counts characters.
- A request body with missing fields is not modelled, and neither are the NULLs
  it would store. Every field is a string, and optional ones use `Option`.
- `LaborResults.Check`: the query has no `ORDER BY`, so the database may
  return any matching row first. The model shows the first matching row in
  table order. `Auth.FindByEmail` has the same shape, but the UNIQUE email
  leaves it only one row to find.
- The certificate routes read and write an `occupation` column that `init.js`
  does not create. The model follows the routes.
- `upload.js` (file storage and naming) is not part of this model. The upload's
  outcome is the `UploadReply` parameter.
- `SignUp.Wizard.HandleFileSelect`: the personal photo is uploaded to the same
  passport endpoint, and its stored path overwrites `passportImagePath`. This
  is modelled as written.
- The sign-up page's "resend code" button ignores its result. Its backend side
  is `Applicants.Onboarding.ResendOtp`. The button is not a separate member.
- The sign-up fields that are never validated or sent are left out of `Form`:
  country of residence, date of birth, sex, passport expiry, employer,
  experience, address, city, postal code and emergency contact.
- The loading flags, focus moves, the key handler for Backspace, the instruction
  dialogs' open flags, and rendering in general are left out.
- The dialogs' `isOpen` prop is not modelled: a closed dialog renders nothing,
  and its state is the one modelled.
- The rules of both dialogs say "2 MBs", but the page accepts up to 3 MB. This
  is displayed text; the model keeps both as the source has them.
- The JavaScript `replace` special patterns (`$&`, `$1`, and so on) in the
  replacement string are not modelled. No bold fragment of either table
  contains `$`.

## Findings

| source | as written | input that shows it | evidently intended | confidence | as-written member | corrected member |
|---|---|---|---|---|---|---|
| svp-clone/src/pages/auth/SignUpPage.tsx:254-256 with svp-clone/src/services/api.ts:67-76 | `verifyOTP` resolves with the JSON body whatever the HTTP status, so `handleVerify` sets success after any answer | captcha ticked, code "000000" that the backend rejects with 400 "Invalid or expired OTP": the page shows sign-up as complete | sign-up completes only when the backend answers 200 | not executed | SignUp.VerifyOutcomeAsWritten, SignUp.AsWrittenAcceptsRejectedCode, SignUp.Wizard.HandleVerifyAsWritten | SignUp.VerifyOutcome, SignUp.Wizard.HandleVerify |

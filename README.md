# MERN-Auth credential core in Dafny

This project models the account lifecycle of a MERN authentication
service and proves properties of the model.

- **Backend handlers.** These are `register`, `verifyEmail`,
  `sendPasswordResetToken`, `resetPassword`, `login` and `getUser` in
  `backend/controllers/auth.controller.js`. The numeric-code reset pair of
  `backend/dummy.js` is also modelled. Each is a transition of a store of
  account records.
- **Frontend validators.** These are the password scorers and validators of
  the two registration pages and the two reset pages, and the e-mail
  regular expression.
- **OTP buffers.** These are the two six-slot code entry buffers of the
  e-mail verification pages.

Modules follow the source:

- `Accounts` holds the account record, the store class `UserStore`, and
  `findOne`. The store keeps records in insertion order, a record's id is
  its position, and `findOne` returns the first match.
- `Tokens` holds the decimal text of the six-digit codes and the hex text
  of the 20-byte reset tokens.
- `AuthController` and `OtpReset` hold the handlers:
  - Each handler has a step function that states the new records and the
    reply.
  - Each also has a method on a `UserStore`. It looks the record up,
    updates it and saves it, and its contract ties it to the step function.
- `Lifecycle` relates the handlers:
  - the store invariant and what every request keeps;
  - single-use secrets;
  - the register → verify → login → check-auth chain.
- `JsText` has the JavaScript string and character-class meanings the
  pages rely on:
  - ASCII regex classes;
  - the ECMAScript white-space set for `\s` and `trim`;
  - `replace(/\D/g, "")`;
  - `join("")`.
- `EmailPattern` is the e-mail regular expression.
- `PasswordCriteria` holds the strength criteria as values.
- Page modules:
  - `RegisterForm` for `pages/Register.jsx`;
  - `RegisterPage` for `Pages/Register.jsx`;
  - `StrengthMeter` for the scorer shared by `Pages/Register.jsx` and
    `Pages/ResetPassword.jsx`;
  - `ResetPasswordForm` for `pages/ResetPassword.jsx`;
  - `ResetPasswordPage` for `Pages/ResetPassword.jsx`.
- `PasswordPolicies` compares the three strength rules.
- `OtpSlots` holds the slot buffer. The buffer modules are
  `EmailVerifyForm` for `pages/EmailVerify.jsx` and `VerifyEmailPage` for
  `Pages/VerifyEmail.jsx`.

The handlers take everything from outside the request as parameters:

- the time `now` in milliseconds;
- the random six-digit code;
- the 20 random bytes;
- a bcrypt digest function `hash`, one per call since each call salts
  afresh;
- `verify` for `bcrypt.compare`;
- `mailSent`, which says whether `sendMail` resolved.

A request field that is absent is the empty string, because every handler
only tests fields for falsiness. The exception is `newPassword` in
`verifyPasswordResetOtp`, which is an `Option`: bcrypt throws on a missing
password but hashes an empty one. The lifecycle lemmas assume
`HashScheme(hash, verify)`: a password verifies against a digest of itself
and against no digest of another password.

The model follows the code as written. In particular:

- `login` answers "User not found." and "Invalid credentials." with
  different messages.
- `login` and `getUser` return the whole record except the digest. That
  includes any pending verification code and reset token.
- `login` does not look at `isVerified`.
- A mail failure after a save answers 500 but keeps the change.

The record schema file is not part of this model. `isVerified` is taken to
start false, and `lastLogin` to start unset. Codes are compared as decimal
text. `Tokens.TextAndNumberAgree` shows this agrees with a numeric
comparison on every six-digit string, which is all the frontend sends.

## Model

| member | source | states |
|---|---|---|
| JsText.Digits | frontend/src/pages/EmailVerify.jsx:29 | `replace(/[^0-9]/g, "")` keeps only digits and never lengthens the string |
| JsText.TrimmedLengthAtLeastTwo | frontend/src/pages/Register.jsx:35 | `name.trim().length >= 2` holds exactly when the name has two non-white-space characters |
| JsText.TrimNonEmpty | frontend/src/Pages/Register.jsx:76 | `s.trim() !== ""` holds exactly when `s` has a non-white-space character |
| JsText.DigitsOfAppend | frontend/src/Pages/VerifyEmail.jsx:21 | digit extraction keeps order: the digits of `a + b` are those of `a` then those of `b` |
| JsText.DigitsOfDigits | frontend/src/Pages/VerifyEmail.jsx:21 | a string of digits is left unchanged by digit extraction |
| EmailPattern.EmailShapeIsRegex | frontend/src/pages/Register.jsx:36 | the regex holds iff there is no white space, exactly one '@' with text before it, and after it a '.' with text on both sides |
| EmailPattern.RegexImpliesShape | frontend/src/Pages/Register.jsx:21 | a string the regex accepts has that shape |
| EmailPattern.ShapeImpliesRegex | frontend/src/Pages/Register.jsx:21 | a string with that shape is accepted by the regex |
| EmailPattern.EmailShapeNotBlank | frontend/src/Pages/Register.jsx:77-79 | an accepted e-mail is neither empty nor blank after `trim`, so those conjuncts of `isFormValid` are redundant |
| PasswordCriteria.CountMetBounds | frontend/src/pages/Register.jsx:55-63 | a score counting criteria never exceeds their number, and reaches it exactly when all are met |
| RegisterForm.CalculatePasswordStrength | frontend/src/pages/Register.jsx:55-63 | the `score++` steps give the number of the five criteria met, clamped to 4, so the result is in [0, 4] |
| RegisterForm.FiveCriteriaCount | frontend/src/pages/Register.jsx:57-61 | the score is one point each for length ≥ 6, a lowercase letter, an uppercase letter, a digit and a non-alphanumeric character |
| RegisterForm.ValidateMeaning | frontend/src/pages/Register.jsx:34-40 | name: at least two non-blank characters; e-mail: the regex; password: at least three of the five criteria; `isValid` is exactly their conjunction |
| RegisterForm.GetError | frontend/src/pages/Register.jsx:65-73 | a message appears iff the field is touched and invalid, and it is that field's message; an untouched field never shows one |
| RegisterForm.HandleSubmit | frontend/src/pages/Register.jsx:75-82 | the form is posted unchanged iff valid; otherwise nothing is posted and every field becomes touched |
| RegisterForm.RejectedSubmitShowsErrors | frontend/src/pages/Register.jsx:78-81 | after a rejected submit every invalid field shows its message and at least one message shows |
| RegisterForm.SubmitDisabled | frontend/src/pages/Register.jsx:184 | the button is enabled iff nothing is loading, the name has two non-blank characters, the e-mail matches the regex and three of the five criteria are met |
| RegisterForm.EnabledSubmitPosts | frontend/src/pages/Register.jsx:75-86 | pressing an enabled button posts the form as entered, with the touched set unchanged |
| StrengthMeter.CalculateStrength | frontend/src/Pages/Register.jsx:23-32 | the accumulated strength is the number of the four criteria met, in [0, 4] |
| StrengthMeter.MeterCriteriaCount | frontend/src/Pages/ResetPassword.jsx:21-28 | one point each for length ≥ 8, an uppercase letter, a digit and a non-alphanumeric character |
| StrengthMeter.LowercaseDoesNotCount | frontend/src/Pages/Register.jsx:26-29 | lowercase letters earn nothing: an all-lowercase password scores only the length point and is never strong |
| StrengthMeter.StrongHasUpperOrDigit | frontend/src/Pages/Register.jsx:37 | a strong password (strength ≥ 3) holds an uppercase letter or a digit and is not blank |
| RegisterPage.FormValidMeaning | frontend/src/Pages/Register.jsx:75-81 | `isFormValid` holds iff the name is not blank, the e-mail matches the regex and the password is strong |
| RegisterPage.HandleSubmit | frontend/src/Pages/Register.jsx:43-46 | a request with the form's values is sent iff the strength is at least 3 |
| RegisterPage.EnabledSubmitPosts | frontend/src/Pages/Register.jsx:160 | whenever the button is enabled, pressing it posts the form as entered |
| ResetPasswordForm.ValidateIsAllCriteria | frontend/src/pages/ResetPassword.jsx:24-38 | the password is accepted iff it has an uppercase letter, a lowercase letter, a digit, a listed special character and length ≥ 8 |
| ResetPasswordForm.UnlistedSymbolsDoNotCount | frontend/src/pages/ResetPassword.jsx:28 | only `!@#$%^&*(),.?":{}\|<>` count as special: a password whose other characters are '-' or '_' is rejected |
| ResetPasswordForm.HandleResetPassword | frontend/src/pages/ResetPassword.jsx:44-61 | guard order: empty → "New password is required!"; weak → "Password is not strong enough!" (loading untouched); missing token → "Password reset token is missing!" with loading reset; otherwise the post is sent with loading on |
| ResetPasswordForm.EmptyPasswordIsWeak | frontend/src/pages/ResetPassword.jsx:44-47 | the empty password is never strong, and it is refused with the "required" message |
| ResetPasswordForm.SubmitDisabled | frontend/src/pages/ResetPassword.jsx:152 | the button is enabled iff nothing is loading and all five reset criteria are met |
| ResetPasswordForm.EnabledSubmitNeedsOnlyToken | frontend/src/pages/ResetPassword.jsx:44-61 | with the button enabled, `handleResetPassword` posts iff the route has a token |
| ResetPasswordPage.SubmitDisabled | frontend/src/Pages/ResetPassword.jsx:120 | the button is disabled while loading, and is enabled iff not loading and the strength is at least 3 |
| ResetPasswordPage.EnabledNeedsUpperOrDigit | frontend/src/Pages/ResetPassword.jsx:30-32 | an enabled button implies a non-blank password with an uppercase letter or a digit |
| PasswordPolicies.ResetRuleIsStrictest | frontend/src/pages/ResetPassword.jsx:24-38 | a password the reset form accepts gets the top score from both other scorers |
| PasswordPolicies.RegistrationAcceptsWhatResetRejects | frontend/src/pages/ResetPassword.jsx:28 | "Password1-" is strong for both registration pages but refused by the reset form |
| PasswordPolicies.LowercaseCountsOnlyOnRegisterForm | frontend/src/pages/Register.jsx:58 | "abcdef!" scores 3 on the `pages/` form, while "abcdefgh!" is not strong on the `Pages/` meter |
| OtpSlots.JoinLength | frontend/src/pages/EmailVerify.jsx:91 | joining well-formed slots gives one digit per filled slot |
| OtpSlots.CountFilledAll | frontend/src/Pages/VerifyEmail.jsx:137 | the count of filled slots reaches the slot count exactly when every slot is filled |
| OtpSlots.JoinedSixIffAllFilled | frontend/src/pages/EmailVerify.jsx:193 | for six well-formed slots, "joined length is 6" and "every slot filled" coincide, and the joined code is digits only |
| OtpSlots.EmptySlotsJoinEmpty | frontend/src/Pages/VerifyEmail.jsx:114 | the reset buffer is well formed, not filled, and joins to "" |
| EmailVerifyForm.PasteCount | frontend/src/pages/EmailVerify.jsx:36-44 | after `slice(0, 6)` and `slice(0, 6 - index)` the paste never passes the last slot, so the `index + i < 6` test always holds |
| EmailVerifyForm.AfterChange | frontend/src/pages/EmailVerify.jsx:21-68 | "" clears slot `index` only; no digits → no update; one digit → slot `index` only; k > 1 digits → the first PasteCount digits from `index` on, other slots unchanged; six slots and well-formedness kept |
| EmailVerifyForm.Pasted | frontend/src/pages/EmailVerify.jsx:36-44 | slots `index` to `index + PasteCount - 1` take the pasted digits in order, every other slot keeps its value, and well-formed slots stay well formed |
| EmailVerifyForm.HandleChange | frontend/src/pages/EmailVerify.jsx:21-68 | the array copy written in the `forEach` loop yields exactly `AfterChange`, and reports whether `setOtp` is called |
| EmailVerifyForm.PasteIntoFirstSlot | frontend/src/pages/EmailVerify.jsx:35-45 | six or more digits pasted into slot 0 fill every slot, and the joined code is their first six |
| EmailVerifyForm.ClearingLeavesIncomplete | frontend/src/pages/EmailVerify.jsx:22-27 | clearing a slot never leaves all six filled, so it never auto-submits |
| EmailVerifyForm.SubmitDisabled | frontend/src/pages/EmailVerify.jsx:193 | the button is enabled iff every slot is filled and nothing is loading |
| EmailVerifyForm.EmailVerifyState.constructor | frontend/src/pages/EmailVerify.jsx:9-10 | six empty slots, not loading |
| EmailVerifyForm.EmailVerifyState.HandleSubmit | frontend/src/pages/EmailVerify.jsx:86-151 | posts the six-digit joined code iff all slots are filled and not loading, then loading is on; a manual short submission warns; slots unchanged |
| EmailVerifyForm.EmailVerifyState.OnChange | frontend/src/pages/EmailVerify.jsx:14-19 | applies `AfterChange`; the effect submits iff `setOtp` ran and all six slots are filled |
| EmailVerifyForm.EmailVerifyState.OnVerifySucceeded | frontend/src/pages/EmailVerify.jsx:117-120 | loading ends and the page navigates to login |
| EmailVerifyForm.EmailVerifyState.OnVerifyFailed | frontend/src/pages/EmailVerify.jsx:122-123 | loading ends; the typed slots are kept |
| VerifyEmailPage.PastedCode | frontend/src/Pages/VerifyEmail.jsx:22-27 | slot i gets pasted digit i, or "" past the pasted count; all filled iff at least six digits |
| VerifyEmailPage.AfterChange | frontend/src/Pages/VerifyEmail.jsx:19-47 | longer than one char → the pasted code from slot 0 whatever the index; "" or one digit → slot `index` only; anything else → no change; six well-formed slots kept |
| VerifyEmailPage.HandleChange | frontend/src/Pages/VerifyEmail.jsx:19-47 | the array copy rewritten by the `for (i < 6)` loop or at one index yields exactly `AfterChange` |
| VerifyEmailPage.OvertypeRestartsAtFirstSlot | frontend/src/Pages/VerifyEmail.jsx:170 | with `maxLength={6}`, typing digit b into a slot holding a gives "ab" and resets the code to a, b and four empty slots from slot 0 |
| VerifyEmailPage.PasteWithoutDigitsClears | frontend/src/Pages/VerifyEmail.jsx:20-28 | a pasted value of two or more characters without digits empties every slot |
| VerifyEmailPage.PasteKeepsFirstSixDigits | frontend/src/Pages/VerifyEmail.jsx:20-28 | six or more pasted digits fill every slot with the first six, at any index |
| VerifyEmailPage.SubmitDisabled | frontend/src/Pages/VerifyEmail.jsx:184 | the button is enabled iff not loading, not submitting and every slot is filled |
| VerifyEmailPage.VerifyEmailState.constructor | frontend/src/Pages/VerifyEmail.jsx:10-13 | empty code, not submitting, resend enabled, countdown 0 |
| VerifyEmailPage.VerifyEmailState.HandleSubmit | frontend/src/Pages/VerifyEmail.jsx:84-94 | nothing while submitting; otherwise "Please enter all 6 digits" unless all slots are filled, else the six-digit code is posted and submitting starts |
| VerifyEmailPage.VerifyEmailState.OnChange | frontend/src/Pages/VerifyEmail.jsx:136-140 | applies `AfterChange`; the effect submits iff the code changed and all six slots are filled |
| VerifyEmailPage.VerifyEmailState.OnVerifyResponse | frontend/src/Pages/VerifyEmail.jsx:103-120 | success navigates; failure resets the code to six empty slots; submitting always ends |
| VerifyEmailPage.VerifyEmailState.HandleResendOtp | frontend/src/Pages/VerifyEmail.jsx:61-66 | a no-op while resend is disabled; otherwise disables it and sets the countdown to 60 |
| VerifyEmailPage.VerifyEmailState.OnResendFailed | frontend/src/Pages/VerifyEmail.jsx:79-80 | a failed resend re-enables the button and zeroes the countdown |
| VerifyEmailPage.VerifyEmailState.Tick | frontend/src/Pages/VerifyEmail.jsx:123-134 | one second lowers the countdown; resend stays disabled exactly while it is positive |
| Tokens.DecimalText | backend/controllers/auth.controller.js:30 | a code's text is a non-empty digit string |
| Tokens.DecimalRoundTrip | backend/controllers/auth.controller.js:30 | reading back a code's decimal text gives the code |
| Tokens.TextOfValue | backend/controllers/auth.controller.js:89-92 | a digit string without a leading zero is the text of its value |
| Tokens.SixDigitTextLength | backend/controllers/auth.controller.js:30 | every code in [100000, 999999] is written with six characters, the first not '0' |
| Tokens.TextAndNumberAgree | backend/controllers/auth.controller.js:89-92 | for six-digit strings, text equality with a code and numeric equality agree |
| Tokens.LeadingZeroValue | backend/controllers/auth.controller.js:89-92 | a six-digit string starting with '0' is below 100000 and matches no code |
| Tokens.DecimalLeadingDigit | backend/controllers/auth.controller.js:30 | a positive number's text does not start with '0' |
| Tokens.HexText | backend/controllers/auth.controller.js:148 | `toString('hex')` gives two lower-case hex digits per byte |
| Tokens.HexRoundTrip | backend/controllers/auth.controller.js:148 | parsing a token's hex text gives back its bytes |
| Tokens.HexTextInjective | backend/controllers/auth.controller.js:148 | different random bytes give different tokens |
| Tokens.ResetTokenIsNotACode | backend/controllers/auth.controller.js:148 | a reset token has 40 characters and never equals a six-digit code |
| Accounts.FindFrom | backend/controllers/auth.controller.js:89-92 | finds the first record at or after a position matching the filter, or reports that none does |
| Accounts.FindOne | backend/controllers/auth.controller.js:19 | `findOne` returns the first matching record, or `None` iff no record matches |
| Accounts.FindOneUnique | backend/controllers/auth.controller.js:140 | when one record matches, `findOne` finds it |
| Accounts.ExpiredNeverMatches | backend/controllers/auth.controller.js:190-193 | a secret whose expiry is unset or not after `now` matches no value |
| Accounts.Sanitize | backend/controllers/auth.controller.js:318 | the response copy keeps id, name, e-mail, verification state and tokens, and has no digest field |
| Accounts.CodeTextShape | backend/dummy.js:20-21 | a stored code has the six-digit shape, never the reset-token shape |
| Accounts.UserStore.Create | backend/controllers/auth.controller.js:41 | saving a new record appends it; its id is the old record count |
| Accounts.UserStore.Save | backend/controllers/auth.controller.js:103 | saving a fetched record replaces it at its id and nothing else |
| AuthController.RegisterStep | backend/controllers/auth.controller.js:8-76 | 400 iff a field is empty and 409 iff the e-mail exists, both with the store unchanged; otherwise one record is appended (name, e-mail, `hash(password)`, unverified, code text, expiry now + 900000); 201 iff the mail went out, with a user lacking digest and code; else 500 |
| AuthController.Register | backend/controllers/auth.controller.js:8-76 | the handler's look-up, build and save leave the store and reply of `RegisterStep` |
| AuthController.VerifyEmailStep | backend/controllers/auth.controller.js:79-126 | 400 iff no otp; 401 iff no record holds the otp with a later expiry, with the one reply "Invalid or Expired OTP!" for wrong and expired codes alike, store unchanged; else the first such record becomes verified with code and expiry cleared; 200 iff mailed, else 500 |
| AuthController.VerifyEmail | backend/controllers/auth.controller.js:79-126 | the in-place mutation and save leave the store and reply of `VerifyEmailStep` |
| AuthController.SendPasswordResetTokenStep | backend/controllers/auth.controller.js:129-176 | 400 iff no e-mail; 404 iff unknown, store unchanged; else that record alone gets a 40-character hex token and expiry now + 900000, the rest of it kept; 200 iff mailed |
| AuthController.SendPasswordResetToken | backend/controllers/auth.controller.js:129-176 | the in-place mutation and save leave the store and reply of `SendPasswordResetTokenStep` |
| AuthController.ResetPasswordStep | backend/controllers/auth.controller.js:178-229 | 400 iff token or password missing; 401 iff no record holds the token unexpired, always with "Invalid or expired reset token.", store unchanged; else that record's digest becomes `hash(password)` and both reset fields are cleared; 200 iff mailed |
| AuthController.ResetPassword | backend/controllers/auth.controller.js:178-229 | the in-place mutation and save leave the store and reply of `ResetPasswordStep` |
| AuthController.LoginStep | backend/controllers/auth.controller.js:232-287 | 400 iff a field is empty; 401 iff the e-mail is unknown or the password does not verify, store unchanged and no cookie; on 200 only `lastLogin` changes, the cookie is a token for the record's id valid one day, and the user carries no digest |
| AuthController.Login | backend/controllers/auth.controller.js:232-287 | the handler leaves the store and reply of `LoginStep` |
| AuthController.GetUserStep | backend/controllers/auth.controller.js:309-338 | 400 iff no id; 404 iff no such record; 200 iff it exists, with its digest-free copy |
| AuthController.GetUser | backend/controllers/auth.controller.js:309-338 | reads the store without changing it and answers `GetUserStep` |
| OtpReset.SendPasswordResetOtpStep | backend/dummy.js:2-45 | 400 iff no e-mail, 404 iff unknown, store unchanged; else that record's reset fields become the code text and now + 900000; 200 iff mailed |
| OtpReset.SendPasswordResetOtp | backend/dummy.js:2-45 | the in-place mutation and save leave the store and reply of `SendPasswordResetOtpStep` |
| OtpReset.VerifyPasswordResetOtpStep | backend/dummy.js:47-96 | 400 iff no otp; 401 iff no record holds it unexpired; a missing new password answers 500 with no change; else the digest becomes `hash(newPassword)` and both reset fields are cleared |
| OtpReset.VerifyPasswordResetOtp | backend/dummy.js:47-96 | the handler leaves the store and reply of `VerifyPasswordResetOtpStep` |
| Lifecycle.UpdatePreserves | backend/controllers/auth.controller.js:100-103 | replacing one record by a valid one with the same name and e-mail keeps the invariant |
| Lifecycle.RegisterPreserves | backend/controllers/auth.controller.js:19-41 | `register` keeps e-mails unique and secret/expiry pairs paired, and leaves every old record unchanged at its id |
| Lifecycle.VerifyEmailPreserves | backend/controllers/auth.controller.js:100-103 | `verifyEmail` keeps the invariant and every record's name, e-mail and verification |
| Lifecycle.SendPasswordResetTokenPreserves | backend/controllers/auth.controller.js:148-152 | `sendPasswordResetToken` keeps the invariant and every record |
| Lifecycle.ResetPasswordPreserves | backend/controllers/auth.controller.js:202-206 | `resetPassword` keeps the invariant and every record |
| Lifecycle.LoginPreserves | backend/controllers/auth.controller.js:258-259 | `login` keeps the invariant and every record |
| Lifecycle.SendPasswordResetOtpPreserves | backend/dummy.js:20-24 | `sendPasswordResetOtp` keeps the invariant and every record |
| Lifecycle.VerifyPasswordResetOtpPreserves | backend/dummy.js:68-76 | `verifyPasswordResetOtp` keeps the invariant and every record |
| Lifecycle.ApplyPreserves | backend/controllers/auth.controller.js:100-103 | every handler keeps the invariant and every record's name, e-mail and verification |
| Lifecycle.PersistsTransitive | backend/controllers/auth.controller.js:100-103 | keeping records is transitive across requests |
| Lifecycle.RunPreserves | backend/controllers/auth.controller.js:100-103 | after any sequence of requests the invariant holds and no account is lost or unverified |
| Lifecycle.RegisterThenVerify | backend/controllers/auth.controller.js:30-31 | the mailed code verifies the new account if used within fifteen minutes |
| Lifecycle.RegisterThenVerifyTooLate | backend/controllers/auth.controller.js:91 | from fifteen minutes on, the code is refused with 401 and nothing changes |
| Lifecycle.VerificationCodeSingleUse | backend/controllers/auth.controller.js:100-103 | when one account holds the code, a second use at any time answers 401, even after a failed welcome mail |
| Lifecycle.ResetTokenSingleUse | backend/controllers/auth.controller.js:204-205 | a used reset token is refused with 401 the second time |
| Lifecycle.ResetOtpSingleUse | backend/dummy.js:73-74 | a used reset code is refused with 401 the second time |
| Lifecycle.FindOwnEmail | backend/controllers/auth.controller.js:242 | with unique e-mails, looking up a record's e-mail finds that record |
| Lifecycle.ResetThenLogin | backend/controllers/auth.controller.js:148-206 | requesting and using a reset token changes the password: the new one logs in, any other does not |
| Lifecycle.SendThenReset | backend/controllers/auth.controller.js:148-206 | a token requested and used within fifteen minutes answers 200 twice and leaves the account with the digest of the new password |
| Lifecycle.LoginChecksPassword | backend/controllers/auth.controller.js:242-256 | with unique e-mails, logging in to an account answers 200 exactly for the password its digest was made from |
| Lifecycle.LoginThenGetUser | backend/controllers/auth.controller.js:261 | the session token from a login fetches the same record, stamped with the login time |
| Lifecycle.UnverifiedAccountCanLogIn | backend/controllers/auth.controller.js:250-256 | `login` ignores `isVerified`: a just-registered account logs in |
| Lifecycle.EmptyOtpPasswordLocksOut | backend/dummy.js:68-69 | after a numeric reset to "", every login attempt answers 400 or 401 |
| Lifecycle.ResetRouteAcceptsOtpCode | backend/dummy.js:21 | the numeric flow's code is also accepted by the `/reset-password/:token` handler |
| Lifecycle.ScenarioRegister | backend/controllers/auth.controller.js:33-39 | registering Ann on an empty store answers 201 and stores her unverified record |
| Lifecycle.ScenarioVerify | backend/controllers/auth.controller.js:93-103 | a wrong code is refused with "Invalid or Expired OTP!", then the right one verifies her |
| Lifecycle.ScenarioLogin | backend/controllers/auth.controller.js:258-278 | logging in answers 200 with a cookie for id 0, and `getUser` with it returns her record |
| Lifecycle.RegisterVerifyLoginScenario | backend/controllers/auth.controller.js:8-338 | register → wrong code 401 → right code 200 → login 200 with cookie → check-auth 200 with the verified record |

## Left out

- `logout` only clears a cookie, so it is not modelled. `checkAuth` is not
  part of this model: `getUser` receives the id it would decode, or `None`.
- The internals of bcrypt, `jwt.sign`, `crypto.randomBytes` and
  `Math.random` are not modelled. They become the parameters listed above,
  and the session token is the pair (id, expiry).
- Mail content and templates are not modelled. Only whether `sendMail`
  resolved is modelled.
- Mongoose behaviour:
  - Store failures are not modelled, including the unreachable "Failed to
    create account!" branch.
  - A malformed id passed to `findById` would throw and answer 500. Here
    ids are positions.
  - Mongoose's type casting of query values is not modelled. Codes are
    compared as text; see `Tokens.TextAndNumberAgree`.
  - The diagnostic `error` field of 500 replies is not modelled.
- Concurrency is not modelled, including the race between the duplicate
  e-mail check and the save. Each handler is atomic.
- Pure UI is not modelled: rendering, toasts, focus moves, `handleKeyDown`,
  animations and the 1500 ms delay are left out. The success of a
  verification is modelled as one event.
- On `Pages/VerifyEmail.jsx`, the `isLoading` flag of the authentication
  context appears only in the button rule, `VerifyEmailPage.SubmitDisabled`.
  `VerifyEmailState` does not hold it. `OnChange` requires only
  `!isSubmitting`, although the inputs are disabled by
  `isSubmitting || isLoading`.
- `Pages/ResetPassword.jsx` `handleSubmit` posts without a check, so only
  its button rule is modelled.
- The login pages are not modelled: they only repeat the e-mail regex and
  a length check.
- String lengths count `char`s, which are Unicode scalar values.
  JavaScript counts UTF-16 code units, so the two differ for characters
  outside the Basic Multilingual Plane.
- Responses with a 2xx status but `success: false` are not modelled. The
  backend never sends one.
- EmailVerifyForm.EmailVerifyState.OnChange: requires that nothing is
  loading, because the inputs are disabled then.
- VerifyEmailPage.VerifyEmailState.OnChange: requires that nothing is
  being submitted, because the inputs are disabled then.
- Lifecycle.VerificationCodeSingleUse: the claim is proved only when no
  other account holds the same code. Random codes can collide, and a
  repeated code then verifies the other account. ResetTokenSingleUse and
  ResetOtpSingleUse have the same limit.
- OtpReset.SendPasswordResetOtpStep, OtpReset.VerifyPasswordResetOtpStep:
  these assume the imports of `auth.controller.js` (`User`, `bcrypt`,
  `transporter` and the mail templates). `dummy.js` has no imports. Run as
  written, every request that passes its 400 guard throws a
  `ReferenceError` and gets the 500 reply of its `catch`. The model gives
  the 404, 401 and 200 branches the file was written to have.
- AuthController.VerifyEmailStep, AuthController.ResetPasswordStep,
  OtpReset.VerifyPasswordResetOtpStep (and the `*SingleUse` lemmas): only
  string request fields are modelled. `express.json()` lets any JSON value
  through, and the handlers put these fields into their `findOne` filters
  unchanged. An object field such as `{"$ne": ""}` becomes a query operator
  that matches any record with an unexpired secret. The "401 iff no record
  holds the value" and single-use claims hold only for string fields. The
  e-mail look-ups of the other handlers have the same limit.
- Accounts.HashScheme, Lifecycle.LoginChecksPassword, Lifecycle.ResetThenLogin:
  `HashScheme` assumes `verify(p, hash(q))` holds exactly when `p == q`.
  bcryptjs reads only the first 72 bytes of a password, so two passwords
  that share their first 72 bytes verify against each other. The "every
  other password is refused" halves of these two lemmas hold only for
  passwords that differ within their first 72 bytes.

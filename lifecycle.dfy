/**
 * The account lifecycle across handlers: every request keeps the store
 * invariant, records are never removed and never lose their verification,
 * one-time secrets work once, and the flows chain as the frontend expects
 * (register then verify, reset then log in, log in then fetch the user).
 */
module Lifecycle {
  import opened Wrappers
  import opened JsText
  import opened Tokens
  import opened Accounts
  import AuthController
  import OtpReset

  /** One request to one of the handlers, with the values it takes from outside. */
  datatype Request =
    | Register(name: string, email: string, password: string, now: Millis, code: SixDigit,
               hash: string -> Digest, mailSent: bool)
    | VerifyEmail(otp: string, now: Millis, mailSent: bool)
    | SendPasswordResetToken(email: string, now: Millis, bytes: RandomBytes20, mailSent: bool)
    | ResetPassword(token: string, password: string, now: Millis, hash: string -> Digest, mailSent: bool)
    | Login(email: string, password: string, now: Millis, verify: (string, Digest) -> bool)
    | GetUser(id: Option<UserId>)
    | SendPasswordResetOtp(email: string, now: Millis, code: SixDigit, mailSent: bool)
    | VerifyPasswordResetOtp(otp: string, newPassword: Option<string>, now: Millis,
                             hash: string -> Digest, mailSent: bool)

  function Apply(users: seq<User>, req: Request): Outcome {
    match req
    case Register(name, email, password, now, code, hash, mailSent) =>
      AuthController.RegisterStep(users, name, email, password, now, code, hash, mailSent)
    case VerifyEmail(otp, now, mailSent) =>
      AuthController.VerifyEmailStep(users, otp, now, mailSent)
    case SendPasswordResetToken(email, now, bytes, mailSent) =>
      AuthController.SendPasswordResetTokenStep(users, email, now, bytes, mailSent)
    case ResetPassword(token, password, now, hash, mailSent) =>
      AuthController.ResetPasswordStep(users, token, password, now, hash, mailSent)
    case Login(email, password, now, verify) =>
      AuthController.LoginStep(users, email, password, now, verify)
    case GetUser(id) =>
      Outcome(users, AuthController.GetUserStep(users, id))
    case SendPasswordResetOtp(email, now, code, mailSent) =>
      OtpReset.SendPasswordResetOtpStep(users, email, now, code, mailSent)
    case VerifyPasswordResetOtp(otp, newPassword, now, hash, mailSent) =>
      OtpReset.VerifyPasswordResetOtpStep(users, otp, newPassword, now, hash, mailSent)
  }

  /** The records after a sequence of requests, handled one at a time. */
  function Run(users: seq<User>, reqs: seq<Request>): seq<User>
    decreases |reqs|
  {
    if reqs == [] then users else Run(Apply(users, reqs[0]).users, reqs[1..])
  }

  /**
   * `after` keeps every record of `before` at its id, with the same name
   * and e-mail, and a verified account stays verified.
   */
  predicate Persists(before: seq<User>, after: seq<User>) {
    && |before| <= |after|
    && forall k :: 0 <= k < |before| ==>
      && after[k].name == before[k].name && after[k].email == before[k].email
      && (before[k].isVerified ==> after[k].isVerified)
  }

  lemma PersistsTransitive(a: seq<User>, b: seq<User>, c: seq<User>)
    requires Persists(a, b) && Persists(b, c)
    ensures Persists(a, c)
  {
  }

  /** Changing one record's secrets, password or login time keeps the invariant. */
  lemma UpdatePreserves(users: seq<User>, k: UserId, u: User)
    requires StoreValid(users) && k < |users|
    requires u.name == users[k].name && u.email == users[k].email
    requires RecordValid(u)
    requires users[k].isVerified ==> u.isVerified
    ensures StoreValid(users[k := u]) && Persists(users, users[k := u])
  {
    var users' := users[k := u];
    forall i, j | 0 <= i < j < |users'| ensures users'[i].email != users'[j].email {
      assert users'[i].email == users[i].email && users'[j].email == users[j].email;
    }
  }

  lemma RegisterPreserves(users: seq<User>, name: string, email: string, password: string,
                          now: Millis, code: SixDigit, hash: string -> Digest, mailSent: bool)
    requires StoreValid(users)
    ensures var after := AuthController.RegisterStep(users, name, email, password, now, code, hash, mailSent).users;
      StoreValid(after) && Persists(users, after) && |users| <= |after| && after[..|users|] == users
  {
    var o := AuthController.RegisterStep(users, name, email, password, now, code, hash, mailSent);
    if o.users != users {
      CodeTextShape(code);
      assert RecordValid(o.users[|users|]);
      forall i | 0 <= i < |o.users| ensures RecordValid(o.users[i]) {
        if i < |users| { assert o.users[i] == users[i]; }
      }
      forall i, j | 0 <= i < j < |o.users| ensures o.users[i].email != o.users[j].email {
        if j < |users| { assert o.users[i] == users[i] && o.users[j] == users[j]; }
        else { assert o.users[i] == users[i]; }
      }
      forall k | 0 <= k < |users| ensures o.users[k] == users[k] {
        assert o.users[..|users|][k] == o.users[k];
      }
    }
  }

  lemma VerifyEmailPreserves(users: seq<User>, otp: string, now: Millis, mailSent: bool)
    requires StoreValid(users)
    ensures var after := AuthController.VerifyEmailStep(users, otp, now, mailSent).users;
      StoreValid(after) && Persists(users, after)
  {
    var o := AuthController.VerifyEmailStep(users, otp, now, mailSent);
    if o.users != users {
      var k := FindOne(users, ByVerificationToken(otp, now)).value;
      UpdatePreserves(users, k, o.users[k]);
    }
  }

  lemma SendPasswordResetTokenPreserves(users: seq<User>, email: string, now: Millis,
                                        bytes: RandomBytes20, mailSent: bool)
    requires StoreValid(users)
    ensures var after := AuthController.SendPasswordResetTokenStep(users, email, now, bytes, mailSent).users;
      StoreValid(after) && Persists(users, after)
  {
    var o := AuthController.SendPasswordResetTokenStep(users, email, now, bytes, mailSent);
    if o.users != users {
      var k := FindOne(users, ByEmail(email)).value;
      UpdatePreserves(users, k, o.users[k]);
    }
  }

  lemma ResetPasswordPreserves(users: seq<User>, token: string, password: string, now: Millis,
                               hash: string -> Digest, mailSent: bool)
    requires StoreValid(users)
    ensures var after := AuthController.ResetPasswordStep(users, token, password, now, hash, mailSent).users;
      StoreValid(after) && Persists(users, after)
  {
    var o := AuthController.ResetPasswordStep(users, token, password, now, hash, mailSent);
    if o.users != users {
      var k := FindOne(users, ByResetToken(token, now)).value;
      UpdatePreserves(users, k, o.users[k]);
    }
  }

  lemma LoginPreserves(users: seq<User>, email: string, password: string, now: Millis,
                       verify: (string, Digest) -> bool)
    requires StoreValid(users)
    ensures var after := AuthController.LoginStep(users, email, password, now, verify).users;
      StoreValid(after) && Persists(users, after)
  {
    var o := AuthController.LoginStep(users, email, password, now, verify);
    if o.users != users {
      var k := FindOne(users, ByEmail(email)).value;
      UpdatePreserves(users, k, o.users[k]);
    }
  }

  lemma SendPasswordResetOtpPreserves(users: seq<User>, email: string, now: Millis,
                                      code: SixDigit, mailSent: bool)
    requires StoreValid(users)
    ensures var after := OtpReset.SendPasswordResetOtpStep(users, email, now, code, mailSent).users;
      StoreValid(after) && Persists(users, after)
  {
    var o := OtpReset.SendPasswordResetOtpStep(users, email, now, code, mailSent);
    if o.users != users {
      var k := FindOne(users, ByEmail(email)).value;
      CodeTextShape(code);
      UpdatePreserves(users, k, o.users[k]);
    }
  }

  lemma VerifyPasswordResetOtpPreserves(users: seq<User>, otp: string, newPassword: Option<string>,
                                        now: Millis, hash: string -> Digest, mailSent: bool)
    requires StoreValid(users)
    ensures var after := OtpReset.VerifyPasswordResetOtpStep(users, otp, newPassword, now, hash, mailSent).users;
      StoreValid(after) && Persists(users, after)
  {
    var o := OtpReset.VerifyPasswordResetOtpStep(users, otp, newPassword, now, hash, mailSent);
    if o.users != users {
      var k := FindOne(users, ByResetToken(otp, now)).value;
      UpdatePreserves(users, k, o.users[k]);
    }
  }

  /** Every handler keeps the store invariant and keeps every record. */
  lemma ApplyPreserves(users: seq<User>, req: Request)
    requires StoreValid(users)
    ensures StoreValid(Apply(users, req).users) && Persists(users, Apply(users, req).users)
  {
    match req
    case Register(name, email, password, now, code, hash, mailSent) =>
      RegisterPreserves(users, name, email, password, now, code, hash, mailSent);
    case VerifyEmail(otp, now, mailSent) =>
      VerifyEmailPreserves(users, otp, now, mailSent);
    case SendPasswordResetToken(email, now, bytes, mailSent) =>
      SendPasswordResetTokenPreserves(users, email, now, bytes, mailSent);
    case ResetPassword(token, password, now, hash, mailSent) =>
      ResetPasswordPreserves(users, token, password, now, hash, mailSent);
    case Login(email, password, now, verify) =>
      LoginPreserves(users, email, password, now, verify);
    case GetUser(id) =>
    case SendPasswordResetOtp(email, now, code, mailSent) =>
      SendPasswordResetOtpPreserves(users, email, now, code, mailSent);
    case VerifyPasswordResetOtp(otp, newPassword, now, hash, mailSent) =>
      VerifyPasswordResetOtpPreserves(users, otp, newPassword, now, hash, mailSent);
  }

  /**
   * Whatever requests arrive, in whatever order, the invariant holds after
   * each of them, no record is lost, and verification is never undone.
   */
  lemma {:induction false} RunPreserves(users: seq<User>, reqs: seq<Request>)
    requires StoreValid(users)
    ensures StoreValid(Run(users, reqs)) && Persists(users, Run(users, reqs))
    decreases |reqs|
  {
    if reqs != [] {
      var next := Apply(users, reqs[0]).users;
      ApplyPreserves(users, reqs[0]);
      RunPreserves(next, reqs[1..]);
      PersistsTransitive(users, next, Run(next, reqs[1..]));
    }
  }

  /** A code that was just sent can be used once, within fifteen minutes, to verify the new account. */
  lemma RegisterThenVerify(users: seq<User>, name: string, email: string, password: string,
                           now: Millis, code: SixDigit, hash: string -> Digest, t: Millis)
    requires name != "" && email != "" && password != ""
    requires forall j :: 0 <= j < |users| ==> users[j].email != email
    requires t < now + FifteenMinutes
    requires forall j :: 0 <= j < |users| ==> !Matches(users[j], ByVerificationToken(DecimalText(code), t))
    ensures var o1 := AuthController.RegisterStep(users, name, email, password, now, code, hash, true);
      var o2 := AuthController.VerifyEmailStep(o1.users, DecimalText(code), t, true);
      && o1.reply.status == 201 && o2.reply.status == 200
      && o2.users[|users|].isVerified && o2.users[|users|].verificationToken.None?
  {
    var o1 := AuthController.RegisterStep(users, name, email, password, now, code, hash, true);
    assert o1.users[..|users|] == users;
    forall j | 0 <= j < |users| ensures !Matches(o1.users[j], ByVerificationToken(DecimalText(code), t)) {
      assert o1.users[j] == o1.users[..|users|][j];
    }
    FindOneUnique(o1.users, ByVerificationToken(DecimalText(code), t), |users|);
  }

  /** Once fifteen minutes have passed the code is refused, and nothing changes. */
  lemma RegisterThenVerifyTooLate(users: seq<User>, name: string, email: string, password: string,
                                  now: Millis, code: SixDigit, hash: string -> Digest, t: Millis)
    requires name != "" && email != "" && password != ""
    requires forall j :: 0 <= j < |users| ==> users[j].email != email
    requires t >= now + FifteenMinutes
    requires forall j :: 0 <= j < |users| ==> !Matches(users[j], ByVerificationToken(DecimalText(code), t))
    ensures var o1 := AuthController.RegisterStep(users, name, email, password, now, code, hash, true);
      var o2 := AuthController.VerifyEmailStep(o1.users, DecimalText(code), t, true);
      o2.reply.status == 401 && o2.users == o1.users
  {
    var o1 := AuthController.RegisterStep(users, name, email, password, now, code, hash, true);
    assert o1.users[..|users|] == users;
    forall j | 0 <= j < |o1.users| ensures !Matches(o1.users[j], ByVerificationToken(DecimalText(code), t)) {
      if j < |users| { assert o1.users[j] == o1.users[..|users|][j]; }
    }
  }

  /** At most one record holds `otp` as its verification code. */
  predicate CodeHeldOnce(users: seq<User>, otp: string) {
    forall i, j ::
      (0 <= i < |users| && 0 <= j < |users| && users[i].verificationToken == Some(otp) && users[j].verificationToken == Some(otp))
      ==> i == j
  }

  /** At most one record holds `token` as its reset secret. */
  predicate ResetTokenHeldOnce(users: seq<User>, token: string) {
    forall i, j ::
      (0 <= i < |users| && 0 <= j < |users| && users[i].resetPasswordToken == Some(token) && users[j].resetPasswordToken == Some(token))
      ==> i == j
  }

  /**
   * A verification code works once: when no other account holds the same
   * code, asking again with it is refused at any later time, even when the
   * welcome mail failed after the record was saved.
   */
  lemma VerificationCodeSingleUse(users: seq<User>, otp: string, now: Millis, mailSent: bool,
                                  later: Millis, mailSent': bool)
    requires AuthController.VerifyEmailStep(users, otp, now, mailSent).reply.status in {200, 500}
    requires CodeHeldOnce(users, otp)
    ensures var after := AuthController.VerifyEmailStep(users, otp, now, mailSent).users;
      AuthController.VerifyEmailStep(after, otp, later, mailSent').reply.status == 401
  {
    var after := AuthController.VerifyEmailStep(users, otp, now, mailSent).users;
    var k := FindOne(users, ByVerificationToken(otp, now)).value;
    forall j | 0 <= j < |after| ensures !Matches(after[j], ByVerificationToken(otp, later)) {
      if j != k { assert after[j] == users[j]; }
    }
  }

  /** A reset token works once, under the same condition. */
  lemma ResetTokenSingleUse(users: seq<User>, token: string, password: string, now: Millis,
                            hash: string -> Digest, mailSent: bool,
                            later: Millis, password': string, hash': string -> Digest, mailSent': bool)
    requires AuthController.ResetPasswordStep(users, token, password, now, hash, mailSent).reply.status in {200, 500}
    requires password' != ""
    requires ResetTokenHeldOnce(users, token)
    ensures var after := AuthController.ResetPasswordStep(users, token, password, now, hash, mailSent).users;
      AuthController.ResetPasswordStep(after, token, password', later, hash', mailSent').reply.status == 401
  {
    var after := AuthController.ResetPasswordStep(users, token, password, now, hash, mailSent).users;
    var k := FindOne(users, ByResetToken(token, now)).value;
    forall j | 0 <= j < |after| ensures !Matches(after[j], ByResetToken(token, later)) {
      if j != k { assert after[j] == users[j]; }
    }
  }

  /** A reset code of the numeric flow works once, under the same condition. */
  lemma ResetOtpSingleUse(users: seq<User>, otp: string, newPassword: string, now: Millis,
                          hash: string -> Digest, mailSent: bool,
                          later: Millis, newPassword': Option<string>, hash': string -> Digest, mailSent': bool)
    requires OtpReset.VerifyPasswordResetOtpStep(users, otp, Some(newPassword), now, hash, mailSent).reply.status in {200, 500}
    requires ResetTokenHeldOnce(users, otp)
    ensures var after := OtpReset.VerifyPasswordResetOtpStep(users, otp, Some(newPassword), now, hash, mailSent).users;
      OtpReset.VerifyPasswordResetOtpStep(after, otp, newPassword', later, hash', mailSent').reply.status == 401
  {
    var after := OtpReset.VerifyPasswordResetOtpStep(users, otp, Some(newPassword), now, hash, mailSent).users;
    var k := FindOne(users, ByResetToken(otp, now)).value;
    forall j | 0 <= j < |after| ensures !Matches(after[j], ByResetToken(otp, later)) {
      if j != k { assert after[j] == users[j]; }
    }
  }

  /** With unique e-mails, looking a record's own e-mail up finds that record. */
  lemma FindOwnEmail(users: seq<User>, k: UserId)
    requires StoreValid(users) && k < |users|
    ensures FindOne(users, ByEmail(users[k].email)) == Some(k)
  {
    FindOneUnique(users, ByEmail(users[k].email), k);
  }

  /**
   * Requesting a reset and using the mailed token within fifteen minutes
   * changes the password: the new one logs in and any other is refused.
   */
  lemma ResetThenLogin(users: seq<User>, k: UserId, now: Millis, bytes: RandomBytes20,
                       t: Millis, p: string, hash: string -> Digest,
                       verify: (string, Digest) -> bool, t2: Millis)
    requires StoreValid(users) && k < |users|
    requires forall j :: 0 <= j < |users| ==> users[j].resetPasswordToken != Some(HexText(bytes))
    requires t < now + FifteenMinutes && p != ""
    requires HashScheme(hash, verify)
    ensures var email := users[k].email;
      var o1 := AuthController.SendPasswordResetTokenStep(users, email, now, bytes, true);
      var o2 := AuthController.ResetPasswordStep(o1.users, HexText(bytes), p, t, hash, true);
      && o1.reply.status == 200 && o2.reply.status == 200
      && AuthController.LoginStep(o2.users, email, p, t2, verify).reply.status == 200
      && forall q :: q != p ==> AuthController.LoginStep(o2.users, email, q, t2, verify).reply.status != 200
  {
    var email := users[k].email;
    SendThenReset(users, k, now, bytes, t, p, hash);
    var o1 := AuthController.SendPasswordResetTokenStep(users, email, now, bytes, true);
    var o2 := AuthController.ResetPasswordStep(o1.users, HexText(bytes), p, t, hash, true);
    forall q ensures AuthController.LoginStep(o2.users, email, q, t2, verify).reply.status == 200 <==> q == p {
      LoginChecksPassword(o2.users, k, p, q, t2, hash, verify);
    }
  }

  /** Requesting a reset token and using it in time sets the account's digest to that of the new password. */
  lemma SendThenReset(users: seq<User>, k: UserId, now: Millis, bytes: RandomBytes20,
                      t: Millis, p: string, hash: string -> Digest)
    requires StoreValid(users) && k < |users|
    requires forall j :: 0 <= j < |users| ==> users[j].resetPasswordToken != Some(HexText(bytes))
    requires t < now + FifteenMinutes && p != ""
    ensures var email := users[k].email;
      var o1 := AuthController.SendPasswordResetTokenStep(users, email, now, bytes, true);
      var o2 := AuthController.ResetPasswordStep(o1.users, HexText(bytes), p, t, hash, true);
      && o1.reply.status == 200 && o2.reply.status == 200
      && StoreValid(o2.users) && k < |o2.users|
      && o2.users[k].email == email && o2.users[k].password == hash(p)
  {
    var email := users[k].email;
    FindOwnEmail(users, k);
    var o1 := AuthController.SendPasswordResetTokenStep(users, email, now, bytes, true);
    var token := HexText(bytes);
    forall j | 0 <= j < |o1.users| && j != k ensures !Matches(o1.users[j], ByResetToken(token, t)) {
      assert o1.users[j] == users[j];
    }
    FindOneUnique(o1.users, ByResetToken(token, t), k);
    SendPasswordResetTokenPreserves(users, email, now, bytes, true);
    ResetPasswordPreserves(o1.users, token, p, t, hash, true);
  }

  /** With unique e-mails, a login to an account succeeds exactly with the password its digest was made from. */
  lemma LoginChecksPassword(users: seq<User>, k: UserId, p: string, q: string, now: Millis,
                            hash: string -> Digest, verify: (string, Digest) -> bool)
    requires StoreValid(users) && k < |users| && users[k].password == hash(p) && p != ""
    requires HashScheme(hash, verify)
    ensures AuthController.LoginStep(users, users[k].email, q, now, verify).reply.status == 200 <==> q == p
  {
    FindOwnEmail(users, k);
  }

  /** A successful login's session token fetches the same, freshly stamped record. */
  lemma LoginThenGetUser(users: seq<User>, email: string, password: string, now: Millis,
                         verify: (string, Digest) -> bool)
    requires AuthController.LoginStep(users, email, password, now, verify).reply.status == 200
    ensures var o := AuthController.LoginStep(users, email, password, now, verify);
      var r := AuthController.GetUserStep(o.users, Some(o.reply.cookie.value.id));
      && r.status == 200 && r.user.value.email == email && r.user.value.lastLogin == Some(now)
      && o.reply.cookie.value.expiresAt == now + OneDay
  {
  }

  /** `login` does not look at `isVerified`: an account logs in before its e-mail is verified. */
  lemma UnverifiedAccountCanLogIn(users: seq<User>, name: string, email: string, password: string,
                                  now: Millis, code: SixDigit, hash: string -> Digest,
                                  verify: (string, Digest) -> bool, t: Millis)
    requires StoreValid(users) && HashScheme(hash, verify)
    requires name != "" && email != "" && password != ""
    requires forall j :: 0 <= j < |users| ==> users[j].email != email
    ensures var o1 := AuthController.RegisterStep(users, name, email, password, now, code, hash, true);
      var o2 := AuthController.LoginStep(o1.users, email, password, t, verify);
      !o1.users[|users|].isVerified && o2.reply.status == 200
  {
    var o1 := AuthController.RegisterStep(users, name, email, password, now, code, hash, true);
    RegisterPreserves(users, name, email, password, now, code, hash, true);
    FindOwnEmail(o1.users, |users|);
  }

  /**
   * The numeric reset accepts an empty new password. The account is then
   * locked out of password login: an empty password is refused as missing,
   * and any other does not match the stored digest.
   */
  lemma EmptyOtpPasswordLocksOut(users: seq<User>, otp: string, now: Millis, hash: string -> Digest,
                                 verify: (string, Digest) -> bool, mailSent: bool, t: Millis)
    requires StoreValid(users) && HashScheme(hash, verify)
    requires OtpReset.VerifyPasswordResetOtpStep(users, otp, Some(""), now, hash, mailSent).reply.status !in {400, 401}
    ensures var after := OtpReset.VerifyPasswordResetOtpStep(users, otp, Some(""), now, hash, mailSent).users;
      var k := FindOne(users, ByResetToken(otp, now)).value;
      forall q :: AuthController.LoginStep(after, users[k].email, q, t, verify).reply.status in {400, 401}
  {
    var after := OtpReset.VerifyPasswordResetOtpStep(users, otp, Some(""), now, hash, mailSent).users;
    var k := FindOne(users, ByResetToken(otp, now)).value;
    ApplyPreserves(users, VerifyPasswordResetOtp(otp, Some(""), now, hash, mailSent));
    FindOwnEmail(after, k);
    assert after[k].password == hash("");
  }

  /**
   * The two reset flows share `resetPasswordToken`: the code the numeric
   * flow mails is also accepted by the `/reset-password/:token` handler.
   */
  lemma ResetRouteAcceptsOtpCode(users: seq<User>, k: UserId, now: Millis, code: SixDigit,
                                 t: Millis, p: string, hash: string -> Digest)
    requires k < |users| && users[k].email != ""
    requires t < now + FifteenMinutes && p != ""
    ensures var o1 := OtpReset.SendPasswordResetOtpStep(users, users[k].email, now, code, true);
      && o1.reply.status == 200
      && AuthController.ResetPasswordStep(o1.users, DecimalText(code), p, t, hash, true).reply.status == 200
  {
    var o1 := OtpReset.SendPasswordResetOtpStep(users, users[k].email, now, code, true);
    var k' := FindOne(users, ByEmail(users[k].email)).value;
    assert Matches(o1.users[k'], ByResetToken(DecimalText(code), t));
  }

  /** Ann's record as `register` creates it, and after her e-mail is verified. */
  function AnnRegistered(code: SixDigit, now: Millis, hash: string -> Digest): User {
    User("Ann", "ann@x.com", hash("Secret123!"), false, Some(DecimalText(code)), Some(now + FifteenMinutes), None, None, None)
  }

  /** Worked example, first step: registering Ann on an empty store. */
  lemma ScenarioRegister(code: SixDigit, now: Millis, hash: string -> Digest)
    ensures var o := AuthController.RegisterStep([], "Ann", "ann@x.com", "Secret123!", now, code, hash, true);
      o.reply.status == 201 && o.users == [AnnRegistered(code, now, hash)]
  {
    var o := AuthController.RegisterStep([], "Ann", "ann@x.com", "Secret123!", now, code, hash, true);
    assert |o.users| == 1;
  }

  /** Worked example, second step: a wrong code is refused, then the mailed code verifies Ann. */
  lemma ScenarioVerify(code: SixDigit, wrong: string, now: Millis, hash: string -> Digest)
    requires wrong != "" && wrong != DecimalText(code)
    ensures var users := [AnnRegistered(code, now, hash)];
      var o2 := AuthController.VerifyEmailStep(users, wrong, now + 1, true);
      var o3 := AuthController.VerifyEmailStep(o2.users, DecimalText(code), now + 2, true);
      && o2.reply == Failure(401, "Invalid or Expired OTP!") && o2.users == users
      && o3.reply.status == 200
      && o3.users == [users[0].(isVerified := true, verificationToken := None, verificationTokenExpireAt := None)]
  {
    var users := [AnnRegistered(code, now, hash)];
    assert !Matches(users[0], ByVerificationToken(wrong, now + 1));
    assert Matches(users[0], ByVerificationToken(DecimalText(code), now + 2));
  }

  /** Worked example, last step: Ann logs in and her session token fetches her record. */
  lemma ScenarioLogin(u: User, now: Millis, verify: (string, Digest) -> bool)
    requires u.email == "ann@x.com" && verify("Secret123!", u.password)
    ensures var o4 := AuthController.LoginStep([u], "ann@x.com", "Secret123!", now, verify);
      && o4.reply.status == 200 && o4.reply.cookie == Some(SessionToken(0, now + OneDay))
      && var r := AuthController.GetUserStep(o4.users, Some(0));
      && r.status == 200 && r.user.value.name == u.name && r.user.value.isVerified == u.isVerified
  {
    assert FindOne([u], ByEmail("ann@x.com")) == Some(0);
  }

  /**
   * A worked example of the lemmas above, for one concrete account.
   * The whole happy path on an empty store: registering, a wrong code
   * (refused), the mailed code, logging in, and fetching the account with
   * the session token.
   */
  lemma RegisterVerifyLoginScenario(code: SixDigit, wrong: string, now: Millis,
                                    hash: string -> Digest, verify: (string, Digest) -> bool)
    requires HashScheme(hash, verify)
    requires wrong != "" && wrong != DecimalText(code)
    ensures var o1 := AuthController.RegisterStep([], "Ann", "ann@x.com", "Secret123!", now, code, hash, true);
      var o2 := AuthController.VerifyEmailStep(o1.users, wrong, now + 1, true);
      var o3 := AuthController.VerifyEmailStep(o2.users, DecimalText(code), now + 2, true);
      var o4 := AuthController.LoginStep(o3.users, "ann@x.com", "Secret123!", now + 3, verify);
      && o1.reply.status == 201
      && o2.reply.status == 401 && o2.reply.message == "Invalid or Expired OTP!"
      && o3.reply.status == 200
      && o4.reply.status == 200 && o4.reply.cookie.Some?
      && var r := AuthController.GetUserStep(o4.users, Some(o4.reply.cookie.value.id));
      && r.status == 200 && r.user.value.name == "Ann" && r.user.value.isVerified
  {
    ScenarioRegister(code, now, hash);
    ScenarioVerify(code, wrong, now, hash);
    var u := AnnRegistered(code, now, hash).(isVerified := true, verificationToken := None, verificationTokenExpireAt := None);
    assert verify("Secret123!", u.password);
    ScenarioLogin(u, now + 3, verify);
  }
}

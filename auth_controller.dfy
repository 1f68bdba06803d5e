/**
 * The handlers of backend/controllers/auth.controller.js as transitions
 * of the account store. Each handler is specified by a step function from
 * the records and the request to the new records and the reply, and is
 * written as a method that looks a record up, changes it and saves it,
 * as the handler does.
 *
 * Inputs the handlers take from outside the request are parameters:
 * `now` for `Date.now()` and `new Date()`; `code` for the six-digit random
 * code; `bytes` for `crypto.randomBytes(20)`; `hash` for bcrypt hashing
 * with a fresh salt; `verify` for `bcrypt.compare`; and `mailSent` for
 * whether `transporter.sendMail` resolved. A missing request field is the
 * empty string, since the handlers only test fields for falsiness.
 */
module AuthController {
  import opened Wrappers
  import opened JsText
  import opened Tokens
  import opened Accounts

  // ---------------------------------------------------------------- register

  function RegisterStep(users: seq<User>, name: string, email: string, password: string,
                        now: Millis, code: SixDigit, hash: string -> Digest, mailSent: bool): (o: Outcome)
    ensures o.reply.status == 400 <==> name == "" || email == "" || password == ""
    ensures o.reply.status == 409 <==>
      name != "" && email != "" && password != "" && exists i :: 0 <= i < |users| && users[i].email == email
    ensures o.reply.status in {400, 409} ==> o.users == users
    ensures o.reply.status !in {400, 409} ==>
      && |o.users| == |users| + 1 && o.users[..|users|] == users
      && var u := o.users[|users|];
      && u.name == name && u.email == email && u.password == hash(password) && !u.isVerified
      && u.verificationToken == Some(DecimalText(code))
      && u.verificationTokenExpireAt == Some(now + 900000)
      && u.resetPasswordToken.None? && u.resetPasswordExpireAt.None? && u.lastLogin.None?
    ensures o.reply.status == 201 <==> o.reply.status !in {400, 409} && mailSent
    ensures o.reply.status in {400, 409, 201, 500} && (o.reply.success <==> o.reply.status == 201)
    ensures o.reply.status == 201 ==>
      o.reply.user == Some(PublicUser(|users|, name, email, false, None, None, None, None, None, None))
      && o.reply.message == name + " Email verification OTP sent to your email address."
    ensures o.reply.cookie.None?
  {
    if name == "" || email == "" || password == "" then
      Outcome(users, Failure(400, "All fields are required!"))
    else if FindOne(users, ByEmail(email)).Some? then
      Outcome(users, Failure(409, "User already exists!"))
    else
      var user := User(name, email, hash(password), false, Some(DecimalText(code)),
        Some(now + FifteenMinutes), None, None, None);
      var users' := users + [user];
      if !mailSent then Outcome(users', Failure(500, "Internal server error!"))
      else
        var shown := Sanitize(|users|, user).(verificationToken := None, verificationTokenExpireAt := None);
        Outcome(users', Reply(201, true, name + " Email verification OTP sent to your email address.", Some(shown), None))
  }

  method Register(store: UserStore, name: string, email: string, password: string,
                  now: Millis, code: SixDigit, hash: string -> Digest, mailSent: bool) returns (reply: Reply)
    modifies store
    ensures var o := RegisterStep(old(store.users), name, email, password, now, code, hash, mailSent);
      store.users == o.users && reply == o.reply
  {
    if name == "" || email == "" || password == "" {
      return Failure(400, "All fields are required!");
    }
    var userExists := FindOne(store.users, ByEmail(email));
    if userExists.Some? {
      return Failure(409, "User already exists!");
    }
    var digest := hash(password);
    var verificationToken := DecimalText(code);
    var verificationTokenExpireAt := now + 15 * 60 * 1000;
    var user := User(name, email, digest, false, Some(verificationToken), Some(verificationTokenExpireAt), None, None, None);
    var id := store.Create(user);
    if !mailSent {
      return Failure(500, "Internal server error!");
    }
    var shown := Sanitize(id, user).(verificationToken := None, verificationTokenExpireAt := None);
    return Reply(201, true, user.name + " Email verification OTP sent to your email address.", Some(shown), None);
  }

  // ------------------------------------------------------------- verifyEmail

  function VerifyEmailStep(users: seq<User>, otp: string, now: Millis, mailSent: bool): (o: Outcome)
    ensures o.reply.status == 400 <==> otp == ""
    ensures o.reply.status == 401 <==>
      otp != "" && forall j :: 0 <= j < |users| ==> !Matches(users[j], ByVerificationToken(otp, now))
    ensures o.reply.status == 401 ==> o.reply == Failure(401, "Invalid or Expired OTP!")
    ensures o.reply.status in {400, 401} ==> o.users == users
    ensures o.reply.status !in {400, 401} ==>
      && FindOne(users, ByVerificationToken(otp, now)).Some?
      && var k := FindOne(users, ByVerificationToken(otp, now)).value;
      && users[k].verificationToken == Some(otp) && Later(users[k].verificationTokenExpireAt, now)
      && o.users == users[k := users[k].(isVerified := true, verificationToken := None, verificationTokenExpireAt := None)]
    ensures o.reply.status == 200 <==> o.reply.status !in {400, 401} && mailSent
    ensures o.reply.status in {400, 401, 200, 500} && (o.reply.success <==> o.reply.status == 200)
    ensures o.reply.user.None? && o.reply.cookie.None?
  {
    if otp == "" then Outcome(users, Failure(400, "Credentials are required!"))
    else
      var found := FindOne(users, ByVerificationToken(otp, now));
      if found.None? then Outcome(users, Failure(401, "Invalid or Expired OTP!"))
      else
        var k := found.value;
        var users' := users[k := users[k].(isVerified := true, verificationToken := None, verificationTokenExpireAt := None)];
        if !mailSent then Outcome(users', Failure(500, "Internal Server Error!"))
        else Outcome(users', Reply(200, true, "Email verified successfully.", None, None))
  }

  method VerifyEmail(store: UserStore, otp: string, now: Millis, mailSent: bool) returns (reply: Reply)
    modifies store
    ensures var o := VerifyEmailStep(old(store.users), otp, now, mailSent);
      store.users == o.users && reply == o.reply
  {
    if otp == "" {
      return Failure(400, "Credentials are required!");
    }
    var found := FindOne(store.users, ByVerificationToken(otp, now));
    if found.None? {
      return Failure(401, "Invalid or Expired OTP!");
    }
    var user := store.users[found.value];
    user := user.(isVerified := true);
    user := user.(verificationToken := None);
    user := user.(verificationTokenExpireAt := None);
    store.Save(found.value, user);
    if !mailSent {
      return Failure(500, "Internal Server Error!");
    }
    return Reply(200, true, "Email verified successfully.", None, None);
  }

  // -------------------------------------------------- sendPasswordResetToken

  function SendPasswordResetTokenStep(users: seq<User>, email: string, now: Millis,
                                      bytes: RandomBytes20, mailSent: bool): (o: Outcome)
    ensures o.reply.status == 400 <==> email == ""
    ensures o.reply.status == 404 <==> email != "" && forall j :: 0 <= j < |users| ==> users[j].email != email
    ensures o.reply.status in {400, 404} ==> o.users == users
    ensures o.reply.status !in {400, 404} ==>
      && FindOne(users, ByEmail(email)).Some?
      && var k := FindOne(users, ByEmail(email)).value;
      && users[k].email == email
      && o.users == users[k := users[k].(resetPasswordToken := Some(HexText(bytes)),
                                         resetPasswordExpireAt := Some(now + 900000))]
      && |HexText(bytes)| == 40
    ensures o.reply.status == 200 <==> o.reply.status !in {400, 404} && mailSent
    ensures o.reply.status in {400, 404, 200, 500} && (o.reply.success <==> o.reply.status == 200)
    ensures o.reply.user.None? && o.reply.cookie.None?
  {
    if email == "" then Outcome(users, Failure(400, "Email is required!"))
    else
      var found := FindOne(users, ByEmail(email));
      if found.None? then Outcome(users, Failure(404, "No user found with this email!"))
      else
        var k := found.value;
        var users' := users[k := users[k].(resetPasswordToken := Some(HexText(bytes)),
                                           resetPasswordExpireAt := Some(now + FifteenMinutes))];
        if !mailSent then Outcome(users', Failure(500, "Internal Server Error!"))
        else Outcome(users', Reply(200, true, "Password reset request sent to your email.", None, None))
  }

  method SendPasswordResetToken(store: UserStore, email: string, now: Millis,
                                bytes: RandomBytes20, mailSent: bool) returns (reply: Reply)
    modifies store
    ensures var o := SendPasswordResetTokenStep(old(store.users), email, now, bytes, mailSent);
      store.users == o.users && reply == o.reply
  {
    if email == "" {
      return Failure(400, "Email is required!");
    }
    var found := FindOne(store.users, ByEmail(email));
    if found.None? {
      return Failure(404, "No user found with this email!");
    }
    var resetToken := HexText(bytes);
    var user := store.users[found.value];
    user := user.(resetPasswordToken := Some(resetToken));
    user := user.(resetPasswordExpireAt := Some(now + 15 * 60 * 1000));
    store.Save(found.value, user);
    if !mailSent {
      return Failure(500, "Internal Server Error!");
    }
    return Reply(200, true, "Password reset request sent to your email.", None, None);
  }

  // ----------------------------------------------------------- resetPassword

  function ResetPasswordStep(users: seq<User>, token: string, password: string, now: Millis,
                             hash: string -> Digest, mailSent: bool): (o: Outcome)
    ensures o.reply.status == 400 <==> token == "" || password == ""
    ensures o.reply.status == 401 <==>
      token != "" && password != "" && forall j :: 0 <= j < |users| ==> !Matches(users[j], ByResetToken(token, now))
    ensures o.reply.status == 401 ==> o.reply == Failure(401, "Invalid or expired reset token.")
    ensures o.reply.status in {400, 401} ==> o.users == users
    ensures o.reply.status !in {400, 401} ==>
      && FindOne(users, ByResetToken(token, now)).Some?
      && var k := FindOne(users, ByResetToken(token, now)).value;
      && users[k].resetPasswordToken == Some(token) && Later(users[k].resetPasswordExpireAt, now)
      && o.users == users[k := users[k].(password := hash(password), resetPasswordToken := None, resetPasswordExpireAt := None)]
    ensures o.reply.status == 200 <==> o.reply.status !in {400, 401} && mailSent
    ensures o.reply.status in {400, 401, 200, 500} && (o.reply.success <==> o.reply.status == 200)
    ensures o.reply.user.None? && o.reply.cookie.None?
  {
    if token == "" || password == "" then Outcome(users, Failure(400, "Token and new password are required."))
    else
      var found := FindOne(users, ByResetToken(token, now));
      if found.None? then Outcome(users, Failure(401, "Invalid or expired reset token."))
      else
        var k := found.value;
        var users' := users[k := users[k].(password := hash(password), resetPasswordToken := None, resetPasswordExpireAt := None)];
        if !mailSent then Outcome(users', Failure(500, "Internal server error."))
        else Outcome(users', Reply(200, true, "Password updated successfully.", None, None))
  }

  method ResetPassword(store: UserStore, token: string, password: string, now: Millis,
                       hash: string -> Digest, mailSent: bool) returns (reply: Reply)
    modifies store
    ensures var o := ResetPasswordStep(old(store.users), token, password, now, hash, mailSent);
      store.users == o.users && reply == o.reply
  {
    if token == "" || password == "" {
      return Failure(400, "Token and new password are required.");
    }
    var found := FindOne(store.users, ByResetToken(token, now));
    if found.None? {
      return Failure(401, "Invalid or expired reset token.");
    }
    var user := store.users[found.value];
    user := user.(password := hash(password));
    user := user.(resetPasswordToken := None);
    user := user.(resetPasswordExpireAt := None);
    store.Save(found.value, user);
    if !mailSent {
      return Failure(500, "Internal server error.");
    }
    return Reply(200, true, "Password updated successfully.", None, None);
  }

  // ------------------------------------------------------------------- login

  function LoginStep(users: seq<User>, email: string, password: string, now: Millis,
                     verify: (string, Digest) -> bool): (o: Outcome)
    ensures o.reply.status == 400 <==> email == "" || password == ""
    ensures o.reply.status == 401 <==>
      email != "" && password != "" &&
      (FindOne(users, ByEmail(email)).None? || !verify(password, users[FindOne(users, ByEmail(email)).value].password))
    ensures o.reply.status != 200 ==> o.users == users && o.reply.cookie.None? && o.reply.user.None?
    ensures o.reply.status in {400, 401, 200} && (o.reply.success <==> o.reply.status == 200)
    ensures o.reply.status == 200 ==>
      && FindOne(users, ByEmail(email)).Some?
      && var k := FindOne(users, ByEmail(email)).value;
      && users[k].email == email && verify(password, users[k].password)
      && o.users == users[k := users[k].(lastLogin := Some(now))]
      && o.reply.cookie == Some(SessionToken(k, now + 86400000))
      && o.reply.user == Some(Sanitize(k, o.users[k]).(token := o.reply.cookie))
      && o.reply.message == "Welcome back, " + users[k].name + "."
  {
    if email == "" || password == "" then Outcome(users, Failure(400, "Email and password are required."))
    else
      var found := FindOne(users, ByEmail(email));
      if found.None? then Outcome(users, Failure(401, "User not found."))
      else
        var k := found.value;
        if !verify(password, users[k].password) then Outcome(users, Failure(401, "Invalid credentials."))
        else
          var user := users[k].(lastLogin := Some(now));
          var token := SessionToken(k, now + OneDay);
          Outcome(users[k := user],
            Reply(200, true, "Welcome back, " + user.name + ".", Some(Sanitize(k, user).(token := Some(token))), Some(token)))
  }

  method Login(store: UserStore, email: string, password: string, now: Millis,
               verify: (string, Digest) -> bool) returns (reply: Reply)
    modifies store
    ensures var o := LoginStep(old(store.users), email, password, now, verify);
      store.users == o.users && reply == o.reply
  {
    if email == "" || password == "" {
      return Failure(400, "Email and password are required.");
    }
    var found := FindOne(store.users, ByEmail(email));
    if found.None? {
      return Failure(401, "User not found.");
    }
    var user := store.users[found.value];
    var isMatch := verify(password, user.password);
    if !isMatch {
      return Failure(401, "Invalid credentials.");
    }
    user := user.(lastLogin := Some(now));
    store.Save(found.value, user);
    var token := SessionToken(found.value, now + OneDay);
    return Reply(200, true, "Welcome back, " + user.name + ".", Some(Sanitize(found.value, user).(token := Some(token))), Some(token));
  }

  // ----------------------------------------------------------------- getUser

  /** `getUser`, given the id `checkAuth` decoded from the session token (if any). */
  function GetUserStep(users: seq<User>, id: Option<UserId>): (r: Reply)
    ensures r.status == 400 <==> id.None?
    ensures r.status == 404 <==> id.Some? && id.value >= |users|
    ensures r.status == 200 <==> id.Some? && id.value < |users|
    ensures r.success <==> r.status == 200
    ensures r.status == 200 ==> r.user == Some(Sanitize(id.value, users[id.value]))
    ensures r.status != 200 ==> r.user.None?
    ensures r.cookie.None?
  {
    if id.None? then Failure(400, "Invalid id!")
    else if id.value >= |users| then Failure(404, "User not found!")
    else Reply(200, true, "User authenticated.", Some(Sanitize(id.value, users[id.value])), None)
  }

  /** `getUser` reads the store and changes nothing. */
  method GetUser(store: UserStore, id: Option<UserId>) returns (reply: Reply)
    ensures reply == GetUserStep(store.users, id)
  {
    if id.None? {
      return Failure(400, "Invalid id!");
    }
    if id.value >= |store.users| {
      return Failure(404, "User not found!");
    }
    var user := store.users[id.value];
    return Reply(200, true, "User authenticated.", Some(Sanitize(id.value, user)), None);
  }
}

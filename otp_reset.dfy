/**
 * The numeric-code password reset of backend/dummy.js, which no route
 * serves. It stores a six-digit code in the same `resetPasswordToken`
 * field `sendPasswordResetToken` uses for its hex token.
 *
 * `newPassword` is `None` when the request has no such field: bcrypt then
 * throws, after the code was accepted and before anything is saved. An
 * empty `newPassword` is hashed like any other.
 */
module OtpReset {
  import opened Wrappers
  import opened JsText
  import opened Tokens
  import opened Accounts

  function SendPasswordResetOtpStep(users: seq<User>, email: string, now: Millis,
                                    code: SixDigit, mailSent: bool): (o: Outcome)
    ensures o.reply.status == 400 <==> email == ""
    ensures o.reply.status == 404 <==> email != "" && forall j :: 0 <= j < |users| ==> users[j].email != email
    ensures o.reply.status in {400, 404} ==> o.users == users
    ensures o.reply.status !in {400, 404} ==>
      && FindOne(users, ByEmail(email)).Some?
      && var k := FindOne(users, ByEmail(email)).value;
      && users[k].email == email
      && o.users == users[k := users[k].(resetPasswordToken := Some(DecimalText(code)),
                                         resetPasswordExpireAt := Some(now + 900000))]
    ensures o.reply.status == 200 <==> o.reply.status !in {400, 404} && mailSent
    ensures o.reply.status in {400, 404, 200, 500} && (o.reply.success <==> o.reply.status == 200)
    ensures o.reply.user.None? && o.reply.cookie.None?
  {
    if email == "" then Outcome(users, Failure(400, "Email is required!"))
    else
      var found := FindOne(users, ByEmail(email));
      if found.None? then Outcome(users, Failure(404, "Please enter valid email!"))
      else
        var k := found.value;
        var users' := users[k := users[k].(resetPasswordToken := Some(DecimalText(code)),
                                           resetPasswordExpireAt := Some(now + FifteenMinutes))];
        if !mailSent then Outcome(users', Failure(500, "Internal Server Error!"))
        else Outcome(users', Reply(200, true, "OTP sent to your email.", None, None))
  }

  method SendPasswordResetOtp(store: UserStore, email: string, now: Millis,
                              code: SixDigit, mailSent: bool) returns (reply: Reply)
    modifies store
    ensures var o := SendPasswordResetOtpStep(old(store.users), email, now, code, mailSent);
      store.users == o.users && reply == o.reply
  {
    if email == "" {
      return Failure(400, "Email is required!");
    }
    var found := FindOne(store.users, ByEmail(email));
    if found.None? {
      return Failure(404, "Please enter valid email!");
    }
    var otp := DecimalText(code);
    var user := store.users[found.value];
    user := user.(resetPasswordToken := Some(otp));
    user := user.(resetPasswordExpireAt := Some(now + 15 * 60 * 1000));
    store.Save(found.value, user);
    if !mailSent {
      return Failure(500, "Internal Server Error!");
    }
    return Reply(200, true, "OTP sent to your email.", None, None);
  }

  function VerifyPasswordResetOtpStep(users: seq<User>, otp: string, newPassword: Option<string>,
                                      now: Millis, hash: string -> Digest, mailSent: bool): (o: Outcome)
    ensures o.reply.status == 400 <==> otp == ""
    ensures o.reply.status == 401 <==>
      otp != "" && forall j :: 0 <= j < |users| ==> !Matches(users[j], ByResetToken(otp, now))
    ensures o.reply.status in {400, 401} || newPassword.None? ==> o.users == users
    ensures o.reply.status !in {400, 401} && newPassword.Some? ==>
      && FindOne(users, ByResetToken(otp, now)).Some?
      && var k := FindOne(users, ByResetToken(otp, now)).value;
      && users[k].resetPasswordToken == Some(otp) && Later(users[k].resetPasswordExpireAt, now)
      && o.users == users[k := users[k].(password := hash(newPassword.value), resetPasswordToken := None, resetPasswordExpireAt := None)]
    ensures o.reply.status == 200 <==> o.reply.status !in {400, 401} && newPassword.Some? && mailSent
    ensures o.reply.status in {400, 401, 200, 500} && (o.reply.success <==> o.reply.status == 200)
    ensures o.reply.user.None? && o.reply.cookie.None?
  {
    if otp == "" then Outcome(users, Failure(400, "Credentials required!"))
    else
      var found := FindOne(users, ByResetToken(otp, now));
      if found.None? then Outcome(users, Failure(401, "Invalid OTP!"))
      else if newPassword.None? then Outcome(users, Failure(500, "Internal Server Error!"))
      else
        var k := found.value;
        var users' := users[k := users[k].(password := hash(newPassword.value), resetPasswordToken := None, resetPasswordExpireAt := None)];
        if !mailSent then Outcome(users', Failure(500, "Internal Server Error!"))
        else Outcome(users', Reply(200, true, "Password reset successfully.", None, None))
  }

  method VerifyPasswordResetOtp(store: UserStore, otp: string, newPassword: Option<string>,
                                now: Millis, hash: string -> Digest, mailSent: bool) returns (reply: Reply)
    modifies store
    ensures var o := VerifyPasswordResetOtpStep(old(store.users), otp, newPassword, now, hash, mailSent);
      store.users == o.users && reply == o.reply
  {
    if otp == "" {
      return Failure(400, "Credentials required!");
    }
    var found := FindOne(store.users, ByResetToken(otp, now));
    if found.None? {
      return Failure(401, "Invalid OTP!");
    }
    if newPassword.None? {
      return Failure(500, "Internal Server Error!");
    }
    var digest := hash(newPassword.value);
    var user := store.users[found.value];
    user := user.(password := digest);
    user := user.(resetPasswordToken := None);
    user := user.(resetPasswordExpireAt := None);
    store.Save(found.value, user);
    if !mailSent {
      return Failure(500, "Internal Server Error!");
    }
    return Reply(200, true, "Password reset successfully.", None, None);
  }
}

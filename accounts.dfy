/**
 * The account records of the backend and the store that holds them.
 * Records are kept in insertion order; a record's id is its position.
 * `User.findOne(filter)` returns the first record the filter matches and
 * `user.save()` writes a record back in place.
 */
module Accounts {
  import opened Wrappers
  import opened JsText
  import opened Tokens

  type UserId = nat

  /** A bcrypt digest; its text is opaque to the model. */
  datatype Digest = Digest(encoded: string)

  /** Milliseconds since the epoch, as `Date.now()` returns them. */
  type Millis = int

  const FifteenMinutes: int := 15 * 60 * 1000
  const OneDay: int := 24 * 60 * 60 * 1000

  datatype User = User(
    name: string,
    email: string,
    password: Digest,
    isVerified: bool,
    verificationToken: Option<string>,
    verificationTokenExpireAt: Option<Millis>,
    resetPasswordToken: Option<string>,
    resetPasswordExpireAt: Option<Millis>,
    lastLogin: Option<Millis>)

  /** The filters the handlers pass to `User.findOne`. */
  datatype Query =
    | ByEmail(email: string)
    | ByVerificationToken(otp: string, now: Millis)  // `{ verificationToken: otp, verificationTokenExpireAt: { $gt: now } }`
    | ByResetToken(token: string, now: Millis)       // `{ resetPasswordToken: token, resetPasswordExpireAt: { $gt: now } }`

  /** A field compared with `$gt` matches only when it is set and strictly later than `now`. */
  predicate Later(expireAt: Option<Millis>, now: Millis) {
    expireAt.Some? && expireAt.value > now
  }

  predicate Matches(u: User, q: Query) {
    match q
    case ByEmail(email) => u.email == email
    case ByVerificationToken(otp, now) => u.verificationToken == Some(otp) && Later(u.verificationTokenExpireAt, now)
    case ByResetToken(token, now) => u.resetPasswordToken == Some(token) && Later(u.resetPasswordExpireAt, now)
  }

  /** `User.findOne(q)`: the first record from position `from` on that `q` matches. */
  function FindFrom(users: seq<User>, q: Query, from: nat): (r: Option<UserId>)
    requires from <= |users|
    ensures r.Some? ==> (from <= r.value < |users| && Matches(users[r.value], q)
      && forall j :: from <= j < r.value ==> !Matches(users[j], q))
    ensures r.None? ==> forall j :: from <= j < |users| ==> !Matches(users[j], q)
    decreases |users| - from
  {
    if from == |users| then None
    else if Matches(users[from], q) then Some(from)
    else FindFrom(users, q, from + 1)
  }

  function FindOne(users: seq<User>, q: Query): (r: Option<UserId>)
    ensures r.Some? ==> (r.value < |users| && Matches(users[r.value], q)
      && forall j :: 0 <= j < r.value ==> !Matches(users[j], q))
    ensures r.None? <==> forall j :: 0 <= j < |users| ==> !Matches(users[j], q)
  {
    FindFrom(users, q, 0)
  }

  /** When only one record matches, `findOne` finds that one. */
  lemma FindOneUnique(users: seq<User>, q: Query, id: UserId)
    requires id < |users| && Matches(users[id], q)
    requires forall j :: 0 <= j < |users| && j != id ==> !Matches(users[j], q)
    ensures FindOne(users, q) == Some(id)
  {
  }

  /** An expired or cleared secret is never found, whatever the value asked for. */
  lemma ExpiredNeverMatches(u: User, otp: string, token: string, now: Millis)
    requires !Later(u.verificationTokenExpireAt, now) && !Later(u.resetPasswordExpireAt, now)
    ensures !Matches(u, ByVerificationToken(otp, now)) && !Matches(u, ByResetToken(token, now))
  {
  }

  /** A JSON Web Token as `jwt.sign({ id }, secret, { expiresIn: "1d" })` issues it. */
  datatype SessionToken = SessionToken(id: UserId, expiresAt: Millis)

  /**
   * A record as a response carries it: `...user._doc` with `password`
   * removed. There is no digest field, so no response can carry one.
   */
  datatype PublicUser = PublicUser(
    id: UserId,
    name: string,
    email: string,
    isVerified: bool,
    verificationToken: Option<string>,
    verificationTokenExpireAt: Option<Millis>,
    resetPasswordToken: Option<string>,
    resetPasswordExpireAt: Option<Millis>,
    lastLogin: Option<Millis>,
    token: Option<SessionToken>)

  /** `{ ...user._doc, password: undefined }` */
  function Sanitize(id: UserId, u: User): (p: PublicUser)
    ensures p.id == id && p.name == u.name && p.email == u.email && p.isVerified == u.isVerified
    ensures p.verificationToken == u.verificationToken && p.resetPasswordToken == u.resetPasswordToken
    ensures p.token.None?
  {
    PublicUser(id, u.name, u.email, u.isVerified, u.verificationToken, u.verificationTokenExpireAt,
      u.resetPasswordToken, u.resetPasswordExpireAt, u.lastLogin, None)
  }

  /** A handler's HTTP answer: status, `success`, `message`, the `user` object and the `access_token` cookie. */
  datatype Reply = Reply(status: nat, success: bool, message: string, user: Option<PublicUser>, cookie: Option<SessionToken>)

  function Failure(status: nat, message: string): (r: Reply)
    ensures r.status == status && !r.success && r.user.None? && r.cookie.None?
  {
    Reply(status, false, message, None, None)
  }

  /** The store after a handler, and its reply. */
  datatype Outcome = Outcome(users: seq<User>, reply: Reply)

  /** Set and cleared together: a secret has an expiry exactly when it is present. */
  predicate Paired(secret: Option<string>, expireAt: Option<Millis>) {
    secret.Some? <==> expireAt.Some?
  }

  /** Shaped like the decimal text of a six-digit code. */
  predicate IsCodeText(s: string) {
    |s| == 6 && AllDigits(s) && s[0] != '0'
  }

  /** Shaped like the hex text of 20 random bytes. */
  predicate IsResetTokenText(s: string) {
    |s| == 40 && forall i :: 0 <= i < |s| ==> IsHexChar(s[i])
  }

  lemma CodeTextShape(code: SixDigit)
    ensures IsCodeText(DecimalText(code)) && !IsResetTokenText(DecimalText(code))
  {
    SixDigitTextLength(code);
  }

  predicate RecordValid(u: User) {
    && u.name != "" && u.email != ""
    && Paired(u.verificationToken, u.verificationTokenExpireAt)
    && Paired(u.resetPasswordToken, u.resetPasswordExpireAt)
    && (u.verificationToken.Some? ==> IsCodeText(u.verificationToken.value))
    && (u.resetPasswordToken.Some? ==> IsCodeText(u.resetPasswordToken.value) || IsResetTokenText(u.resetPasswordToken.value))
    && (u.isVerified ==> u.verificationToken.None?)
  }

  /** What every handler keeps true of the store. */
  predicate StoreValid(users: seq<User>) {
    && (forall i :: 0 <= i < |users| ==> RecordValid(users[i]))
    && (forall i, j :: 0 <= i < j < |users| ==> users[i].email != users[j].email)
  }

  /**
   * What the model needs of bcrypt: a password verifies against a digest
   * made from it and against no digest made from another password.
   */
  ghost predicate HashScheme(hash: string -> Digest, verify: (string, Digest) -> bool) {
    forall p, q :: verify(p, hash(q)) <==> p == q
  }

  /** The `User` collection. */
  class UserStore {
    var users: seq<User>

    constructor()
      ensures users == []
    {
      users := [];
    }

    /** `new User(...).save()` */
    method Create(u: User) returns (id: UserId)
      modifies this
      ensures id == |old(users)| && users == old(users) + [u]
    {
      id := |users|;
      users := users + [u];
    }

    /** `user.save()` on a record fetched earlier. */
    method Save(id: UserId, u: User)
      requires id < |users|
      modifies this
      ensures users == old(users)[id := u]
    {
      users := users[id := u];
    }
  }
}

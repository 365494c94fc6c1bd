/**
 * The sign-in handlers of backend/controllers/authController.js, run against an
 * in-memory store standing in for the User and OTP collections. The clock, the
 * mailer's outcome, `validator.isEmail` and Google's token check are inputs.
 */
module Auth {
  import opened Wrappers
  import opened UserSchema
  import opened Otp
  import opened Session
  import Validators

  datatype Payload =
    | NoData
    | Pending(name: string, email: string)
    | Profile(id: UserId, name: string, email: string, avatar: Avatar)

  /** An HTTP response: status, message, `data`, and the cookie set with it. */
  datatype Reply = Reply(status: nat, message: string, data: Payload, cookie: Option<Cookie>)

  /** The code mail `sendOTPEmail` sends. */
  datatype Mail = Mail(to: string, subject: string, code: string)

  /** What Google's `verifyIdToken` yields for a token it accepts. */
  datatype Claim = Claim(email: string, name: string, picture: string)

  const MailSubject := "Your OTP for Notes App"

  function Failure(status: nat, message: string): Reply {
    Reply(status, message, NoData, None)
  }

  /** A reply that logs `u` in: its public profile and a session cookie for its id. */
  function LoggedIn(status: nat, message: string, u: User, production: bool): Reply {
    Reply(status, message, Profile(u.id, u.name, u.email, u.avatar), Some(SessionCookie(u.id, production)))
  }

  /** The fields `verifyOTP` passes to `User.create`. */
  function OtpUserFields(name: string, email: string): UserFields {
    UserFields(name, email, NoAvatar, None, Some(true))
  }

  /** The fields `googleLogin` passes to `User.create`. */
  function GoogleUserFields(c: Claim): UserFields {
    UserFields(c.name, c.email, Avatar(None, Some(c.picture)), Some("google"), Some(true))
  }

  /** `logout`: always 200, with a cookie after which the browser presents no session. */
  function Logout(): (reply: Reply)
    ensures reply.status == 200 && reply.cookie.Some? && reply.cookie.value.name == CookieName
    ensures forall setAt: nat, now: nat :: Presented(reply.cookie.value, setAt, now).None?
  {
    Reply(200, "Logged out successfully", NoData, Some(LogoutCookie()))
  }

  /**
   * Every stored user sits under its own lower-cased email, passes the schema and has
   * an id below the next fresh one, and no two users share an id.
   */
  ghost predicate UsersValid(users: map<string, User>, nextUserId: UserId) {
    && (forall e :: e in users ==> users[e].email == Lower(e) && ValidRecord(users[e]) && users[e].id < nextUserId)
    && (forall e, e' :: e in users && e' in users && e != e' ==> users[e].id != users[e'].id)
  }

  /** Storing a valid user under a new email with the next fresh id keeps the users valid. */
  lemma AddUserKeepsValid(users: map<string, User>, nextUserId: UserId, email: string, u: User)
    requires UsersValid(users, nextUserId) && email !in users
    requires u.email == Lower(email) && ValidRecord(u) && u.id == nextUserId
    ensures UsersValid(users[email := u], nextUserId + 1)
  {
  }

  class AuthStore {
    /** The User collection, by email. */
    var users: map<string, User>
    /** The OTP collection, in insertion order. */
    var otps: seq<OtpRecord>
    /** The next fresh user id. */
    var nextUserId: UserId
    /** `validator.isEmail` */
    const isEmail: string -> bool
    /** `process.env.NODE_ENV === 'production'` */
    const production: bool

    ghost predicate Valid()
      reads this
    {
      && UsersValid(users, nextUserId)
      && OnePerEmail(otps)
      && (forall i :: 0 <= i < |otps| ==> IsOtpCode(otps[i].code))
    }

    constructor (isEmail: string -> bool, production: bool)
      ensures Valid()
      ensures users == map[] && otps == [] && nextUserId == 0
      ensures this.isEmail == isEmail && this.production == production
    {
      users, otps, nextUserId := map[], [], 0;
      this.isEmail, this.production := isEmail, production;
    }

    /** `registerUser` */
    method RegisterUser(name: string, email: string, now: nat, delivered: bool) returns (reply: Reply, mail: Option<Mail>)
      requires Valid()
      modifies this`otps
      ensures Valid()
      ensures name == "" || email == "" ==>
        reply == Failure(400, "Please provide name and email") && otps == old(otps) && mail == None
      ensures name != "" && email != "" && !Validators.ValidName(name) ==>
        reply == Failure(400, "Name must be between 2 and 50 characters") && otps == old(otps) && mail == None
      ensures name != "" && email != "" && Validators.ValidName(name) && !isEmail(email) ==>
        reply == Failure(400, "Please provide a valid email") && otps == old(otps) && mail == None
      ensures email != "" && Validators.ValidName(name) && isEmail(email) ==>
        && mail.Some? && mail.value.to == email && mail.value.subject == MailSubject
        && IsOtpCode(mail.value.code)
        && otps == Issue(old(otps), OtpRecord(email, mail.value.code, now))
        && reply == (if !delivered then Failure(500, "Server error")
                     else if email in users then Reply(200, "User already exists, OTP sent for login", Pending(users[email].name, email), None)
                     else Reply(200, "OTP sent for registration", Pending(name, email), None))
    {
      if name == "" || email == "" {
        return Failure(400, "Please provide name and email"), None;
      }
      if !Validators.ValidName(name) {
        return Failure(400, "Name must be between 2 and 50 characters"), None;
      }
      if !isEmail(email) {
        return Failure(400, "Please provide a valid email"), None;
      }
      var userExists := if email in users then Some(users[email]) else None;
      var code := IssueOtp(email, now);
      mail := Some(Mail(email, MailSubject, code));
      if !delivered {
        return Failure(500, "Server error"), mail;
      }
      if userExists.Some? {
        reply := Reply(200, "User already exists, OTP sent for login", Pending(userExists.value.name, email), None);
      } else {
        reply := Reply(200, "OTP sent for registration", Pending(name, email), None);
      }
    }

    /** Draws a fresh code and makes it the only record for `email`: `OTP.deleteMany`, then `OTP.create`. */
    method IssueOtp(email: string, now: nat) returns (code: string)
      requires Valid()
      modifies this`otps
      ensures Valid()
      ensures IsOtpCode(code)
      ensures otps == Issue(old(otps), OtpRecord(email, code, now))
    {
      code := GenerateOtp();
      var rec := OtpRecord(email, code, now);
      IssueReplaces(otps, rec, email);
      IssuedCodesAreCodes(otps, rec);
      otps := Issue(otps, rec);
    }

    /** `verifyOTP` */
    method VerifyOtp(name: string, email: string, otp: string, now: nat) returns (reply: Reply)
      requires Valid()
      modifies this
      ensures Valid()
      ensures name == "" || email == "" || otp == "" ==>
        reply == Failure(400, "Please provide all fields") && unchanged(this)
      ensures name != "" && email != "" && otp != "" && email in old(users) ==>
        reply == LoggedIn(200, "User already exists, logged in successfully", old(users)[email], production)
        && unchanged(this)
      ensures name != "" && email != "" && otp != "" && email !in old(users) ==>
        match Newest(old(otps), email)
        case None => reply == Failure(400, "OTP not found or expired") && unchanged(this)
        case Some(rec) =>
          if rec.code != otp then reply == Failure(400, "Invalid OTP") && unchanged(this)
          else if Expired(rec, now) then reply == Failure(400, "OTP has expired") && unchanged(this)
          else otps == WithoutEmail(old(otps), email) && CreatedOrFailed(Create(OtpUserFields(name, email), old(nextUserId)), email, 201, "User registered successfully", reply)
    {
      if name == "" || email == "" || otp == "" {
        return Failure(400, "Please provide all fields");
      }
      if email in users {
        return LoggedIn(200, "User already exists, logged in successfully", users[email], production);
      }
      var otpRecord := Newest(otps, email);
      if otpRecord.None? {
        return Failure(400, "OTP not found or expired");
      }
      if otpRecord.value.code != otp {
        return Failure(400, "Invalid OTP");
      }
      if Expired(otpRecord.value, now) {
        return Failure(400, "OTP has expired");
      }
      DeletingKeepsCodes(otps, email);
      otps := WithoutEmail(otps, email);
      reply := CreateUser(OtpUserFields(name, email), 201, "User registered successfully");
    }

    /** `googleLogin`, with `claim` the outcome of Google's `verifyIdToken` for `token` (None: it threw). */
    method GoogleLogin(token: string, claim: Option<Claim>) returns (reply: Reply)
      requires Valid()
      modifies this
      ensures Valid()
      ensures token == "" ==> reply == Failure(400, "Google token is required") && unchanged(this)
      ensures token != "" && claim.None? ==> reply == Failure(500, "Server error") && unchanged(this)
      ensures token != "" && claim.Some? && claim.value.email in old(users) ==>
        reply == LoggedIn(200, "Login successful", old(users)[claim.value.email], production) && unchanged(this)
      ensures token != "" && claim.Some? && claim.value.email !in old(users) ==>
        otps == old(otps) && CreatedOrFailed(Create(GoogleUserFields(claim.value), old(nextUserId)), claim.value.email, 200, "Login successful", reply)
    {
      if token == "" {
        return Failure(400, "Google token is required");
      }
      if claim.None? {
        return Failure(500, "Server error");
      }
      var email := claim.value.email;
      if email in users {
        return LoggedIn(200, "Login successful", users[email], production);
      }
      reply := CreateUser(GoogleUserFields(claim.value), 200, "Login successful");
    }

    /**
     * The outcome of `User.create` for an email no user has: either the new user is
     * stored under the email and logged in, or creation failed, nothing is stored
     * and the catch-all answers 500.
     */
    twostate predicate CreatedOrFailed(created: Option<User>, email: string, status: nat, message: string, reply: Reply)
      reads this
    {
      match created
      case None => reply == Failure(500, "Server error") && users == old(users) && nextUserId == old(nextUserId)
      case Some(u) =>
        && users == old(users)[email := u]
        && nextUserId == old(nextUserId) + 1
        && reply == LoggedIn(status, message, u, production)
    }

    /** `User.create(fields)` followed by the login reply. */
    method CreateUser(fields: UserFields, status: nat, message: string) returns (reply: Reply)
      requires Valid() && fields.email !in users
      modifies this`users, this`nextUserId
      ensures Valid()
      ensures CreatedOrFailed(Create(fields, old(nextUserId)), fields.email, status, message, reply)
    {
      var created := Create(fields, nextUserId);
      if created.None? {
        return Failure(500, "Server error");
      }
      var u := created.value;
      AddUserKeepsValid(users, nextUserId, fields.email, u);
      users := users[fields.email := u];
      nextUserId := nextUserId + 1;
      reply := LoggedIn(status, message, u, production);
    }
  }

  /**
   * Registration, then verification with the mailed code within ten minutes: the user
   * is created verified and the email's codes are gone. A second verification, with
   * any code at all, takes the registered-user shortcut and logs in.
   */
  method RegisterThenVerify(store: AuthStore, name: string, email: string, now: nat, wait: nat, other: string)
    returns (first: Reply, second: Reply)
    requires store.Valid() && email !in store.users
    requires Validators.ValidName(name) && email != "" && store.isEmail(email) && EmailPattern(email)
    requires wait <= CodeLifetime && other != ""
    modifies store
    ensures store.Valid()
    ensures first.status == 201 && first.cookie.Some?
    ensures email in store.users && store.users[email].isVerified && store.users[email].authProvider == EmailProvider
    ensures ForEmail(store.otps, email) == []
    ensures second.status == 200 && second.cookie == first.cookie
  {
    var code := RegisterFresh(store, name, email, now);
    ghost var before := store.otps;
    first := store.VerifyOtp(name, email, code, now + wait);
    assert store.otps == WithoutEmail(before, email);
    AfterDeleteNoneLeft(before, email);
    ghost var u := store.users[email];
    second := store.VerifyOtp(name, email, other, now + wait);
    assert second == LoggedIn(200, "User already exists, logged in successfully", u, store.production);
  }

  /** Exactly ten minutes after registration the code is still accepted; one millisecond later it has expired. */
  method ExpiryBoundary(store: AuthStore, name: string, email: string, now: nat, late: bool) returns (reply: Reply)
    requires store.Valid() && email !in store.users
    requires Validators.ValidName(name) && email != "" && store.isEmail(email) && EmailPattern(email)
    modifies store
    ensures !late ==> reply.status == 201 && email in store.users
    ensures late ==> reply == Failure(400, "OTP has expired") && email !in store.users
  {
    var code := RegisterFresh(store, name, email, now);
    reply := store.VerifyOtp(name, email, code, now + CodeLifetime + (if late then 1 else 0));
  }

  /**
   * Registering twice supersedes the first code: verifying with it afterwards fails
   * with "Invalid OTP" unless the second draw happened to produce the same code.
   */
  method RegisterTwice(store: AuthStore, name: string, email: string, t1: nat, t2: nat)
    returns (firstCode: string, secondCode: string, reply: Reply)
    requires store.Valid() && email !in store.users
    requires Validators.ValidName(name) && email != "" && store.isEmail(email) && EmailPattern(email)
    modifies store
    ensures firstCode != secondCode ==> reply == Failure(400, "Invalid OTP") && email !in store.users
    ensures firstCode == secondCode ==> reply.status == 201 && email in store.users
  {
    firstCode := RegisterFresh(store, name, email, t1);
    secondCode := RegisterFresh(store, name, email, t2);
    reply := store.VerifyOtp(name, email, firstCode, t2);
  }

  /**
   * An address `validator.isEmail` accepts but the User schema's pattern refuses (a
   * four-letter final label such as `.info`): registration sends a code, verification
   * with it consumes the code and then fails with 500, and a retry finds no code.
   */
  method SchemaRefusalConsumesCode(store: AuthStore, name: string, email: string, now: nat)
    returns (first: Reply, retry: Reply)
    requires store.Valid() && email !in store.users
    requires Validators.ValidName(name) && email != "" && store.isEmail(email) && !EmailPattern(email)
    modifies store
    ensures first == Failure(500, "Server error") && email !in store.users
    ensures retry == Failure(400, "OTP not found or expired")
  {
    var code := RegisterFresh(store, name, email, now);
    ghost var before := store.otps;
    first := store.VerifyOtp(name, email, code, now);
    AfterDeleteNoneLeft(before, email);
    retry := store.VerifyOtp(name, email, code, now);
  }

  /** A successful `registerUser` call for an unregistered email, as the scenarios above begin. */
  method RegisterFresh(store: AuthStore, name: string, email: string, now: nat) returns (code: string)
    requires store.Valid() && email !in store.users
    requires Validators.ValidName(name) && email != "" && store.isEmail(email)
    modifies store
    ensures store.Valid() && store.users == old(store.users) && store.nextUserId == old(store.nextUserId)
    ensures IsOtpCode(code) && Newest(store.otps, email) == Some(OtpRecord(email, code, now))
  {
    var reply, mail := store.RegisterUser(name, email, now, true);
    code := mail.value.code;
    NewestAfterIssue(old(store.otps), OtpRecord(email, code, now));
  }

  /** After deleting an email's records, none is left for it. */
  lemma AfterDeleteNoneLeft(before: seq<OtpRecord>, email: string)
    ensures ForEmail(WithoutEmail(before, email), email) == []
    ensures Newest(WithoutEmail(before, email), email).None?
  {
    Seqs.FilterDropsAll(WithoutEmail(before, email), (r: OtpRecord) => r.email == email);
  }

  lemma IssuedCodesAreCodes(rs: seq<OtpRecord>, rec: OtpRecord)
    requires forall i :: 0 <= i < |rs| ==> IsOtpCode(rs[i].code)
    requires IsOtpCode(rec.code)
    ensures forall i :: 0 <= i < |Issue(rs, rec)| ==> IsOtpCode(Issue(rs, rec)[i].code)
  {
    var kept := WithoutEmail(rs, rec.email);
    forall i | 0 <= i < |kept| ensures IsOtpCode(kept[i].code) {
      assert kept[i] in rs;
    }
  }

  lemma DeletingKeepsCodes(rs: seq<OtpRecord>, email: string)
    requires OnePerEmail(rs)
    requires forall i :: 0 <= i < |rs| ==> IsOtpCode(rs[i].code)
    ensures OnePerEmail(WithoutEmail(rs, email))
    ensures forall i :: 0 <= i < |WithoutEmail(rs, email)| ==> IsOtpCode(WithoutEmail(rs, email)[i].code)
  {
    var kept := WithoutEmail(rs, email);
    FilterKeepsOnePerEmail(rs, (r: OtpRecord) => r.email != email);
    forall i | 0 <= i < |kept| ensures IsOtpCode(kept[i].code) {
      assert kept[i] in rs;
    }
  }
}

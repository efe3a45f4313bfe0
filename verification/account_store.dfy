/**
 * The mock account store: a registry of users plus two short-lived tables keyed
 * by email, pending one-time codes and password-reset tokens. Every operation is
 * a pure transition returning the reply and the store after the call.
 */
module AccountStore {
  import opened Wrappers
  import opened JsText
  import opened Validation
  import OtpHash
  import Radix

  datatype User = User(id: int, firstName: string, lastName: string, email: string,
                       password: string, role: string, createdAt: string)

  /** A user record with the password field removed: all the store ever hands out. */
  datatype PublicUser = PublicUser(id: int, firstName: string, lastName: string, email: string,
                                   role: string, createdAt: string)

  datatype OtpEntry = OtpEntry(otpHash: string, createdAt: nat, attempts: nat)

  datatype ResetToken = ResetToken(token: string, createdAt: nat)

  datatype Store = Store(users: seq<User>, otps: map<string, OtpEntry>, resetTokens: map<string, ResetToken>)

  datatype StoreError =
    | MissingFields
    | EmailTaken
    | InvalidEmail
    | PasswordTooShort
    | PasswordMissingClasses
    | EmailNotFound
    | WrongPassword
    | NoOtp
    | OtpExpired
    | TooManyAttempts
    | WrongOtp(remaining: int)
    | WrongOtpUncounted
    | InvalidResetRequest
    | UserNotFound

  /**
   * The property names every plain object `{}` inherits from `Object.prototype`. The two
   * tables are plain objects, so `table[name]` finds a truthy value for these names even
   * when the table has no entry of its own under that name.
   */
  const InheritedNames: set<string> := {
    "constructor", "__defineGetter__", "__defineSetter__", "hasOwnProperty", "__lookupGetter__",
    "__lookupSetter__", "isPrototypeOf", "propertyIsEnumerable", "toString", "valueOf",
    "__proto__", "toLocaleString"
  }

  /** `table[key]` is truthy: an entry of the table's own, or an inherited property. */
  predicate PropertyFound<V>(table: map<string, V>, key: string) {
    key in table || key in InheritedNames
  }

  /** The `{success, message}` reply: success carries the payload, failure the kind of message. */
  datatype Reply<T> = Ok(value: T) | Fail(error: StoreError)

  datatype Outcome<T> = Outcome(reply: Reply<T>, store: Store)

  /** Codes older than ten minutes are refused. */
  const OtpLifetimeMs: nat := 10 * 60 * 1000
  const MaxOtpAttempts: nat := 3
  /** `Math.floor(100000 + Math.random() * 900000)` lies in this range. */
  const MinOtp: int := 100000
  const MaxOtp: int := 999999

  /** The records the store starts with, including two that share id 1 and passwords the rule would refuse. */
  const Seed: Store := Store(
    [ User(1, "John", "Traveler", "traveler@bdrap.com", "traveller321", "public-traveler", "2025-01-01"),
      User(1, "Adnan", "Traveler", "tarekadnan67@gmail.com", "Adnan123", "public-traveler", "2025-01-01"),
      User(2, "Sarah", "Analyst", "analyst@bdrap.com", "anal321", "analyst", "2025-01-02"),
      User(3, "Admin", "BDRap", "admin@bdrap.com", "Admin@789", "admin", "2025-01-03") ],
    map[], map[])

  function Strip(u: User): PublicUser {
    PublicUser(u.id, u.firstName, u.lastName, u.email, u.role, u.createdAt)
  }

  predicate Registered(users: seq<User>, email: string) {
    exists i | 0 <= i < |users| :: users[i].email == email
  }

  /** `i` is the index `users.find(u => u.email === email)` lands on. */
  predicate FirstWith(users: seq<User>, email: string, i: int) {
    0 <= i < |users| && users[i].email == email && forall j | 0 <= j < i :: users[j].email != email
  }

  /** `users.find(u => u.email === email)`, as an index. */
  function FindUser(users: seq<User>, email: string): (r: Option<nat>)
    ensures r.Some? <==> Registered(users, email)
    ensures r.Some? ==> FirstWith(users, email, r.value)
  {
    if |users| == 0 then None
    else if users[0].email == email then Some(0)
    else
      match FindUser(users[1..], email)
      case None => None
      case Some(i) => assert users[1..][i] == users[i + 1]; Some(i + 1)
  }

  lemma FirstWithUnique(users: seq<User>, email: string, i: int, j: int)
    requires FirstWith(users, email, i) && FirstWith(users, email, j)
    ensures i == j
  {
  }

  // ----- login -----

  /** `loginUser`: reads the store and never changes it. */
  function Login(s: Store, email: string, password: string): (r: Reply<PublicUser>)
    ensures r == Fail(MissingFields) <==> email == "" || password == ""
    ensures r == Fail(EmailNotFound) <==> email != "" && password != "" && !Registered(s.users, email)
    ensures r.Ok? <==> email != "" && password != "" &&
                       exists i | FirstWith(s.users, email, i) :: s.users[i].password == password
    ensures r.Ok? ==> exists i | FirstWith(s.users, email, i) :: r.value == Strip(s.users[i])
    ensures r.Fail? ==> r.error in {MissingFields, EmailNotFound, WrongPassword}
  {
    if email == "" || password == "" then Fail(MissingFields)
    else
      match FindUser(s.users, email)
      case None => Fail(EmailNotFound)
      case Some(i) =>
        if s.users[i].password != password then Fail(WrongPassword) else Ok(Strip(s.users[i]))
  }

  // ----- sign-up -----

  datatype SignUpData = SignUpData(firstName: string, lastName: string, email: string, password: string, role: string)

  /** `!firstName || !lastName || !email || !password || !role` is false. */
  predicate AllPresent(d: SignUpData) {
    d.firstName != "" && d.lastName != "" && d.email != "" && d.password != "" && d.role != ""
  }

  /** `signUpUser`: checks run in a fixed order and only a fully valid request appends a user. */
  function SignUp(s: Store, d: SignUpData, today: string): (out: Outcome<PublicUser>)
    ensures out.reply.Fail? ==> out.store == s
    ensures out.reply == Fail(MissingFields) <==> !AllPresent(d)
    ensures out.reply == Fail(EmailTaken) <==> AllPresent(d) && Registered(s.users, d.email)
    ensures out.reply == Fail(InvalidEmail) <==>
              AllPresent(d) && !Registered(s.users, d.email) && !ValidEmail(d.email)
    ensures out.reply == Fail(PasswordTooShort) <==>
              AllPresent(d) && !Registered(s.users, d.email) && ValidEmail(d.email) && Length(d.password) < MinPasswordLength
    ensures out.reply == Fail(PasswordMissingClasses) <==>
              AllPresent(d) && !Registered(s.users, d.email) && ValidEmail(d.email)
              && Length(d.password) >= MinPasswordLength && !HasAllClasses(d.password)
    ensures out.reply.Ok? <==>
              AllPresent(d) && !Registered(s.users, d.email) && ValidEmail(d.email) && StrongPassword(d.password)
    ensures out.reply.Ok? ==>
              && |out.store.users| == |s.users| + 1
              && out.store.users[..|s.users|] == s.users
              && out.store.users[|s.users|]
                 == User(|s.users| + 1, d.firstName, d.lastName, d.email, d.password, d.role, today)
              && out.store.otps == s.otps && out.store.resetTokens == s.resetTokens
              && out.reply.value == Strip(out.store.users[|s.users|])
  {
    if !AllPresent(d) then Outcome(Fail(MissingFields), s)
    else if FindUser(s.users, d.email).Some? then Outcome(Fail(EmailTaken), s)
    else if !ValidEmail(d.email) then Outcome(Fail(InvalidEmail), s)
    else if Length(d.password) < MinPasswordLength then Outcome(Fail(PasswordTooShort), s)
    else if !HasAllClasses(d.password) then Outcome(Fail(PasswordMissingClasses), s)
    else
      var u := User(|s.users| + 1, d.firstName, d.lastName, d.email, d.password, d.role, today);
      assert (s.users + [u])[..|s.users|] == s.users;
      Outcome(Ok(Strip(u)), s.(users := s.users + [u]))
  }

  // ----- one-time codes -----

  /** `sendOTPForPasswordReset`; `code` is the random draw, `now` the clock. */
  function SendOtp(s: Store, email: string, code: int, now: nat): (out: Outcome<string>)
    requires MinOtp <= code <= MaxOtp
    ensures out.reply.Fail? ==> out.store == s
    ensures out.reply == Fail(MissingFields) <==> email == ""
    ensures out.reply == Fail(EmailNotFound) <==> email != "" && !Registered(s.users, email)
    ensures out.reply.Ok? <==> email != "" && Registered(s.users, email)
    ensures out.reply.Ok? ==> OtpHash.IsNumeral(out.reply.value, 6) && DigitsValue(out.reply.value, 10) == code
    ensures out.reply.Ok? ==>
              out.store == s.(otps := s.otps[email := OtpEntry(OtpHash.HashOtp(out.reply.value), now, 0)])
  {
    if email == "" then Outcome(Fail(MissingFields), s)
    else if FindUser(s.users, email).None? then Outcome(Fail(EmailNotFound), s)
    else
      var otp := Radix.Render(code, 10);
      Radix.SixDigitCode(code);
      Radix.RenderRoundTrip(code, 10);
      Outcome(Ok(otp), s.(otps := s.otps[email := OtpEntry(OtpHash.HashOtp(otp), now, 0)]))
  }

  /** More than ten minutes have passed since the code was issued. */
  predicate Expired(e: OtpEntry, now: nat) {
    now - e.createdAt > OtpLifetimeMs
  }

  /**
   * `verifyOTP`; `token` is the random reset token a success stores. An inherited property
   * found in place of an entry has no creation time, attempt count or digest: the age and
   * attempt tests compare `NaN` and `undefined` and fail, the digest differs, and the reply
   * reports `NaN` attempts remaining; the increment lands on the inherited object, outside
   * both tables.
   */
  function VerifyOtp(s: Store, email: string, otp: string, now: nat, token: string): (out: Outcome<()>)
    ensures out.store.users == s.users
    ensures email == "" || otp == "" ==> out == Outcome(Fail(MissingFields), s)
    ensures email != "" && otp != "" && !PropertyFound(s.otps, email) ==> out == Outcome(Fail(NoOtp), s)
    ensures email != "" && otp != "" && email !in s.otps && email in InheritedNames ==>
              out == Outcome(Fail(WrongOtpUncounted), s)
    ensures email != "" && otp != "" && email in s.otps && Expired(s.otps[email], now) ==>
              out == Outcome(Fail(OtpExpired), s.(otps := s.otps - {email}))
    ensures email != "" && otp != "" && email in s.otps && !Expired(s.otps[email], now)
            && s.otps[email].attempts >= MaxOtpAttempts ==>
              out == Outcome(Fail(TooManyAttempts), s.(otps := s.otps - {email}))
    ensures email != "" && otp != "" && email in s.otps && !Expired(s.otps[email], now)
            && s.otps[email].attempts < MaxOtpAttempts && OtpHash.HashOtp(otp) != s.otps[email].otpHash ==>
              var e := s.otps[email];
              out == Outcome(Fail(WrongOtp(MaxOtpAttempts - (e.attempts + 1))),
                             s.(otps := s.otps[email := e.(attempts := e.attempts + 1)]))
    ensures out.reply.Ok? <==>
              email != "" && otp != "" && email in s.otps && !Expired(s.otps[email], now)
              && s.otps[email].attempts < MaxOtpAttempts && OtpHash.HashOtp(otp) == s.otps[email].otpHash
    ensures out.reply.Ok? ==>
              out.store == Store(s.users, s.otps - {email}, s.resetTokens[email := ResetToken(token, now)])
  {
    if email == "" || otp == "" then Outcome(Fail(MissingFields), s)
    else if email !in s.otps then
      if email in InheritedNames then Outcome(Fail(WrongOtpUncounted), s) else Outcome(Fail(NoOtp), s)
    else
      var e := s.otps[email];
      if Expired(e, now) then Outcome(Fail(OtpExpired), s.(otps := s.otps - {email}))
      else if e.attempts >= MaxOtpAttempts then Outcome(Fail(TooManyAttempts), s.(otps := s.otps - {email}))
      else if OtpHash.HashOtp(otp) != e.otpHash then
        var e' := e.(attempts := e.attempts + 1);
        Outcome(Fail(WrongOtp(MaxOtpAttempts - e'.attempts)), s.(otps := s.otps[email := e']))
      else
        Outcome(Ok(()), Store(s.users, s.otps - {email}, s.resetTokens[email := ResetToken(token, now)]))
  }

  // ----- password reset -----

  /**
   * `resetPassword`: needs a truthy token lookup, a user and a strong password; consumes the
   * token (deleting a name the table does not own changes nothing).
   */
  function ResetPassword(s: Store, email: string, newPassword: string): (out: Outcome<()>)
    ensures out.reply.Fail? ==> out.store == s
    ensures out.reply == Fail(MissingFields) <==> email == "" || newPassword == ""
    ensures out.reply == Fail(InvalidResetRequest) <==>
              email != "" && newPassword != "" && !PropertyFound(s.resetTokens, email)
    ensures out.reply == Fail(UserNotFound) <==>
              email != "" && newPassword != "" && PropertyFound(s.resetTokens, email) && !Registered(s.users, email)
    ensures out.reply == Fail(PasswordTooShort) <==>
              email != "" && newPassword != "" && PropertyFound(s.resetTokens, email) && Registered(s.users, email)
              && Length(newPassword) < MinPasswordLength
    ensures out.reply == Fail(PasswordMissingClasses) <==>
              email != "" && newPassword != "" && PropertyFound(s.resetTokens, email) && Registered(s.users, email)
              && Length(newPassword) >= MinPasswordLength && !HasAllClasses(newPassword)
    ensures out.reply.Ok? <==>
              email != "" && newPassword != "" && PropertyFound(s.resetTokens, email) && Registered(s.users, email)
              && StrongPassword(newPassword)
    ensures out.reply.Ok? ==>
              exists i | FirstWith(s.users, email, i) ::
                out.store == Store(s.users[i := s.users[i].(password := newPassword)], s.otps, s.resetTokens - {email})
  {
    if email == "" || newPassword == "" then Outcome(Fail(MissingFields), s)
    else if !PropertyFound(s.resetTokens, email) then Outcome(Fail(InvalidResetRequest), s)
    else
      match FindUser(s.users, email)
      case None => Outcome(Fail(UserNotFound), s)
      case Some(i) =>
        if Length(newPassword) < MinPasswordLength then Outcome(Fail(PasswordTooShort), s)
        else if !HasAllClasses(newPassword) then Outcome(Fail(PasswordMissingClasses), s)
        else
          Outcome(Ok(()), Store(s.users[i := s.users[i].(password := newPassword)], s.otps, s.resetTokens - {email}))
  }

  // ----- read accessors -----

  function StripAll(users: seq<User>): (r: seq<PublicUser>)
    ensures |r| == |users|
    ensures forall i | 0 <= i < |users| :: r[i] == Strip(users[i])
  {
    if |users| == 0 then [] else [Strip(users[0])] + StripAll(users[1..])
  }

  /** `getAllUsers`: every record, in order, without its password. */
  function AllUsers(s: Store): (r: seq<PublicUser>)
    ensures |r| == |s.users|
    ensures forall i | 0 <= i < |r| :: r[i] == PublicUser(s.users[i].id, s.users[i].firstName, s.users[i].lastName,
                                                     s.users[i].email, s.users[i].role, s.users[i].createdAt)
  {
    StripAll(s.users)
  }

  /** `getUserByEmail`: the first record with that email, without its password. */
  function UserByEmail(s: Store, email: string): (r: Option<PublicUser>)
    ensures r.None? <==> !Registered(s.users, email)
    ensures r.Some? ==> exists i | FirstWith(s.users, email, i) :: r.value == AllUsers(s)[i]
  {
    match FindUser(s.users, email)
    case None => None
    case Some(i) => Some(Strip(s.users[i]))
  }

  /** `users.some(u => u.email === email)`. */
  function AnyWithEmail(users: seq<User>, email: string): (b: bool)
    ensures b <==> Registered(users, email)
  {
    if |users| == 0 then false
    else if users[0].email == email then true
    else
      var b := AnyWithEmail(users[1..], email);
      assert b ==> exists i | 0 <= i < |users| :: users[i].email == email by {
        if b {
          var i :| 0 <= i < |users[1..]| && users[1..][i].email == email;
          assert users[i + 1].email == email;
        }
      }
      b
  }

  /** `emailExists`. */
  function EmailExists(s: Store, email: string): (b: bool)
    ensures b <==> UserByEmail(s, email).Some?
  {
    AnyWithEmail(s.users, email)
  }
}

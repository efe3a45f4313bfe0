/**
 * Properties of sequences of store operations: sign-up then log-in, the one-time
 * code round trip and its three-strike limit, reset then log-in, and the
 * invariant every operation keeps.
 */
module AccountFlows {
  import opened JsText
  import opened Validation
  import opened AccountStore
  import OtpHash

  /** After a successful sign-up the email is taken, the new credentials log in and a second sign-up is refused. */
  lemma SignUpThenLogin(s: Store, d: SignUpData, today: string, later: string)
    requires SignUp(s, d, today).reply.Ok?
    ensures var s' := SignUp(s, d, today).store;
            && Login(s', d.email, d.password) == SignUp(s, d, today).reply
            && EmailExists(s', d.email)
            && SignUp(s', d, later) == Outcome(Fail(EmailTaken), s')
  {
    var s' := SignUp(s, d, today).store;
    var n := |s.users|;
    assert FirstWith(s'.users, d.email, n) by {
      forall j | 0 <= j < n ensures s'.users[j].email != d.email {
        assert s'.users[j] == s.users[j];
      }
    }
  }

  /**
   * Issuing a code and entering it within ten minutes succeeds once; the entry is then gone,
   * and a second entry finds no code (or, under an inherited name, the inherited property).
   */
  lemma OtpRoundTrip(s: Store, email: string, code: int, issuedAt: nat, now: nat, token: string,
                     later: nat, token': string)
    requires MinOtp <= code <= MaxOtp
    requires SendOtp(s, email, code, issuedAt).reply.Ok?
    requires now - issuedAt <= OtpLifetimeMs
    ensures var sent := SendOtp(s, email, code, issuedAt);
            var verified := VerifyOtp(sent.store, email, sent.reply.value, now, token);
            && verified.reply == Ok(())
            && verified.store.resetTokens[email] == ResetToken(token, now)
            && email !in verified.store.otps
            && VerifyOtp(verified.store, email, sent.reply.value, later, token').reply
               == Fail(if email in InheritedNames then WrongOtpUncounted else NoOtp)
  {
  }

  /** Any other six-digit code costs one attempt and leaves two. */
  lemma WrongCodeCostsAnAttempt(s: Store, email: string, code: int, issuedAt: nat, guess: string, now: nat, token: string)
    requires MinOtp <= code <= MaxOtp
    requires SendOtp(s, email, code, issuedAt).reply.Ok?
    requires OtpHash.IsNumeral(guess, 6) && guess != SendOtp(s, email, code, issuedAt).reply.value
    requires now - issuedAt <= OtpLifetimeMs
    ensures var sent := SendOtp(s, email, code, issuedAt);
            var v := VerifyOtp(sent.store, email, guess, now, token);
            && v.reply == Fail(WrongOtp(2))
            && email in v.store.otps && v.store.otps[email].attempts == 1
            && v.store.resetTokens == s.resetTokens
  {
    var otp := SendOtp(s, email, code, issuedAt).reply.value;
    OtpHash.NumeralDigestsDistinct(guess, otp);
  }

  /**
   * Three wrong entries exhaust a fresh code: the next entry is refused before its
   * digest is compared, even when it is the right code, and the entry is deleted.
   */
  lemma ThreeStrikes(s: Store, email: string, code: int, issuedAt: nat,
                     g1: string, g2: string, g3: string, g4: string,
                     t1: nat, t2: nat, t3: nat, t4: nat, token: string)
    requires MinOtp <= code <= MaxOtp
    requires SendOtp(s, email, code, issuedAt).reply.Ok?
    requires g1 != "" && g2 != "" && g3 != "" && g4 != ""
    requires forall g | g in [g1, g2, g3] ::
               OtpHash.HashOtp(g) != OtpHash.HashOtp(SendOtp(s, email, code, issuedAt).reply.value)
    requires t1 - issuedAt <= OtpLifetimeMs && t2 - issuedAt <= OtpLifetimeMs
    requires t3 - issuedAt <= OtpLifetimeMs && t4 - issuedAt <= OtpLifetimeMs
    ensures var s0 := SendOtp(s, email, code, issuedAt).store;
            var v1 := VerifyOtp(s0, email, g1, t1, token);
            var v2 := VerifyOtp(v1.store, email, g2, t2, token);
            var v3 := VerifyOtp(v2.store, email, g3, t3, token);
            var v4 := VerifyOtp(v3.store, email, g4, t4, token);
            && v1.reply == Fail(WrongOtp(2)) && v2.reply == Fail(WrongOtp(1)) && v3.reply == Fail(WrongOtp(0))
            && v4.reply == Fail(TooManyAttempts)
            && email !in v4.store.otps
            && v4.store.resetTokens == s.resetTokens
  {
    var sent := SendOtp(s, email, code, issuedAt);
    var s0 := sent.store;
    var h := OtpHash.HashOtp(sent.reply.value);
    assert s0.otps[email] == OtpEntry(h, issuedAt, 0);
    assert g1 in [g1, g2, g3] && g2 in [g1, g2, g3] && g3 in [g1, g2, g3];
    var v1 := VerifyOtp(s0, email, g1, t1, token);
    WrongEntry(s0, email, g1, t1, token);
    var v2 := VerifyOtp(v1.store, email, g2, t2, token);
    WrongEntry(v1.store, email, g2, t2, token);
    var v3 := VerifyOtp(v2.store, email, g3, t3, token);
    WrongEntry(v2.store, email, g3, t3, token);
    assert v3.store.otps[email] == OtpEntry(h, issuedAt, 3);
    var v4 := VerifyOtp(v3.store, email, g4, t4, token);
    assert v4 == Outcome(Fail(TooManyAttempts), v3.store.(otps := v3.store.otps - {email}));
    assert v3.store.resetTokens == s.resetTokens;
  }

  /** One wrong entry on a live code: one more failure recorded, nothing else changes. */
  lemma WrongEntry(s: Store, email: string, g: string, t: nat, token: string)
    requires email != "" && g != "" && email in s.otps
    requires !Expired(s.otps[email], t) && s.otps[email].attempts < MaxOtpAttempts
    requires OtpHash.HashOtp(g) != s.otps[email].otpHash
    ensures var v := VerifyOtp(s, email, g, t, token);
            && v.reply == Fail(WrongOtp(MaxOtpAttempts - (s.otps[email].attempts + 1)))
            && email in v.store.otps
            && v.store.otps[email] == s.otps[email].(attempts := s.otps[email].attempts + 1)
            && v.store.resetTokens == s.resetTokens
  {
  }

  /**
   * A successful reset makes the new password the one that logs in and uses up the token,
   * so a second reset is refused unless the lookup finds an inherited property instead.
   */
  lemma ResetThenLogin(s: Store, email: string, newPassword: string, again: string)
    requires ResetPassword(s, email, newPassword).reply.Ok?
    ensures var s' := ResetPassword(s, email, newPassword).store;
            && Login(s', email, newPassword).Ok?
            && email !in s'.resetTokens
            && (email !in InheritedNames ==> ResetPassword(s', email, again).reply.Fail?)
  {
    var s' := ResetPassword(s, email, newPassword).store;
    var i :| FirstWith(s.users, email, i) && s'.users == s.users[i := s.users[i].(password := newPassword)];
    assert FirstWith(s'.users, email, i);
    if again != "" && email !in InheritedNames {
      assert ResetPassword(s', email, again).reply == Fail(InvalidResetRequest);
    }
  }

  // ----- the store invariant -----

  /** Every pending code has at most three recorded failures, and codes and tokens belong to registered emails. */
  predicate Valid(s: Store) {
    && (forall e | e in s.otps :: s.otps[e].attempts <= MaxOtpAttempts && Registered(s.users, e))
    && (forall e | e in s.resetTokens :: Registered(s.users, e))
  }

  datatype Request =
    | LoginRequest(email: string, password: string)
    | SignUpRequest(data: SignUpData, today: string)
    | OtpRequest(email: string, code: int, now: nat)
    | VerifyRequest(email: string, otp: string, now: nat, token: string)
    | ResetRequest(email: string, password: string)
    | ReadRequest

  /** The store after one call; reads, lookups and log-ins leave it as it was. */
  function Apply(s: Store, r: Request): Store
    requires r.OtpRequest? ==> MinOtp <= r.code <= MaxOtp
  {
    match r
    case LoginRequest(_, _) => s
    case SignUpRequest(d, today) => SignUp(s, d, today).store
    case OtpRequest(email, code, now) => SendOtp(s, email, code, now).store
    case VerifyRequest(email, otp, now, token) => VerifyOtp(s, email, otp, now, token).store
    case ResetRequest(email, password) => ResetPassword(s, email, password).store
    case ReadRequest => s
  }

  lemma SeedValid()
    ensures Valid(Seed)
  {
  }

  /** Users are never removed and their emails never change, so a registered email stays registered. */
  lemma RegisteredKept(s: Store, r: Request, e: string)
    requires r.OtpRequest? ==> MinOtp <= r.code <= MaxOtp
    ensures |Apply(s, r).users| >= |s.users|
    ensures forall i | 0 <= i < |s.users| :: Apply(s, r).users[i].email == s.users[i].email
    ensures Registered(s.users, e) ==> Registered(Apply(s, r).users, e)
  {
    var u := Apply(s, r).users;
    if r.SignUpRequest? && SignUp(s, r.data, r.today).reply.Ok? {
      forall i | 0 <= i < |s.users| ensures u[i].email == s.users[i].email {
        assert u[i] == u[..|s.users|][i];
      }
    }
    if Registered(s.users, e) {
      var i: int :| 0 <= i < |s.users| && s.users[i].email == e;
      assert u[i].email == e;
    }
  }

  lemma {:induction false} ApplyKeepsValid(s: Store, r: Request)
    requires r.OtpRequest? ==> MinOtp <= r.code <= MaxOtp
    requires Valid(s)
    ensures Valid(Apply(s, r))
  {
    var s' := Apply(s, r);
    forall e | e in s'.otps ensures s'.otps[e].attempts <= MaxOtpAttempts && Registered(s'.users, e) {
      if r.OtpRequest? && e == r.email && SendOtp(s, r.email, r.code, r.now).reply.Ok? {
        assert Registered(s.users, e);
      } else {
        assert e in s.otps;
      }
      RegisteredKept(s, r, e);
    }
    forall e | e in s'.resetTokens ensures Registered(s'.users, e) {
      if !(e in s.resetTokens) {
        assert r.VerifyRequest? && e == r.email && e in s.otps;
      }
      RegisteredKept(s, r, e);
    }
  }

  /**
   * In a valid store a token of the table's own implies the user exists, so a reset fails
   * for want of a user only when the lookup found an inherited property.
   */
  lemma ResetNeverMissesUser(s: Store, email: string, newPassword: string)
    requires Valid(s)
    ensures ResetPassword(s, email, newPassword).reply == Fail(UserNotFound) ==> email in InheritedNames
  {
  }

  /** From the seed, a reset under the name `toString` passes the token test and reaches "User not found". */
  lemma InheritedNameReachesUserNotFound()
    ensures Valid(Seed)
    ensures ResetPassword(Seed, "toString", "GoodPass1").reply == Fail(UserNotFound)
  {
    assert !Registered(Seed.users, "toString") by {
      forall i | 0 <= i < |Seed.users| ensures Seed.users[i].email != "toString" {
        assert '@' in Seed.users[i].email;
      }
    }
  }

  /** A code entered under the name `toString` is compared with an inherited property and refused. */
  lemma InheritedNameCodeRefused(now: nat, token: string)
    ensures VerifyOtp(Seed, "toString", "123456", now, token) == Outcome(Fail(WrongOtpUncounted), Seed)
  {
  }

  // ----- the seed data -----

  /** The seed breaks id uniqueness and holds passwords the rule refuses, yet those accounts log in. */
  lemma SeedQuirks()
    ensures Seed.users[0].id == Seed.users[1].id
    ensures !StrongPassword(Seed.users[2].password)
    ensures Login(Seed, "analyst@bdrap.com", "anal321").Ok?
  {
    CodeUnitsOfBmp("anal321");
    assert FirstWith(Seed.users, "analyst@bdrap.com", 2);
  }
}

/** The authentication routes of server/index.js (`/send-otp`, `/verify-otp`,
    `/signup`, `/forgot-password`, `/reset-password`, `/login`) as pure
    transitions over two stores: one-time codes keyed by e-mail and users
    keyed by e-mail. The clock, the random draw, the database and mail
    outcomes, the bcrypt hash and its comparison, and the signed session
    token are all parameters. */
module AuthServer {
  import opened Seqs
  import Text
  import Otp

  /** `OTP_EXPIRATION_MINUTES`, and the same window in milliseconds. */
  const OTP_EXPIRATION_MINUTES: nat := 10
  const OTP_TTL_MS: nat := OTP_EXPIRATION_MINUTES * 60 * 1000
  /** A reset token is stamped to expire one hour after it is issued. */
  const RESET_TOKEN_TTL_MS: nat := 3600000
  const RESET_LINK_PREFIX: string := "http://localhost:5173/reset-password/"

  datatype OtpRecord = OtpRecord(code: string, createdAt: int)

  datatype UserRecord = UserRecord(passwordHash: string, resetToken: Option<string>, resetTokenExpiry: Option<int>)

  datatype Store = Store(otps: map<string, OtpRecord>, users: map<string, UserRecord>)

  /** The JSON bodies the routes answer with. */
  datatype Body =
    | Message(success: bool, message: string)   // { success, message }
    | Notice(message: string)                    // { message }, as `/forgot-password` answers
    | Session(token: string, email: string)      // the `/login` success body

  datatype Reply = Reply(status: nat, body: Body)

  /** A message handed to the mail transporter. */
  datatype Mail = Mail(to: string, subject: string, body: MailBody)

  /** The nodemailer `text:` or `html:` option, whichever the route sets. */
  datatype MailBody = PlainText(content: string) | Html(content: string)

  /** The store after the request, the reply, and the mail the request tried to send. */
  datatype Outcome = Outcome(store: Store, reply: Reply, mail: Option<Mail>)

  function Fail(status: nat, message: string): Reply {
    Reply(status, Message(false, message))
  }

  /** The One-Time-Code schema lower-cases and trims `email` on every write and lookup. */
  function OtpKey(email: string): string {
    Text.Normalize(email)
  }

  /** `otpAgeMinutes > OTP_EXPIRATION_MINUTES`, with the age in whole milliseconds. */
  predicate Expired(rec: OtpRecord, now: int) {
    now - rec.createdAt > OTP_TTL_MS
  }

  // ---------------------------------------------------------------- /send-otp

  /** `/send-otp`: upsert a fresh code for the e-mail, then try to mail it. */
  function SendOtp(s: Store, email: string, draw: Otp.Draw, now: int, dbOk: bool, mailOk: bool): (o: Outcome)
    requires Otp.ValidDraw(draw)
    ensures email == "" ==> o == Outcome(s, Fail(400, "Email is required"), None)
    ensures email != "" && !dbOk ==> o == Outcome(s, Fail(500, "Server error"), None)
    ensures email != "" && dbOk ==>
      && OtpKey(email) in o.store.otps
      && o.store.otps[OtpKey(email)] == OtpRecord(Otp.GenerateOtp(draw), now)
      && o.store.users == s.users
      && o.mail == Some(Mail(email, "Your OTP for Signup", PlainText("Your OTP is: " + Otp.GenerateOtp(draw))))
    ensures forall e :: e != OtpKey(email) ==> (e in o.store.otps <==> e in s.otps)
    ensures forall e :: e != OtpKey(email) && e in s.otps ==> o.store.otps[e] == s.otps[e]
    ensures o.reply.status == 200 <==> email != "" && dbOk && mailOk
    ensures email != "" && dbOk && !mailOk ==> o.reply == Fail(500, "Failed to send OTP email")
  {
    if email == "" then
      Outcome(s, Fail(400, "Email is required"), None)
    else
      var code := Otp.GenerateOtp(draw);
      if !dbOk then
        Outcome(s, Fail(500, "Server error"), None)
      else
        var s' := s.(otps := s.otps[OtpKey(email) := OtpRecord(code, now)]);
        var mail := Mail(email, "Your OTP for Signup", PlainText("Your OTP is: " + code));
        if mailOk then Outcome(s', Reply(200, Message(true, "OTP sent successfully")), Some(mail))
        else Outcome(s', Fail(500, "Failed to send OTP email"), Some(mail))
  }

  // -------------------------------------------------------------- /verify-otp

  /** `/verify-otp`. It only reads the store, so its result is just the reply. */
  function VerifyOtp(s: Store, email: string, code: string, now: int, dbOk: bool): (r: Reply)
    ensures email == "" || code == "" ==> r == Fail(400, "Email and OTP required")
    ensures email != "" && code != "" && !dbOk ==> r == Fail(500, "Server error")
    ensures (email != "" && code != "" && dbOk && (OtpKey(email) !in s.otps || s.otps[OtpKey(email)].code != code))
              ==> r == Fail(400, "Incorrect or expired OTP")
    ensures (email != "" && code != "" && dbOk && OtpKey(email) in s.otps && s.otps[OtpKey(email)].code == code
              && Expired(s.otps[OtpKey(email)], now)) ==> r == Fail(400, "OTP expired")
    ensures r.status == 200 <==>
              && email != "" && code != "" && dbOk
              && OtpKey(email) in s.otps
              && s.otps[OtpKey(email)].code == code
              && !Expired(s.otps[OtpKey(email)], now)
    ensures r.status == 200 ==> r == Reply(200, Message(true, "OTP verified successfully"))
  {
    if email == "" || code == "" then Fail(400, "Email and OTP required")
    else if !dbOk then Fail(500, "Server error")
    else
      var key := OtpKey(email);
      if key !in s.otps || s.otps[key].code != code then Fail(400, "Incorrect or expired OTP")
      else if Expired(s.otps[key], now) then Fail(400, "OTP expired")
      else Reply(200, Message(true, "OTP verified successfully"))
  }

  // ------------------------------------------------------------------ /signup

  /** `/signup`; `hashed` is what `bcrypt.hash(password, 10)` produced. */
  function Signup(s: Store, email: string, password: string, confirmPassword: string, hashed: string, dbOk: bool): (o: Outcome)
    ensures o.mail == None && o.store.otps == s.otps
    ensures o.reply.status == 201 <==>
              email != "" && password != "" && confirmPassword != "" && password == confirmPassword
              && dbOk && email !in s.users
    ensures o.reply.status == 201 ==>
              && o.store.users.Keys == s.users.Keys + {email}
              && |o.store.users| == |s.users| + 1
              && o.store.users[email] == UserRecord(hashed, None, None)
              && (forall e :: e in s.users ==> o.store.users[e] == s.users[e])
    ensures o.reply.status != 201 ==> o.store == s
    ensures email == "" || password == "" || confirmPassword == "" ==> o.reply == Fail(400, "All fields are required")
    ensures (email != "" && password != "" && confirmPassword != "" && password != confirmPassword)
              ==> o.reply == Fail(400, "Passwords do not match")
  {
    if email == "" || password == "" || confirmPassword == "" then
      Outcome(s, Fail(400, "All fields are required"), None)
    else if password != confirmPassword then
      Outcome(s, Fail(400, "Passwords do not match"), None)
    else if !dbOk then
      Outcome(s, Fail(500, "Server error"), None)
    else if email in s.users then
      Outcome(s, Fail(400, "User already exists"), None)
    else
      Outcome(s.(users := s.users[email := UserRecord(hashed, None, None)]),
              Reply(201, Message(true, "User created successfully")), None)
  }

  // --------------------------------------------------------- /forgot-password

  /** `/forgot-password`; `token` is the `Math.random().toString(36)` draw. */
  function ForgotPassword(s: Store, email: string, token: string, now: int, dbOk: bool, mailOk: bool): (o: Outcome)
    ensures o.store.otps == s.otps
    ensures o.store.users.Keys == s.users.Keys
    ensures email == "" ==> o == Outcome(s, Fail(400, "Email is required"), None)
    ensures email != "" && dbOk && email !in s.users ==> o == Outcome(s, Fail(400, "No user with that email"), None)
    ensures o.store != s ==> email != "" && dbOk && email in s.users
    ensures email != "" && dbOk && email in s.users ==>
              && o.store.users[email].passwordHash == s.users[email].passwordHash
              && o.store.users[email].resetToken == Some(token)
              && o.store.users[email].resetTokenExpiry == Some(now + RESET_TOKEN_TTL_MS)
              && (forall e :: e in s.users && e != email ==> o.store.users[e] == s.users[e])
              && o.mail.Some? && o.mail.value.to == email
              && o.mail.value.body == Html("<p>Click <a href=\"" + RESET_LINK_PREFIX + token + "\">here</a> to reset your password.</p>")
              && o.reply == (if mailOk then Reply(200, Notice("Reset link sent to email."))
                             else Reply(500, Notice("Failed to send reset link")))
  {
    if email == "" then
      Outcome(s, Fail(400, "Email is required"), None)
    else if !dbOk then
      Outcome(s, Reply(500, Notice("Something went wrong")), None)
    else if email !in s.users then
      Outcome(s, Fail(400, "No user with that email"), None)
    else
      var user := s.users[email].(resetToken := Some(token), resetTokenExpiry := Some(now + RESET_TOKEN_TTL_MS));
      var s' := s.(users := s.users[email := user]);
      var mail := Mail(email, "Password Reset", Html("<p>Click <a href=\"" + RESET_LINK_PREFIX + token + "\">here</a> to reset your password.</p>"));
      if mailOk then Outcome(s', Reply(200, Notice("Reset link sent to email.")), Some(mail))
      else Outcome(s', Reply(500, Notice("Failed to send reset link")), Some(mail))
  }

  // ---------------------------------------------------------- /reset-password

  /** `/reset-password` as written: past the input check it looks up an
      undefined `ResetToken` model, so every well-formed request ends in the
      catch block and nothing is written. */
  function ResetPassword(s: Store, token: string, newPassword: string): (o: Outcome)
    ensures o.store == s && o.mail == None
    ensures o.reply.status == 400 <==> token == "" || newPassword == ""
    ensures token != "" && newPassword != "" ==> o.reply == Fail(500, "Failed to reset password")
  {
    if token == "" || newPassword == "" then Outcome(s, Fail(400, "Token and new password required"), None)
    else Outcome(s, Fail(500, "Failed to reset password"), None)
  }

  // ------------------------------------------------------------------- /login

  /** `/login`; `matches(password, hash)` stands for `bcrypt.compare` and
      `sessionToken` for the `jwt.sign` result. */
  function Login(s: Store, email: string, password: string, matches: (string, string) -> bool,
                 sessionToken: string, dbOk: bool): (r: Reply)
    ensures email == "" || password == "" ==> r == Fail(400, "Email and password required")
    ensures (email != "" && password != "" && dbOk && (email !in s.users || !matches(password, s.users[email].passwordHash)))
              ==> r == Fail(401, "Invalid credentials")
    ensures r.status == 200 <==>
              email != "" && password != "" && dbOk && email in s.users && matches(password, s.users[email].passwordHash)
    ensures r.status == 200 ==> r.body == Session(sessionToken, email)
  {
    if email == "" || password == "" then Fail(400, "Email and password required")
    else if !dbOk then Fail(500, "Server error")
    else if email !in s.users then Fail(401, "Invalid credentials")
    else if !matches(password, s.users[email].passwordHash) then Fail(401, "Invalid credentials")
    else Reply(200, Session(sessionToken, email))
  }

  // ------------------------------------------------------------ properties

  /** A code just sent verifies, through any spelling of the same address,
      until ten minutes have passed, whether or not the mail went out. */
  lemma SendThenVerify(s: Store, email: string, email': string, draw: Otp.Draw, now: int, mailOk: bool, later: int)
    requires Otp.ValidDraw(draw)
    requires email != "" && email' != ""
    requires later - now <= OTP_TTL_MS
    ensures OtpKey(email') == OtpKey(email) ==>
              VerifyOtp(SendOtp(s, email, draw, now, true, mailOk).store, email', Otp.GenerateOtp(draw), later, true).status == 200
  {
  }

  /** After ten minutes the same code is refused as expired. */
  lemma SendThenVerifyTooLate(s: Store, email: string, draw: Otp.Draw, now: int, mailOk: bool, later: int)
    requires Otp.ValidDraw(draw)
    requires email != ""
    requires later - now > OTP_TTL_MS
    ensures VerifyOtp(SendOtp(s, email, draw, now, true, mailOk).store, email, Otp.GenerateOtp(draw), later, true)
            == Fail(400, "OTP expired")
  {
  }

  /** Verification does not consume the code: a success is repeated at any
      later moment still inside the window. */
  lemma VerifyIsRepeatable(s: Store, email: string, code: string, now: int, later: int)
    requires email != "" && code != "" && OtpKey(email) in s.otps && s.otps[OtpKey(email)].code == code
    requires now <= later && later - s.otps[OtpKey(email)].createdAt <= OTP_TTL_MS
    ensures VerifyOtp(s, email, code, now, true).status == 200
    ensures VerifyOtp(s, email, code, later, true) == VerifyOtp(s, email, code, now, true)
  {
  }

  /** A new code replaces the old one: the old code is then refused exactly
      as if no code had ever been sent. */
  lemma ResendInvalidatesOldCode(s: Store, email: string, oldCode: string, draw: Otp.Draw, now: int, mailOk: bool, later: int)
    requires Otp.ValidDraw(draw)
    requires email != "" && oldCode != "" && oldCode != Otp.GenerateOtp(draw)
    ensures VerifyOtp(SendOtp(s, email, draw, now, true, mailOk).store, email, oldCode, later, true)
            == VerifyOtp(Store(map[], s.users), email, oldCode, later, true)
            == Fail(400, "Incorrect or expired OTP")
  {
  }

  /** Sending a code to one address does not disturb the code of another. */
  lemma SendKeepsOtherCodes(s: Store, email: string, other: string, code: string, draw: Otp.Draw, now: int,
                            dbOk: bool, mailOk: bool, later: int)
    requires Otp.ValidDraw(draw)
    ensures OtpKey(other) != OtpKey(email) ==>
              VerifyOtp(SendOtp(s, email, draw, now, dbOk, mailOk).store, other, code, later, true)
              == VerifyOtp(s, other, code, later, true)
  {
  }

  /** A missing record and a wrong code give the caller the same reply. */
  lemma MissingAndWrongCodeLookAlike(s: Store, email: string, code: string, stored: OtpRecord, now: int)
    requires email != "" && code != "" && stored.code != code
    ensures VerifyOtp(s.(otps := s.otps - {OtpKey(email)}), email, code, now, true)
            == VerifyOtp(s.(otps := s.otps[OtpKey(email) := stored]), email, code, now, true)
  {
  }

  /** An unknown e-mail and a wrong password give the caller the same reply. */
  lemma MissingUserAndWrongPasswordLookAlike(s: Store, email: string, password: string, user: UserRecord,
                                             matches: (string, string) -> bool, sessionToken: string)
    requires email != "" && password != "" && !matches(password, user.passwordHash)
    ensures Login(s.(users := s.users - {email}), email, password, matches, sessionToken, true)
            == Login(s.(users := s.users[email := user]), email, password, matches, sessionToken, true)
            == Fail(401, "Invalid credentials")
  {
  }

  /** Signing up and then logging in with the same password succeeds, when
      the hash comparison accepts the password against its own hash. */
  lemma SignupThenLogin(s: Store, email: string, password: string, hashed: string,
                        matches: (string, string) -> bool, sessionToken: string)
    requires email != "" && password != "" && email !in s.users
    requires matches(password, hashed)
    ensures Signup(s, email, password, password, hashed, true).reply.status == 201
    ensures Login(Signup(s, email, password, password, hashed, true).store, email, password, matches, sessionToken, true)
            == Reply(200, Session(sessionToken, email))
  {
  }

  /** A second signup for the same address is refused and writes nothing. */
  lemma SignupTwiceRefused(s: Store, email: string, password: string, hashed: string, hashed': string)
    requires email != "" && password != "" && email !in s.users
    ensures var s1 := Signup(s, email, password, password, hashed, true).store;
            Signup(s1, email, password, password, hashed', true) == Outcome(s1, Fail(400, "User already exists"), None)
  {
  }

  /** Requesting a reset never changes who can log in. */
  lemma ForgotPasswordKeepsLogin(s: Store, email: string, token: string, now: int, dbOk: bool, mailOk: bool,
                                 loginEmail: string, password: string, matches: (string, string) -> bool,
                                 sessionToken: string, dbOk': bool)
    ensures Login(ForgotPassword(s, email, token, now, dbOk, mailOk).store, loginEmail, password, matches, sessionToken, dbOk')
            == Login(s, loginEmail, password, matches, sessionToken, dbOk')
  {
    var s' := ForgotPassword(s, email, token, now, dbOk, mailOk).store;
    if loginEmail in s.users {
      assert s'.users[loginEmail].passwordHash == s.users[loginEmail].passwordHash;
    }
  }

  /** The reset flow never takes effect: after a reset link is issued, using its
      token never answers 200, and every login, with the old password or the
      new one, turns out as it did before the link was requested. */
  lemma ResetNeverChangesPassword(s: Store, email: string, token: string, now: int, dbOk: bool, mailOk: bool,
                                  newPassword: string, password: string, matches: (string, string) -> bool,
                                  sessionToken: string, dbOk': bool)
    ensures var issued := ForgotPassword(s, email, token, now, dbOk, mailOk).store;
            var o := ResetPassword(issued, token, newPassword);
            && o.reply.status != 200
            && Login(o.store, email, password, matches, sessionToken, dbOk')
               == Login(s, email, password, matches, sessionToken, dbOk')
  {
    ForgotPasswordKeepsLogin(s, email, token, now, dbOk, mailOk, email, password, matches, sessionToken, dbOk');
  }

  /** A second reset request overwrites the first token and its expiry. */
  lemma ForgotPasswordOverwritesToken(s: Store, email: string, t1: string, t2: string, now1: int, now2: int,
                                      mail1: bool, mail2: bool)
    requires email != "" && email in s.users
    ensures var s1 := ForgotPassword(s, email, t1, now1, true, mail1).store;
            var s2 := ForgotPassword(s1, email, t2, now2, true, mail2).store;
            s2.users[email].resetToken == Some(t2) && s2.users[email].resetTokenExpiry == Some(now2 + RESET_TOKEN_TTL_MS)
  {
  }
}

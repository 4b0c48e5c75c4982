/** The signup page of client/src/components/Signup.jsx: an e-mail field, an
    OTP field and a password form, driven by the two flags `otpSent` and
    `otpVerified`. The outcome of each `fetch` is a parameter; alerts and the
    focus effect are left out. */
module SignupWizard {
  import opened Seqs
  import Text

  const VERIFIED_MESSAGE: string := "OTP verified successfully"
  const CREATED_MESSAGE: string := "User created successfully"

  datatype Wizard = Wizard(email: string, otpSent: bool, enteredOtp: string, password: string,
                           confirmPassword: string, otpVerified: bool)

  function Initial(): Wizard {
    Wizard("", false, "", "", "", false)
  }

  /** How a request settled: a parsed reply (`res.ok`, `data.message`) or a thrown error. */
  datatype Outcome = Responded(ok: bool, message: string) | Threw

  /** The bodies the page posts. */
  datatype Request =
    | SendOtpRequest(email: string)                      // POST /send-otp
    | VerifyOtpRequest(email: string, otp: string)       // POST /verify-otp
    | RegisterRequest(email: string, password: string)   // POST /register

  /** A handler's effect: the new state, the request it issued, whether it navigated to /login. */
  datatype Effect = Effect(wizard: Wizard, request: Option<Request>, toLogin: bool)

  /** `handleSendOtp`. */
  function HandleSendOtp(w: Wizard, o: Outcome): (e: Effect)
    ensures e.request == Some(SendOtpRequest(Text.Normalize(w.email)))
    ensures e.wizard.otpSent <==> w.otpSent || (o.Responded? && o.ok)
    ensures e.wizard == w.(otpSent := e.wizard.otpSent)
    ensures !e.toLogin
  {
    var req := SendOtpRequest(Text.Normalize(w.email));
    match o
    case Responded(ok, _) => Effect(if ok then w.(otpSent := true) else w, Some(req), false)
    case Threw => Effect(w, Some(req), false)
  }

  /** `handleVerifyOtp`: only an ok reply with exactly the success message sets the flag. */
  function HandleVerifyOtp(w: Wizard, o: Outcome): (e: Effect)
    ensures e.request == Some(VerifyOtpRequest(Text.Normalize(w.email), w.enteredOtp))
    ensures e.wizard.otpVerified <==> w.otpVerified || o == Responded(true, VERIFIED_MESSAGE)
    ensures e.wizard == w.(otpVerified := e.wizard.otpVerified)
    ensures !e.toLogin
  {
    var req := VerifyOtpRequest(Text.Normalize(w.email), w.enteredOtp);
    match o
    case Responded(ok, msg) =>
      Effect(if ok && msg == VERIFIED_MESSAGE then w.(otpVerified := true) else w, Some(req), false)
    case Threw => Effect(w, Some(req), false)
  }

  /** `handleSignup`: nothing is posted unless the code was verified and the passwords agree. */
  function HandleSignup(w: Wizard, o: Outcome): (e: Effect)
    ensures e.wizard == w
    ensures e.request.Some? <==> w.otpVerified && w.password == w.confirmPassword
    ensures e.request.Some? ==> e.request.value == RegisterRequest(Text.Normalize(w.email), w.password)
    ensures e.toLogin <==> e.request.Some? && o == Responded(true, CREATED_MESSAGE)
  {
    if !w.otpVerified || w.password != w.confirmPassword then Effect(w, None, false)
    else
      var req := RegisterRequest(Text.Normalize(w.email), w.password);
      match o
      case Responded(ok, msg) => Effect(w, Some(req), ok && msg == CREATED_MESSAGE)
      case Threw => Effect(w, Some(req), false)
  }

  // What the page renders.
  predicate ShowsSendButton(w: Wizard) { !w.otpSent }
  predicate EmailDisabled(w: Wizard) { w.otpSent }
  predicate ShowsOtpEntry(w: Wizard) { w.otpSent && !w.otpVerified }
  predicate ShowsPasswordForm(w: Wizard) { w.otpVerified }

  /** A user action; the outcome of the request it triggers is part of the event. */
  datatype Event =
    | TypeEmail(value: string)
    | TypeOtp(value: string)
    | TypePassword(value: string)
    | TypeConfirm(value: string)
    | ClickSendOtp(outcome: Outcome)
    | ClickVerifyOtp(outcome: Outcome)
    | SubmitForm(outcome: Outcome)

  /** One event on the page as rendered: a hidden or disabled control does
      nothing, and the browser blocks a submit while a `required` password
      field is empty. */
  function Step(w: Wizard, ev: Event): (e: Effect)
    ensures e.wizard.otpSent <==> w.otpSent || (ev.ClickSendOtp? && ev.outcome.Responded? && ev.outcome.ok)
    ensures e.wizard.otpVerified <==> w.otpVerified || (ShowsOtpEntry(w) && ev == ClickVerifyOtp(Responded(true, VERIFIED_MESSAGE)))
    ensures w.otpSent ==> e.wizard.email == w.email
    ensures e.request.Some? ==> e.request.value.email == Text.Normalize(w.email)
    ensures e.request.Some? && e.request.value.RegisterRequest? ==> w.otpVerified
    ensures e.toLogin ==> w.otpVerified && ev == SubmitForm(Responded(true, CREATED_MESSAGE))
  {
    match ev
    case TypeEmail(v) => Effect(if EmailDisabled(w) then w else w.(email := v), None, false)
    case TypeOtp(v) => Effect(if ShowsOtpEntry(w) then w.(enteredOtp := v) else w, None, false)
    case TypePassword(v) => Effect(if ShowsPasswordForm(w) then w.(password := v) else w, None, false)
    case TypeConfirm(v) => Effect(if ShowsPasswordForm(w) then w.(confirmPassword := v) else w, None, false)
    case ClickSendOtp(o) => if ShowsSendButton(w) then HandleSendOtp(w, o) else Effect(w, None, false)
    case ClickVerifyOtp(o) => if ShowsOtpEntry(w) then HandleVerifyOtp(w, o) else Effect(w, None, false)
    case SubmitForm(o) =>
      if ShowsPasswordForm(w) && w.password != "" && w.confirmPassword != "" then HandleSignup(w, o)
      else Effect(w, None, false)
  }

  /** The page after a sequence of events, every request it posted, and whether it reached /login. */
  datatype Trace = Trace(wizard: Wizard, requests: seq<Request>, toLogin: bool)

  function Run(w: Wizard, evs: seq<Event>): Trace
    decreases |evs|
  {
    if evs == [] then Trace(w, [], false)
    else
      var e := Step(w, evs[0]);
      var rest := Run(e.wizard, evs[1..]);
      Trace(rest.wizard, (if e.request.Some? then [e.request.value] else []) + rest.requests, e.toLogin || rest.toLogin)
  }

  /** Neither flag ever goes back to false, and the e-mail is frozen once a code was sent. */
  lemma {:induction false} FlagsOnlyRise(w: Wizard, evs: seq<Event>)
    ensures w.otpSent ==> Run(w, evs).wizard.otpSent
    ensures w.otpVerified ==> Run(w, evs).wizard.otpVerified
    ensures w.otpSent ==> Run(w, evs).wizard.email == w.email
    decreases |evs|
  {
    if evs != [] {
      FlagsOnlyRise(Step(w, evs[0]).wizard, evs[1..]);
    }
  }

  /** The code is marked verified only after a code was sent. */
  lemma {:induction false} VerifiedOnlyAfterSent(w: Wizard, evs: seq<Event>)
    requires w.otpVerified ==> w.otpSent
    ensures Run(w, evs).wizard.otpVerified ==> Run(w, evs).wizard.otpSent
    decreases |evs|
  {
    if evs != [] {
      VerifiedOnlyAfterSent(Step(w, evs[0]).wizard, evs[1..]);
    }
  }

  predicate VerifiedOk(ev: Event) {
    ev == ClickVerifyOtp(Responded(true, VERIFIED_MESSAGE))
  }

  /** Some request in the list is a registration. */
  predicate HasRegister(reqs: seq<Request>) {
    exists k :: 0 <= k < |reqs| && reqs[k].RegisterRequest?
  }

  /** Some event is a verification answered with the success message. */
  predicate AnyVerifiedOk(evs: seq<Event>) {
    exists i :: 0 <= i < |evs| && VerifiedOk(evs[i])
  }

  lemma HasRegisterAppend(a: seq<Request>, b: seq<Request>)
    ensures HasRegister(a + b) <==> HasRegister(a) || HasRegister(b)
  {
    if HasRegister(a + b) {
      var k :| 0 <= k < |a + b| && (a + b)[k].RegisterRequest?;
      if k < |a| {
        assert a[k] == (a + b)[k];
      } else {
        assert b[k - |a|] == (a + b)[k];
      }
    }
    if HasRegister(a) {
      var k :| 0 <= k < |a| && a[k].RegisterRequest?;
      assert (a + b)[k] == a[k];
    }
    if HasRegister(b) {
      var k :| 0 <= k < |b| && b[k].RegisterRequest?;
      assert (a + b)[|a| + k] == b[k];
    }
  }

  /** From an unverified page, a registration is posted and /login is reached
      only after some verification was answered with the success message. */
  lemma {:induction false} RegisterNeedsVerification(w: Wizard, evs: seq<Event>)
    requires !w.otpVerified
    ensures Run(w, evs).toLogin || HasRegister(Run(w, evs).requests) ==> AnyVerifiedOk(evs)
    decreases |evs|
  {
    if evs != [] && !VerifiedOk(evs[0]) {
      var e := Step(w, evs[0]);
      assert !e.wizard.otpVerified && !e.toLogin;
      RegisterNeedsVerification(e.wizard, evs[1..]);
      var rest := Run(e.wizard, evs[1..]);
      var head: seq<Request> := if e.request.Some? then [e.request.value] else [];
      assert Run(w, evs).requests == head + rest.requests;
      assert !HasRegister(head);
      HasRegisterAppend(head, rest.requests);
      if AnyVerifiedOk(evs[1..]) {
        var i :| 0 <= i < |evs[1..]| && VerifiedOk(evs[1..][i]);
        assert evs[i + 1] == evs[1..][i];
      }
    } else if evs != [] {
      assert VerifiedOk(evs[0]);
    }
  }

  /** Every request carries an e-mail that normalising leaves as it is. */
  predicate AllNormalized(reqs: seq<Request>) {
    forall k :: 0 <= k < |reqs| ==> Text.Normalize(reqs[k].email) == reqs[k].email
  }

  lemma AllNormalizedAppend(a: seq<Request>, b: seq<Request>)
    requires AllNormalized(a) && AllNormalized(b)
    ensures AllNormalized(a + b)
  {
    forall k | 0 <= k < |a + b| ensures Text.Normalize((a + b)[k].email) == (a + b)[k].email {
      if k < |a| {
        assert (a + b)[k] == a[k];
      } else {
        assert (a + b)[k] == b[k - |a|];
      }
    }
  }

  /** Every request the page posts carries an already normalised e-mail. */
  lemma {:induction false} RequestsCarryNormalizedEmail(w: Wizard, evs: seq<Event>)
    ensures AllNormalized(Run(w, evs).requests)
    decreases |evs|
  {
    if evs != [] {
      var e := Step(w, evs[0]);
      RequestsCarryNormalizedEmail(e.wizard, evs[1..]);
      var head: seq<Request> := if e.request.Some? then [e.request.value] else [];
      if e.request.Some? {
        Text.NormalizeIdempotent(w.email);
        assert head[0].email == Text.Normalize(w.email);
      }
      AllNormalizedAppend(head, Run(e.wizard, evs[1..]).requests);
    }
  }
}

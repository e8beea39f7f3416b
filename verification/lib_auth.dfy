/**
 * The authentication routes of lib/backend. They hold no state: register
 * validates a name, an email and a PIN and echoes the normalised name and
 * email; login validates an email and a PIN and echoes the email. Any schema
 * failure answers 400. Zod's email format check is the parameter `isEmail`.
 */
module LibAuth {
  import opened Values
  import opened JsString
  import opened TextFields

  /** `nameSchema`: the name rule followed by a final `trim`, which never changes the accepted value. */
  function AuthName(v: Json): (r: Option<string>)
    ensures r == NameField(v)
  {
    match NameField(v)
    case None => None
    case Some(t) =>
      TrimFixedPoint(t);
      Some(Trim(t))
  }

  datatype RegisterOutcome = Registered(name: string, email: string) | RegisterRejected

  datatype LoginOutcome = LoggedIn(email: string) | LoginRejected

  function RegisterStatusCode(o: RegisterOutcome): (code: int)
    ensures code == 200 <==> o.Registered?
    ensures code == 400 <==> o.RegisterRejected?
  {
    if o.Registered? then 200 else 400
  }

  function LoginStatusCode(o: LoginOutcome): (code: int)
    ensures code == 200 <==> o.LoggedIn?
    ensures code == 400 <==> o.LoginRejected?
  {
    if o.LoggedIn? then 200 else 400
  }

  /**
   * POST /register: accepted exactly when the body is an object whose name,
   * email and pin pass their rules; the answer carries the trimmed name and
   * the trimmed, lower-cased email, and no PIN.
   */
  function Register(body: Json, isEmail: string -> bool): (o: RegisterOutcome)
    ensures o.Registered? <==>
              && body.Obj?
              && NameField(Field(body, "name")).Some?
              && EmailField(Field(body, "email"), isEmail).Some?
              && PinField(Field(body, "pin")).Some?
    ensures o.Registered? ==>
              && o.name == Trim(Field(body, "name").s) && MatchesName(o.name)
              && o.email == ToLower(Trim(Field(body, "email").s))
  {
    var name, email, pin := AuthName(Field(body, "name")), EmailField(Field(body, "email"), isEmail),
                            PinField(Field(body, "pin"));
    if body.Obj? && name.Some? && email.Some? && pin.Some? then Registered(name.value, email.value)
    else RegisterRejected
  }

  /** The answer to a register does not depend on which valid PIN was sent: the PIN is never echoed. */
  lemma RegisterIgnoresPin(fields: map<string, Json>, pin1: string, pin2: string, isEmail: string -> bool)
    requires PinField(Str(pin1)).Some? && PinField(Str(pin2)).Some?
    ensures Register(Obj(fields["pin" := Str(pin1)]), isEmail) == Register(Obj(fields["pin" := Str(pin2)]), isEmail)
  {
    var b1, b2 := Obj(fields["pin" := Str(pin1)]), Obj(fields["pin" := Str(pin2)]);
    assert Field(b1, "name") == Field(b2, "name") && Field(b1, "email") == Field(b2, "email");
  }

  /**
   * POST /login: accepted exactly when the email and pin pass their rules;
   * no credential is checked, so every valid body logs in, and the answer
   * carries the normalised email.
   */
  function Login(body: Json, isEmail: string -> bool): (o: LoginOutcome)
    ensures o.LoggedIn? <==>
              && body.Obj?
              && EmailField(Field(body, "email"), isEmail).Some?
              && PinField(Field(body, "pin")).Some?
    ensures o.LoggedIn? ==> o.email == ToLower(Trim(Field(body, "email").s))
  {
    var email, pin := EmailField(Field(body, "email"), isEmail), PinField(Field(body, "pin"));
    if body.Obj? && email.Some? && pin.Some? then LoggedIn(email.value) else LoginRejected
  }

  /** A body that registers also logs in, under the same normalised email. */
  lemma RegisteredCanLogIn(body: Json, isEmail: string -> bool)
    requires Register(body, isEmail).Registered?
    ensures Login(body, isEmail) == LoggedIn(Register(body, isEmail).email)
  {
  }

  /** Logging in again with the email an earlier login echoed gives the same email back. */
  lemma LoginEmailStable(body: Json, isEmail: string -> bool)
    requires Login(body, isEmail).LoggedIn?
    requires isEmail(Login(body, isEmail).email)
    ensures Login(body.(fields := body.fields["email" := Str(Login(body, isEmail).email)]), isEmail)
            == Login(body, isEmail)
  {
    var e := Login(body, isEmail).email;
    var again := body.(fields := body.fields["email" := Str(e)]);
    NormalisedEmailStable(Field(body, "email").s);
    assert Field(again, "pin") == Field(body, "pin");
  }
}

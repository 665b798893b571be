/** The login body. The login flow behind it is not part of this model. */
module Auth {
  import opened Domain
  import opened Js
  import opened Validators

  datatype LoginBody = LoginBody(email: string, password: string)

  /** `LoginDto`: an address the email check accepts and a non-empty string password. */
  function ParseLogin(body: map<string, JsValue>, isEmail: string -> bool): (r: Option<LoginBody>)
    ensures r.Some? <==> IsEmail(Get(body, "email"), isEmail) && MinLength(Get(body, "password"), 1)
    ensures r.Some? ==> Get(body, "email") == Str(r.value.email) && Get(body, "password") == Str(r.value.password)
    ensures r.Some? ==> |r.value.password| >= 1
  {
    var email := Get(body, "email");
    var password := Get(body, "password");
    if IsEmail(email, isEmail) && MinLength(password, 1) then Some(LoginBody(email.s, password.s))
    else None
  }

  /** The empty body fails validation, whatever the email check says. */
  lemma EmptyLoginRejected(isEmail: string -> bool)
    ensures ParseLogin(map[], isEmail).None?
  {
  }

  /** A body with an accepted email and a non-empty password is read back as sent. */
  lemma LoginRoundTrip(b: LoginBody, isEmail: string -> bool)
    requires isEmail(b.email) && |b.password| >= 1
    ensures ParseLogin(map["email" := Str(b.email), "password" := Str(b.password)], isEmail) == Some(b)
  {
  }
}

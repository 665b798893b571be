/** Registration with unique emails, the user finders and the controller's
    password stripping. */
module Users {
  import opened Domain
  import opened Js
  import opened Validators
  import Store

  /** A validated `CreateUserDto`. */
  datatype CreateUserBody = CreateUserBody(email: string, name: Option<string>, password: string, role: Role)

  function ParseRole(v: JsValue): (r: Option<Role>)
    ensures r.Some? <==> IsIn(v, ["CREATOR", "APPROVER"])
    ensures r.Some? ==> v == Str(RoleName(r.value))
  {
    if v == Str("CREATOR") then Some(Creator)
    else if v == Str("APPROVER") then Some(Approver)
    else None
  }

  /** `CreateUserDto`: an address the email check accepts, an optional string name, a
      password of at least eight characters and one of the two role names. */
  function ParseCreateUser(body: map<string, JsValue>, isEmail: string -> bool): (r: Option<CreateUserBody>)
    ensures r.Some? <==>
      && IsEmail(Get(body, "email"), isEmail)
      && OptionalString(Get(body, "name"))
      && MinLength(Get(body, "password"), 8)
      && IsIn(Get(body, "role"), ["CREATOR", "APPROVER"])
    ensures r.Some? ==>
      && Get(body, "email") == Str(r.value.email)
      && r.value.name == OptionalText(Get(body, "name"))
      && Get(body, "password") == Str(r.value.password) && |r.value.password| >= 8
      && Get(body, "role") == Str(RoleName(r.value.role))
  {
    var email := Get(body, "email");
    var name := Get(body, "name");
    var password := Get(body, "password");
    var role := ParseRole(Get(body, "role"));
    if IsEmail(email, isEmail) && OptionalString(name) && MinLength(password, 8) && role.Some? then
      Some(CreateUserBody(email.s, OptionalText(name), password.s, role.value))
    else None
  }

  /** A password shorter than eight characters is refused, whatever else is sent. */
  lemma ShortPasswordRejected(body: map<string, JsValue>, isEmail: string -> bool, password: string)
    requires |password| < 8
    ensures ParseCreateUser(body["password" := Str(password)], isEmail).None?
  {
    assert Get(body["password" := Str(password)], "password") == Str(password);
  }

  /** `create`: an email already stored is a Conflict and adds no user; otherwise the
      new user is appended with the email and role as given, the name when one was
      supplied, and the hashed password. */
  function RegisterStep(db: Db, body: CreateUserBody, hash: string -> string): (out: (Result<User>, Db))
    ensures var (r, db') := out;
      && (FindUserByEmail(db.users, body.email).Some? ==>
            r == Failure(Conflict("Email already registered")) && db' == db)
      && (FindUserByEmail(db.users, body.email).None? ==>
            && r.Success?
            && r.value == User(db.nextId, body.email, body.name, hash(body.password), body.role)
            && db' == db.(users := db.users + [r.value], nextId := db.nextId + 1))
  {
    if FindUserByEmail(db.users, body.email).Some? then (Failure(Conflict("Email already registered")), db)
    else
      var user := User(db.nextId, body.email, body.name, hash(body.password), body.role);
      (Success(user), db.(users := db.users + [user], nextId := db.nextId + 1))
  }

  /** Registering the same email twice: the second call is a Conflict and leaves the
      tables as the first call left them. */
  lemma SecondRegistrationConflicts(db: Db, body: CreateUserBody, body2: CreateUserBody, hash: string -> string)
    requires body2.email == body.email
    ensures var db1 := RegisterStep(db, body, hash).1;
      RegisterStep(db1, body2, hash) == (Failure(Conflict("Email already registered")), db1)
  {
    var (r, db1) := RegisterStep(db, body, hash);
    if r.Success? {
      assert db1.users[|db1.users| - 1].email == body.email;
    }
  }

  class UsersService {
    const db: Store.Database

    constructor (db: Store.Database)
      ensures this.db == db
    {
      this.db := db;
    }

    method Create(body: CreateUserBody, hash: string -> string) returns (r: Result<User>)
      modifies db
      ensures (r, db.Snapshot()) == RegisterStep(old(db.Snapshot()), body, hash)
    {
      var existing := FindUserByEmail(db.users, body.email);
      if existing.Some? {
        return Failure(Conflict("Email already registered"));
      }
      var user := User(db.nextId, body.email, body.name, hash(body.password), body.role);
      db.users := db.users + [user];
      db.nextId := db.nextId + 1;
      r := Success(user);
    }

    /** `findByEmail`: the stored user with that email, if any. */
    method FindByEmail(email: string) returns (u: Option<User>)
      ensures u == FindUserByEmail(db.users, email)
    {
      u := FindUserByEmail(db.users, email);
    }

    /** `findById`: the stored user with that id, if any. */
    method FindById(id: Id) returns (u: Option<User>)
      ensures u == FindUserById(db.users, id)
    {
      u := FindUserById(db.users, id);
    }
  }

  /** `register`'s answer: the created user without the password. */
  function RegisterResponse(r: Result<User>): (out: Result<PublicUser>)
    ensures out.Failure? <==> r.Failure?
    ensures r.Failure? ==> out.error == r.error
    ensures r.Success? ==> out.value == WithoutPassword(r.value)
  {
    match r
    case Failure(e) => Failure(e)
    case Success(u) => Success(WithoutPassword(u))
  }

  /** `me`: null when no user has the token's subject, otherwise that user without the
      password. */
  function Me(db: Db, sub: Id): (r: Option<PublicUser>)
    ensures r.None? <==> FindUserById(db.users, sub).None?
    ensures r.Some? ==> r.value == WithoutPassword(FindUserById(db.users, sub).value)
  {
    match FindUserById(db.users, sub)
    case None => None
    case Some(u) => Some(WithoutPassword(u))
  }

  /** A freshly registered user is what `me` answers for its id, as long as no stored
      user already had that id. */
  lemma {:induction false} MeAfterRegister(db: Db, body: CreateUserBody, hash: string -> string)
    requires forall i :: 0 <= i < |db.users| ==> db.users[i].id < db.nextId
    requires RegisterStep(db, body, hash).0.Success?
    ensures var (r, db') := RegisterStep(db, body, hash);
      Me(db', r.value.id) == Some(RegisterResponse(r).value)
  {
    var (r, db') := RegisterStep(db, body, hash);
    FindUserAppended(db.users, r.value);
  }

  lemma {:induction false} FindUserAppended(rows: seq<User>, u: User)
    requires forall i :: 0 <= i < |rows| ==> rows[i].id != u.id
    ensures FindUserById(rows + [u], u.id) == Some(u)
    decreases |rows|
  {
    if |rows| == 0 {
      assert rows + [u] == [u];
    } else {
      assert (rows + [u])[1..] == rows[1..] + [u];
      FindUserAppended(rows[1..], u);
    }
  }
}

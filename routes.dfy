/** The routes: which guards each runs, and the guarded endpoints end to end
    (guards first, then body validation, then the service). */
module Routes {
  import opened Domain
  import opened Js
  import opened Guards
  import Requests
  import Approvals
  import Users
  import Repo = RequestsRepository
  import History = ApprovalsRepository

  datatype Route =
    | RegisterUser      // POST /users
    | CurrentUser       // GET /users/me
    | CreateRequest     // POST /requests
    | ListRequests      // GET /requests
    | GetRequest        // GET /requests/:id
    | UpdateRequest     // PATCH /requests/:id
    | DecideRequest     // POST /requests/:id/decide
    | ApprovalHistory   // GET /requests/:id/approvals

  /** Registration is the one route without the bearer-token guard. */
  predicate RequiresJwt(route: Route)
  {
    route != RegisterUser
  }

  /** The role metadata of each handler. */
  function RequiredRoles(route: Route): Option<seq<string>>
  {
    match route
    case CreateRequest => Some(["CREATOR"])
    case UpdateRequest => Some(["CREATOR"])
    case DecideRequest => Some(["APPROVER"])
    case _ => None
  }

  /** The guard pipeline: the token guard of the controller, then the role guard of
      the handler. The result is the caller, when the route has one. */
  function Admit(route: Route, authorization: Option<string>, verify: string -> Option<JwtPayload>)
    : (r: Result<Option<JwtPayload>>)
    ensures !RequiresJwt(route) ==> r == Success(None)
    ensures RequiresJwt(route) && Authenticate(authorization, verify).Failure? ==>
      r == Failure(Unauthorized("Unauthorized"))
    ensures RequiresJwt(route) && Authenticate(authorization, verify).Success? ==>
      var user := Authenticate(authorization, verify).value;
      && (RolesCanActivate(RequiredRoles(route), Some(user)).Success? ==> r == Success(Some(user)))
      && (RolesCanActivate(RequiredRoles(route), Some(user)).Failure? ==> r == Failure(Forbidden("Forbidden")))
  {
    if !RequiresJwt(route) then Success(None)
    else match Authenticate(authorization, verify)
      case Failure(e) => Failure(e)
      case Success(user) =>
        match RolesCanActivate(RequiredRoles(route), Some(user))
        case Failure(e) => Failure(e)
        case Success(_) => Success(Some(user))
  }

  /** Every route but registration answers Unauthorized without a token. */
  lemma NoTokenIsUnauthorized(route: Route, verify: string -> Option<JwtPayload>)
    requires route != RegisterUser
    ensures Admit(route, None, verify) == Failure(Unauthorized("Unauthorized"))
  {
  }

  /** Registration needs no token at all. */
  lemma RegisterIsOpen(authorization: Option<string>, verify: string -> Option<JwtPayload>)
    ensures Admit(RegisterUser, authorization, verify) == Success(None)
  {
  }

  /** With a valid token: create and update admit exactly CREATORs, decide exactly
      APPROVERs, and the read routes every authenticated caller. */
  lemma RoleTable(route: Route, authorization: Option<string>, verify: string -> Option<JwtPayload>)
    requires route != RegisterUser
    requires Authenticate(authorization, verify).Success?
    ensures var role := Authenticate(authorization, verify).value.role;
      && (route == CreateRequest || route == UpdateRequest ==> (Admit(route, authorization, verify).Success? <==> role == "CREATOR"))
      && (route == DecideRequest ==> (Admit(route, authorization, verify).Success? <==> role == "APPROVER"))
      && (route in {CurrentUser, ListRequests, GetRequest, ApprovalHistory} ==> Admit(route, authorization, verify).Success?)
  {
  }

  /** Stands in for the constraint messages the validation pipe reports, which this
      model does not build. */
  const ValidationFailed: Error := BadRequest("Bad Request")

  /** `POST /requests`: guards, then the body, then the service with the token's subject
      as the creator. */
  function CreateEndpoint(db: Db, authorization: Option<string>, verify: string -> Option<JwtPayload>,
                          body: map<string, JsValue>, now: int): (out: (Result<Request>, Db))
    ensures var (r, db') := out;
      && (Admit(CreateRequest, authorization, verify).Failure? ==>
            r == Failure(Admit(CreateRequest, authorization, verify).error) && db' == db)
      && (Admit(CreateRequest, authorization, verify).Success? && Requests.ParseCreateRequest(body).None? ==>
            r == Failure(ValidationFailed) && db' == db)
      && (Admit(CreateRequest, authorization, verify).Success? && Requests.ParseCreateRequest(body).Some? ==>
            var (row, db2) := Requests.CreateStep(db, Admit(CreateRequest, authorization, verify).value.value.sub,
                                                  Requests.ParseCreateRequest(body).value, now);
            r == Success(row) && db' == db2)
  {
    match Admit(CreateRequest, authorization, verify)
    case Failure(e) => (Failure(e), db)
    case Success(user) =>
      match Requests.ParseCreateRequest(body)
      case None => (Failure(ValidationFailed), db)
      case Some(b) =>
        var (row, db') := Requests.CreateStep(db, user.value.sub, b, now);
        (Success(row), db')
  }

  /** `PATCH /requests/:id`: guards, then the body, then the service with the token's
      subject and role. */
  function UpdateEndpoint(db: Db, authorization: Option<string>, verify: string -> Option<JwtPayload>,
                          id: Id, body: map<string, JsValue>): (out: (Result<Request>, Db))
    ensures var (r, db') := out;
      && (Admit(UpdateRequest, authorization, verify).Failure? ==>
            r == Failure(Admit(UpdateRequest, authorization, verify).error) && db' == db)
      && (Admit(UpdateRequest, authorization, verify).Success? && Requests.ParseUpdateRequest(body).None? ==>
            r == Failure(ValidationFailed) && db' == db)
      && (Admit(UpdateRequest, authorization, verify).Success? && Requests.ParseUpdateRequest(body).Some? ==>
            var user := Admit(UpdateRequest, authorization, verify).value.value;
            out == Requests.UpdateStep(db, id, user.sub, user.role, Requests.ParseUpdateRequest(body).value))
  {
    match Admit(UpdateRequest, authorization, verify)
    case Failure(e) => (Failure(e), db)
    case Success(user) =>
      match Requests.ParseUpdateRequest(body)
      case None => (Failure(ValidationFailed), db)
      case Some(b) => Requests.UpdateStep(db, id, user.value.sub, user.value.role, b)
  }

  /** `POST /requests/:id/decide`: guards, then the body, then the service with the
      token's subject and role and the body's decision and note. */
  function DecideEndpoint(db: Db, authorization: Option<string>, verify: string -> Option<JwtPayload>,
                          requestId: Id, body: map<string, JsValue>, now: int)
    : (out: (Result<Approvals.DecideResult>, Db))
    ensures var (r, db') := out;
      && (Admit(DecideRequest, authorization, verify).Failure? ==>
            r == Failure(Admit(DecideRequest, authorization, verify).error) && db' == db)
      && (Admit(DecideRequest, authorization, verify).Success? && Approvals.ParseDecideApproval(body).None? ==>
            r == Failure(ValidationFailed) && db' == db)
      && (Admit(DecideRequest, authorization, verify).Success? && Approvals.ParseDecideApproval(body).Some? ==>
            var user := Admit(DecideRequest, authorization, verify).value.value;
            out == Approvals.DecideStep(db, requestId, user.sub, user.role, Approvals.ParseDecideApproval(body).value, now))
  {
    match Admit(DecideRequest, authorization, verify)
    case Failure(e) => (Failure(e), db)
    case Success(user) =>
      match Approvals.ParseDecideApproval(body)
      case None => (Failure(ValidationFailed), db)
      case Some(b) => Approvals.DecideStep(db, requestId, user.value.sub, user.value.role, b, now)
  }

  /** `GET /requests`: the token guard, the status filter, the paging defaults, then the
      service with the token's subject and role. */
  function ListEndpoint(db: Db, authorization: Option<string>, verify: string -> Option<JwtPayload>,
                        query: map<string, JsValue>, page: Option<int>, limit: Option<int>)
    : (r: Result<Requests.ListResult>)
    requires page.Some? ==> page.value >= 1
    requires limit.Some? ==> limit.value >= 0
    ensures Admit(ListRequests, authorization, verify).Failure? ==> r == Failure(Unauthorized("Unauthorized"))
    ensures Admit(ListRequests, authorization, verify).Success? && Requests.ParseStatusFilter(query).None? ==>
      r == Failure(ValidationFailed)
    ensures Admit(ListRequests, authorization, verify).Success? && Requests.ParseStatusFilter(query).Some? ==>
      var user := Admit(ListRequests, authorization, verify).value.value;
      var (p, l) := Requests.ListDefaults(page, limit);
      r == Success(Requests.FindMany(db, user.sub, user.role, p, l, Requests.ParseStatusFilter(query).value))
  {
    match Admit(ListRequests, authorization, verify)
    case Failure(e) => Failure(e)
    case Success(user) =>
      match Requests.ParseStatusFilter(query)
      case None => Failure(ValidationFailed)
      case Some(status) =>
        var (p, l) := Requests.ListDefaults(page, limit);
        Success(Requests.FindMany(db, user.value.sub, user.value.role, p, l, status))
  }

  /** `GET /requests/:id`: the token guard, then `findById` with the token's subject
      and role. */
  function GetEndpoint(db: Db, authorization: Option<string>, verify: string -> Option<JwtPayload>, id: Id)
    : (r: Result<Repo.RequestView>)
    ensures Admit(GetRequest, authorization, verify).Failure? ==> r == Failure(Unauthorized("Unauthorized"))
    ensures Admit(GetRequest, authorization, verify).Success? ==>
      var user := Admit(GetRequest, authorization, verify).value.value;
      r == Requests.FindById(db, id, user.sub, user.role)
  {
    match Admit(GetRequest, authorization, verify)
    case Failure(e) => Failure(e)
    case Success(user) => Requests.FindById(db, id, user.value.sub, user.value.role)
  }

  /** `GET /requests/:id/approvals`: the token guard, then the history with the token's
      subject and role. */
  function HistoryEndpoint(db: Db, authorization: Option<string>, verify: string -> Option<JwtPayload>, requestId: Id)
    : (r: Result<seq<History.HistoryEntry>>)
    ensures Admit(ApprovalHistory, authorization, verify).Failure? ==> r == Failure(Unauthorized("Unauthorized"))
    ensures Admit(ApprovalHistory, authorization, verify).Success? ==>
      var user := Admit(ApprovalHistory, authorization, verify).value.value;
      r == Approvals.FindHistory(db, requestId, user.sub, user.role)
  {
    match Admit(ApprovalHistory, authorization, verify)
    case Failure(e) => Failure(e)
    case Success(user) => Approvals.FindHistory(db, requestId, user.value.sub, user.value.role)
  }

  /** `POST /users`: no guard; the body, then `create`, answered without the password. */
  function RegisterEndpoint(db: Db, body: map<string, JsValue>, isEmail: string -> bool, hash: string -> string)
    : (out: (Result<PublicUser>, Db))
    ensures Users.ParseCreateUser(body, isEmail).None? ==> out == (Failure(ValidationFailed), db)
    ensures Users.ParseCreateUser(body, isEmail).Some? ==>
      var (created, db') := Users.RegisterStep(db, Users.ParseCreateUser(body, isEmail).value, hash);
      out == (Users.RegisterResponse(created), db')
  {
    match Users.ParseCreateUser(body, isEmail)
    case None => (Failure(ValidationFailed), db)
    case Some(b) =>
      var (created, db') := Users.RegisterStep(db, b, hash);
      (Users.RegisterResponse(created), db')
  }

  /** `GET /users/me`: the token guard, then the user named by the token's subject,
      or null. */
  function MeEndpoint(db: Db, authorization: Option<string>, verify: string -> Option<JwtPayload>)
    : (r: Result<Option<PublicUser>>)
    ensures Admit(CurrentUser, authorization, verify).Failure? ==> r == Failure(Unauthorized("Unauthorized"))
    ensures Admit(CurrentUser, authorization, verify).Success? ==>
      r == Success(Users.Me(db, Admit(CurrentUser, authorization, verify).value.value.sub))
  {
    match Admit(CurrentUser, authorization, verify)
    case Failure(e) => Failure(e)
    case Success(user) => Success(Users.Me(db, user.value.sub))
  }

  /** An APPROVER creating a request is refused by the guard, whatever the body, and
      nothing is stored. */
  lemma ApproverCannotCreate(db: Db, authorization: Option<string>, verify: string -> Option<JwtPayload>,
                             body: map<string, JsValue>, now: int)
    requires Authenticate(authorization, verify).Success?
    requires Authenticate(authorization, verify).value.role == "APPROVER"
    ensures CreateEndpoint(db, authorization, verify, body, now) == (Failure(Forbidden("Forbidden")), db)
  {
  }

  /** An APPROVER updating a request gets the guard's Forbidden, before the body or the
      request is looked at. */
  lemma ApproverCannotUpdate(db: Db, authorization: Option<string>, verify: string -> Option<JwtPayload>,
                             id: Id, body: map<string, JsValue>)
    requires Authenticate(authorization, verify).Success?
    requires Authenticate(authorization, verify).value.role == "APPROVER"
    ensures UpdateEndpoint(db, authorization, verify, id, body) == (Failure(Forbidden("Forbidden")), db)
  {
  }

  /** A CREATOR deciding is refused by the guard, even with an invalid body. */
  lemma CreatorCannotDecide(db: Db, authorization: Option<string>, verify: string -> Option<JwtPayload>,
                            requestId: Id, body: map<string, JsValue>, now: int)
    requires Authenticate(authorization, verify).Success?
    requires Authenticate(authorization, verify).value.role == "CREATOR"
    ensures DecideEndpoint(db, authorization, verify, requestId, body, now) == (Failure(Forbidden("Forbidden")), db)
  {
  }

  /** Behind the guards, the services' own role checks always pass: an admitted decider
      is an APPROVER and an admitted updater a CREATOR. */
  lemma ServiceRoleChecksAreBehindTheGuard(authorization: Option<string>, verify: string -> Option<JwtPayload>)
    ensures Admit(DecideRequest, authorization, verify).Success? ==>
      Admit(DecideRequest, authorization, verify).value.Some? && Admit(DecideRequest, authorization, verify).value.value.role == "APPROVER"
    ensures Admit(UpdateRequest, authorization, verify).Success? ==>
      Admit(UpdateRequest, authorization, verify).value.Some? && Admit(UpdateRequest, authorization, verify).value.value.role == "CREATOR"
  {
  }
}

/** Shared vocabulary of the approval backend: outcomes, roles, statuses,
    the three table rows and the public projections of a user. */
module Domain {

  datatype Option<+T> = None | Some(value: T)

  /** The five error kinds a call can end with, each carrying its message. */
  datatype Error =
    | Forbidden(message: string)
    | NotFound(message: string)
    | BadRequest(message: string)
    | Conflict(message: string)
    | Unauthorized(message: string)

  datatype Result<+T> = Success(value: T) | Failure(error: Error)

  /** Row identifiers. The schema generates them; the model draws them from a counter. */
  type Id = nat

  datatype Role = Creator | Approver

  function RoleName(r: Role): string
  {
    match r
    case Creator => "CREATOR"
    case Approver => "APPROVER"
  }

  datatype Status = Pending | Approved | Rejected

  function StatusName(s: Status): string
  {
    match s
    case Pending => "PENDING"
    case Approved => "APPROVED"
    case Rejected => "REJECTED"
  }

  /** Reads a status name back; the names are exactly the three enum strings. */
  function ParseStatus(name: string): (r: Option<Status>)
    ensures r.Some? <==> name == "PENDING" || name == "APPROVED" || name == "REJECTED"
    ensures r.Some? ==> StatusName(r.value) == name
  {
    if name == "PENDING" then Some(Pending)
    else if name == "APPROVED" then Some(Approved)
    else if name == "REJECTED" then Some(Rejected)
    else None
  }

  lemma StatusNameRoundTrip(s: Status)
    ensures ParseStatus(StatusName(s)) == Some(s)
  {
  }

  /** The verdict of an approval: 'APPROVED' or 'REJECTED'. */
  datatype Decision = Approve | Reject

  function DecisionName(d: Decision): string
  {
    match d
    case Approve => "APPROVED"
    case Reject => "REJECTED"
  }

  /** The request status a decision moves a request to. */
  function DecisionStatus(d: Decision): (s: Status)
    ensures s != Pending
    ensures StatusName(s) == DecisionName(d)
  {
    match d
    case Approve => Approved
    case Reject => Rejected
  }

  datatype User = User(id: Id, email: string, name: Option<string>, password: string, role: Role)

  datatype Request = Request(
    id: Id,
    title: string,
    description: Option<string>,
    status: Status,
    createdById: Id,
    createdAt: int)

  datatype Approval = Approval(
    id: Id,
    requestId: Id,
    approverId: Id,
    decision: Decision,
    note: Option<string>,
    approvedAt: int)

  /** A user with the password field removed: what the users controller answers and
      what a request's `creator` include selects (id, email, name, role). */
  datatype PublicUser = PublicUser(id: Id, email: string, name: Option<string>, role: Role)

  /** What an approval's `approver` include selects: id, email and name. */
  datatype ApproverSummary = ApproverSummary(id: Id, email: string, name: Option<string>)

  function WithoutPassword(u: User): (p: PublicUser)
    ensures p.id == u.id && p.email == u.email && p.name == u.name && p.role == u.role
  {
    PublicUser(u.id, u.email, u.name, u.role)
  }

  function ApproverOf(u: User): (a: ApproverSummary)
    ensures a.id == u.id && a.email == u.email && a.name == u.name
  {
    ApproverSummary(u.id, u.email, u.name)
  }

  /** The three tables and the id counter, as one value. */
  datatype Db = Db(users: seq<User>, requests: seq<Request>, approvals: seq<Approval>, nextId: nat)

  /** `findUnique({ where: { id } })` on the request table. */
  function FindRequest(rows: seq<Request>, id: Id): (r: Option<Request>)
    ensures r.Some? <==> exists i :: 0 <= i < |rows| && rows[i].id == id
    ensures r.Some? ==> r.value in rows && r.value.id == id
  {
    if |rows| == 0 then None
    else if rows[0].id == id then Some(rows[0])
    else FindRequest(rows[1..], id)
  }

  /** `findUnique({ where: { id } })` on the user table. */
  function FindUserById(rows: seq<User>, id: Id): (r: Option<User>)
    ensures r.Some? <==> exists i :: 0 <= i < |rows| && rows[i].id == id
    ensures r.Some? ==> r.value in rows && r.value.id == id
  {
    if |rows| == 0 then None
    else if rows[0].id == id then Some(rows[0])
    else FindUserById(rows[1..], id)
  }

  /** `findUnique({ where: { email } })` on the user table. */
  function FindUserByEmail(rows: seq<User>, email: string): (r: Option<User>)
    ensures r.Some? <==> exists i :: 0 <= i < |rows| && rows[i].email == email
    ensures r.Some? ==> r.value in rows && r.value.email == email
  {
    if |rows| == 0 then None
    else if rows[0].email == email then Some(rows[0])
    else FindUserByEmail(rows[1..], email)
  }
}

/** The database client: three tables updated in place and the id generator. */
module Store {
  import opened Domain

  class Database {
    var users: seq<User>
    var requests: seq<Request>
    var approvals: seq<Approval>
    var nextId: nat

    function Snapshot(): Db
      reads this
    {
      Db(users, requests, approvals, nextId)
    }

    constructor ()
      ensures Snapshot() == Db([], [], [], 0)
    {
      users, requests, approvals, nextId := [], [], [], 0;
    }
  }
}

/** The approval workflow over any sequence of service calls: what holds of the
    tables after every call, given that `decide` is the only place approvals are
    created. */
module Workflow {
  import opened Domain
  import Repo = RequestsRepository
  import History = ApprovalsRepository
  import Requests
  import Approvals
  import Users

  /** The state-changing service calls, with their arguments. */
  datatype Op =
    | Register(body: Users.CreateUserBody)
    | Create(userId: Id, request: Requests.CreateBody, now: int)
    | Update(id: Id, userId: Id, role: string, patch: Requests.UpdateBody)
    | Decide(requestId: Id, approverId: Id, role: string, decision: Approvals.DecideBody, now: int)

  /** The tables after one call, successful or refused. */
  function Step(db: Db, op: Op, hash: string -> string): Db
  {
    match op
    case Register(body) => Users.RegisterStep(db, body, hash).1
    case Create(userId, request, now) => Requests.CreateStep(db, userId, request, now).1
    case Update(id, userId, role, patch) => Requests.UpdateStep(db, id, userId, role, patch).1
    case Decide(requestId, approverId, role, decision, now) =>
      Approvals.DecideStep(db, requestId, approverId, role, decision, now).1
  }

  function Run(db: Db, ops: seq<Op>, hash: string -> string): Db
    decreases |ops|
  {
    if |ops| == 0 then db else Run(Step(db, ops[0], hash), ops[1..], hash)
  }

  const Empty: Db := Db([], [], [], 0)

  // ---------------------------------------------------------------------------
  // The invariant

  /** The approval recorded for a request, if any. */
  function ApprovalOf(approvals: seq<Approval>, requestId: Id): (r: Option<Approval>)
    ensures r.None? <==> forall i :: 0 <= i < |approvals| ==> approvals[i].requestId != requestId
    ensures r.Some? ==> r.value in approvals && r.value.requestId == requestId
  {
    if |approvals| == 0 then None
    else if approvals[0].requestId == requestId then Some(approvals[0])
    else ApprovalOf(approvals[1..], requestId)
  }

  predicate IdsBelowCounter(db: Db)
  {
    && (forall i :: 0 <= i < |db.users| ==> db.users[i].id < db.nextId)
    && (forall i :: 0 <= i < |db.requests| ==> db.requests[i].id < db.nextId)
    && (forall i :: 0 <= i < |db.approvals| ==> db.approvals[i].id < db.nextId)
  }

  predicate UniqueIds(db: Db)
  {
    && (forall i, j :: 0 <= i < j < |db.users| ==> db.users[i].id != db.users[j].id)
    && (forall i, j :: 0 <= i < j < |db.requests| ==> db.requests[i].id != db.requests[j].id)
    && (forall i, j :: 0 <= i < j < |db.approvals| ==> db.approvals[i].id != db.approvals[j].id)
  }

  predicate UniqueEmails(db: Db)
  {
    forall i, j :: 0 <= i < j < |db.users| ==> db.users[i].email != db.users[j].email
  }

  /** No request has two approvals; in particular no approver decided one twice. */
  predicate OneApprovalPerRequest(db: Db)
  {
    forall i, j :: 0 <= i < j < |db.approvals| ==> db.approvals[i].requestId != db.approvals[j].requestId
  }

  /** Every approval belongs to a stored request, was not made by that request's
      creator, and the request's status is the approval's decision. */
  predicate ApprovalsAreSound(db: Db)
  {
    forall i :: 0 <= i < |db.approvals| ==>
      && FindRequest(db.requests, db.approvals[i].requestId).Some?
      && FindRequest(db.requests, db.approvals[i].requestId).value.createdById != db.approvals[i].approverId
      && FindRequest(db.requests, db.approvals[i].requestId).value.status == DecisionStatus(db.approvals[i].decision)
  }

  /** Every request that is no longer PENDING has an approval whose decision is its
      status. */
  predicate DecidedHaveApproval(db: Db)
  {
    forall i :: 0 <= i < |db.requests| && db.requests[i].status != Pending ==>
      && ApprovalOf(db.approvals, db.requests[i].id).Some?
      && DecisionStatus(ApprovalOf(db.approvals, db.requests[i].id).value.decision) == db.requests[i].status
  }

  predicate Invariant(db: Db)
  {
    && IdsBelowCounter(db)
    && UniqueIds(db)
    && UniqueEmails(db)
    && OneApprovalPerRequest(db)
    && ApprovalsAreSound(db)
    && DecidedHaveApproval(db)
  }

  lemma EmptyIsValid()
    ensures Invariant(Empty)
  {
  }

  // ---------------------------------------------------------------------------
  // Lookups after an append

  lemma {:induction false} FindRequestAppend(rows: seq<Request>, x: Request, id: Id)
    ensures FindRequest(rows + [x], id) ==
      if FindRequest(rows, id).Some? then FindRequest(rows, id)
      else if x.id == id then Some(x) else None
    decreases |rows|
  {
    if |rows| == 0 {
      assert rows + [x] == [x];
    } else {
      assert (rows + [x])[1..] == rows[1..] + [x];
      FindRequestAppend(rows[1..], x, id);
    }
  }

  lemma {:induction false} ApprovalOfAppend(rows: seq<Approval>, a: Approval, requestId: Id)
    ensures ApprovalOf(rows + [a], requestId) ==
      if ApprovalOf(rows, requestId).Some? then ApprovalOf(rows, requestId)
      else if a.requestId == requestId then Some(a) else None
    decreases |rows|
  {
    if |rows| == 0 {
      assert rows + [a] == [a];
    } else {
      assert (rows + [a])[1..] == rows[1..] + [a];
      ApprovalOfAppend(rows[1..], a, requestId);
    }
  }

  /** With unique ids, looking up a row's id finds that row. */
  lemma {:induction false} FindRequestOfUnique(rows: seq<Request>, i: nat)
    requires i < |rows|
    requires forall p, q :: 0 <= p < q < |rows| ==> rows[p].id != rows[q].id
    ensures FindRequest(rows, rows[i].id) == Some(rows[i])
    decreases i
  {
    if i > 0 {
      assert rows[0].id != rows[i].id;
      assert rows[1..][i - 1] == rows[i];
      FindRequestOfUnique(rows[1..], i - 1);
    }
  }

  // ---------------------------------------------------------------------------
  // Each call keeps the invariant

  lemma RegisterPreserves(db: Db, body: Users.CreateUserBody, hash: string -> string)
    requires Invariant(db)
    ensures Invariant(Users.RegisterStep(db, body, hash).1)
  {
    var (r, db') := Users.RegisterStep(db, body, hash);
    if r.Success? {
      assert forall i :: 0 <= i < |db.users| ==> db.users[i].email != body.email;
      assert db'.users[|db.users|] == r.value;
    }
  }

  lemma CreatePreserves(db: Db, userId: Id, body: Requests.CreateBody, now: int)
    requires Invariant(db)
    ensures Invariant(Requests.CreateStep(db, userId, body, now).1)
  {
    var (row, db') := Requests.CreateStep(db, userId, body, now);
    forall i | 0 <= i < |db'.approvals|
      ensures FindRequest(db'.requests, db'.approvals[i].requestId) == FindRequest(db.requests, db.approvals[i].requestId)
    {
      FindRequestAppend(db.requests, row, db.approvals[i].requestId);
    }
    assert db'.requests[|db.requests|] == row;
  }

  lemma UpdatePreserves(db: Db, id: Id, userId: Id, role: string, body: Requests.UpdateBody)
    requires Invariant(db)
    ensures Invariant(Requests.UpdateStep(db, id, userId, role, body).1)
  {
    var (r, db') := Requests.UpdateStep(db, id, userId, role, body);
    if r.Success? {
      var patch := Requests.PatchOf(body);
      forall i | 0 <= i < |db.requests|
        ensures db'.requests[i].id == db.requests[i].id
        ensures db'.requests[i].status == db.requests[i].status
        ensures db'.requests[i].createdById == db.requests[i].createdById
      {
      }
      forall i | 0 <= i < |db'.approvals|
        ensures FindRequest(db'.requests, db'.approvals[i].requestId).Some?
        ensures FindRequest(db'.requests, db'.approvals[i].requestId).value.status
             == FindRequest(db.requests, db.approvals[i].requestId).value.status
        ensures FindRequest(db'.requests, db'.approvals[i].requestId).value.createdById
             == FindRequest(db.requests, db.approvals[i].requestId).value.createdById
      {
        Repo.FindAfterUpdate(db.requests, id, patch, db.approvals[i].requestId);
      }
    }
  }

  /** On a valid store, a PENDING request has no approval yet. */
  lemma PendingHasNoApproval(db: Db, requestId: Id)
    requires Invariant(db)
    requires FindRequest(db.requests, requestId).Some? && FindRequest(db.requests, requestId).value.status == Pending
    ensures forall i :: 0 <= i < |db.approvals| ==> db.approvals[i].requestId != requestId
  {
  }

  /** The state a successful `decide` leaves, from a valid store. */
  predicate DecidedFrom(db: Db, db': Db, requestId: Id, a: Approval)
  {
    && FindRequest(db.requests, requestId).Some?
    && FindRequest(db.requests, requestId).value.status == Pending
    && FindRequest(db.requests, requestId).value.createdById != a.approverId
    && a.requestId == requestId && a.id == db.nextId
    && db'.users == db.users
    && db'.nextId == db.nextId + 1
    && db'.approvals == db.approvals + [a]
    && db'.requests == Repo.UpdateRows(db.requests, requestId, Repo.RequestPatch(Repo.Keep, Repo.Keep, Repo.Set(DecisionStatus(a.decision))))
  }

  lemma DecideKeepsIds(db: Db, db': Db, requestId: Id, a: Approval)
    requires Invariant(db) && DecidedFrom(db, db', requestId, a)
    ensures IdsBelowCounter(db') && UniqueIds(db') && UniqueEmails(db')
  {
    forall i | 0 <= i < |db.requests|
      ensures db'.requests[i].id == db.requests[i].id
    {
    }
  }

  lemma DecideKeepsOneApproval(db: Db, db': Db, requestId: Id, a: Approval)
    requires Invariant(db) && DecidedFrom(db, db', requestId, a)
    ensures OneApprovalPerRequest(db')
  {
    PendingHasNoApproval(db, requestId);
    forall i, j | 0 <= i < j < |db'.approvals|
      ensures db'.approvals[i].requestId != db'.approvals[j].requestId
    {
      if j == |db.approvals| {
        assert db'.approvals[j] == a;
        assert db'.approvals[i] == db.approvals[i];
      }
    }
  }

  lemma DecideKeepsSoundApprovals(db: Db, db': Db, requestId: Id, a: Approval)
    requires Invariant(db) && DecidedFrom(db, db', requestId, a)
    ensures ApprovalsAreSound(db')
  {
    var patch := Repo.RequestPatch(Repo.Keep, Repo.Keep, Repo.Set(DecisionStatus(a.decision)));
    PendingHasNoApproval(db, requestId);
    forall i | 0 <= i < |db'.approvals|
      ensures FindRequest(db'.requests, db'.approvals[i].requestId).Some?
      ensures FindRequest(db'.requests, db'.approvals[i].requestId).value.createdById != db'.approvals[i].approverId
      ensures FindRequest(db'.requests, db'.approvals[i].requestId).value.status == DecisionStatus(db'.approvals[i].decision)
    {
      Repo.FindAfterUpdate(db.requests, requestId, patch, db'.approvals[i].requestId);
      if i < |db.approvals| {
        assert db'.approvals[i] == db.approvals[i];
      } else {
        assert db'.approvals[i] == a;
      }
    }
  }

  lemma DecideKeepsDecidedApproved(db: Db, db': Db, requestId: Id, a: Approval)
    requires Invariant(db) && DecidedFrom(db, db', requestId, a)
    ensures DecidedHaveApproval(db')
  {
    PendingHasNoApproval(db, requestId);
    forall i | 0 <= i < |db'.requests| && db'.requests[i].status != Pending
      ensures ApprovalOf(db'.approvals, db'.requests[i].id).Some?
      ensures DecisionStatus(ApprovalOf(db'.approvals, db'.requests[i].id).value.decision) == db'.requests[i].status
    {
      assert db'.requests[i].id == db.requests[i].id;
      ApprovalOfAppend(db.approvals, a, db.requests[i].id);
    }
  }

  lemma DecidePreserves(db: Db, requestId: Id, approverId: Id, role: string, body: Approvals.DecideBody, now: int)
    requires Invariant(db)
    ensures Invariant(Approvals.DecideStep(db, requestId, approverId, role, body, now).1)
  {
    var (r, db') := Approvals.DecideStep(db, requestId, approverId, role, body, now);
    if r.Success? {
      var a := Approval(db.nextId, requestId, approverId, body.decision, body.note, now);
      assert DecidedFrom(db, db', requestId, a);
      DecideKeepsIds(db, db', requestId, a);
      DecideKeepsOneApproval(db, db', requestId, a);
      DecideKeepsSoundApprovals(db, db', requestId, a);
      DecideKeepsDecidedApproved(db, db', requestId, a);
    }
  }

  lemma StepPreservesInvariant(db: Db, op: Op, hash: string -> string)
    requires Invariant(db)
    ensures Invariant(Step(db, op, hash))
  {
    match op
    case Register(body) => RegisterPreserves(db, body, hash);
    case Create(userId, request, now) => CreatePreserves(db, userId, request, now);
    case Update(id, userId, role, patch) => UpdatePreserves(db, id, userId, role, patch);
    case Decide(requestId, approverId, role, decision, now) =>
      DecidePreserves(db, requestId, approverId, role, decision, now);
  }

  /** The invariant holds after any sequence of calls from an empty store, or from
      any store where it already holds. */
  lemma {:induction false} RunPreservesInvariant(db: Db, ops: seq<Op>, hash: string -> string)
    requires Invariant(db)
    ensures Invariant(Run(db, ops, hash))
    decreases |ops|
  {
    if |ops| > 0 {
      StepPreservesInvariant(db, ops[0], hash);
      RunPreservesInvariant(Step(db, ops[0], hash), ops[1..], hash);
    }
  }

  /** The system-level guarantees, over every reachable store: at most one approval per
      (request, approver) pair, none by the request's own creator, and every decided
      request carries an approval with its status as decision. */
  lemma ReachableGuarantees(ops: seq<Op>, hash: string -> string)
    ensures var db := Run(Empty, ops, hash);
      && (forall i, j :: 0 <= i < j < |db.approvals| ==>
            !(db.approvals[i].requestId == db.approvals[j].requestId && db.approvals[i].approverId == db.approvals[j].approverId))
      && (forall i :: 0 <= i < |db.approvals| ==>
            && FindRequest(db.requests, db.approvals[i].requestId).Some?
            && FindRequest(db.requests, db.approvals[i].requestId).value.createdById != db.approvals[i].approverId)
      && (forall i :: 0 <= i < |db.requests| && db.requests[i].status != Pending ==>
            exists k :: 0 <= k < |db.approvals| && db.approvals[k].requestId == db.requests[i].id
                     && DecisionStatus(db.approvals[k].decision) == db.requests[i].status)
  {
    EmptyIsValid();
    RunPreservesInvariant(Empty, ops, hash);
    var db := Run(Empty, ops, hash);
    forall i | 0 <= i < |db.requests| && db.requests[i].status != Pending
      ensures exists k :: 0 <= k < |db.approvals| && db.approvals[k].requestId == db.requests[i].id
                       && DecisionStatus(db.approvals[k].decision) == db.requests[i].status
    {
      var a := ApprovalOf(db.approvals, db.requests[i].id).value;
      var k :| 0 <= k < |db.approvals| && db.approvals[k] == a;
    }
  }

  /** On a valid store the Conflict branch of `decide` is never taken: an earlier
      approval by the same approver means the request is already decided, which is
      reported first. Only a concurrent decision could reach it. */
  lemma ConflictUnreachable(db: Db, requestId: Id, approverId: Id, role: string, body: Approvals.DecideBody, now: int)
    requires Invariant(db)
    ensures Approvals.DecideStep(db, requestId, approverId, role, body, now).0 != Failure(Conflict("You have already decided this request"))
  {
    if role == "APPROVER" && FindRequest(db.requests, requestId).Some?
       && FindRequest(db.requests, requestId).value.status == Pending {
      PendingHasNoApproval(db, requestId);
    }
  }

  // ---------------------------------------------------------------------------
  // How statuses evolve

  /** Calls other than `decide` never touch an existing request's status and never
      record an approval. */
  lemma OnlyDecideChangesStatus(db: Db, op: Op, hash: string -> string)
    requires !op.Decide?
    ensures var db' := Step(db, op, hash);
      && db'.approvals == db.approvals
      && |db'.requests| >= |db.requests|
      && forall i :: 0 <= i < |db.requests| ==> db'.requests[i].status == db.requests[i].status
  {
  }

  /** `decide` changes at most the status of the rows with the decided id, from PENDING
      to the decision, and only appends to the approvals. */
  lemma DecideChangesOnlyItsRequest(db: Db, requestId: Id, approverId: Id, role: string, body: Approvals.DecideBody, now: int)
    ensures var db' := Approvals.DecideStep(db, requestId, approverId, role, body, now).1;
      && |db'.requests| == |db.requests|
      && db'.approvals[..|db.approvals|] == db.approvals
      && forall i :: 0 <= i < |db.requests| && db'.requests[i].status != db.requests[i].status ==>
           db.requests[i].id == requestId && db'.requests[i].status == DecisionStatus(body.decision)
  {
  }

  /** On a valid store, a request that is APPROVED or REJECTED is left exactly as it is
      by every call: neither `update` nor `decide` can reach it. */
  lemma DecidedRowIsFinal(db: Db, op: Op, hash: string -> string, i: nat)
    requires Invariant(db)
    requires i < |db.requests| && db.requests[i].status != Pending
    ensures i < |Step(db, op, hash).requests| && Step(db, op, hash).requests[i] == db.requests[i]
  {
    FindRequestOfUnique(db.requests, i);
    match op
    case Register(_) =>
    case Create(_, _, _) =>
    case Update(id, userId, role, patch) =>
    case Decide(requestId, approverId, role, decision, now) =>
  }

  /** Once decided, always decided: over any sequence of calls the row stays as it was. */
  lemma {:induction false} DecidedIsFinal(db: Db, ops: seq<Op>, hash: string -> string, i: nat)
    requires Invariant(db)
    requires i < |db.requests| && db.requests[i].status != Pending
    ensures i < |Run(db, ops, hash).requests| && Run(db, ops, hash).requests[i] == db.requests[i]
    decreases |ops|
  {
    if |ops| > 0 {
      DecidedRowIsFinal(db, ops[0], hash, i);
      StepPreservesInvariant(db, ops[0], hash);
      DecidedIsFinal(Step(db, ops[0], hash), ops[1..], hash, i);
    }
  }

  // ---------------------------------------------------------------------------
  // A session from an empty store

  /** A CREATOR and an APPROVER register, the CREATOR files "X", the APPROVER approves
      it with note "ok". Then the request reads as APPROVED, the owner's edit and a
      second decision are both refused as bad requests, and the history holds exactly
      the one approval, with the approver's public fields. */
  lemma ApprovalScenario(hash: string -> string, t1: int, t2: int, t3: int)
    ensures
      var a := Users.CreateUserBody("a@example.test", None, "password1", Creator);
      var b := Users.CreateUserBody("b@example.test", None, "password2", Approver);
      var (ra, db1) := Users.RegisterStep(Empty, a, hash);
      var (rb, db2) := Users.RegisterStep(db1, b, hash);
      var (request, db3) := Requests.CreateStep(db2, ra.value.id, Requests.CreateBody("X", None), t1);
      var (decided, db4) := Approvals.DecideStep(db3, request.id, rb.value.id, "APPROVER",
                                                 Approvals.DecideBody(Approve, Some("ok")), t2);
      && ra.Success? && rb.Success?
      && decided == Success(Approvals.DecideResult(request.id, Approve, Approved))
      && Requests.FindById(db4, request.id, ra.value.id, "CREATOR").Success?
      && Requests.FindById(db4, request.id, ra.value.id, "CREATOR").value.request.status == Approved
      && Requests.UpdateStep(db4, request.id, ra.value.id, "CREATOR", Requests.UpdateBody(Repo.Set("Y"), Repo.Keep))
           == (Failure(BadRequest("Only PENDING request can be updated")), db4)
      && Approvals.DecideStep(db4, request.id, rb.value.id, "APPROVER", Approvals.DecideBody(Reject, Some("again")), t3)
           == (Failure(BadRequest("Request is already decided")), db4)
      && Approvals.FindHistory(db4, request.id, ra.value.id, "CREATOR")
           == Success([History.HistoryEntry(Approval(3, request.id, rb.value.id, Approve, Some("ok"), t2),
                                            Some(ApproverSummary(1, "b@example.test", None)))])
  {
    var a := Users.CreateUserBody("a@example.test", None, "password1", Creator);
    var b := Users.CreateUserBody("b@example.test", None, "password2", Approver);
    var userA := User(0, "a@example.test", None, hash("password1"), Creator);
    var userB := User(1, "b@example.test", None, hash("password2"), Approver);
    var db1 := Db([userA], [], [], 1);
    assert Empty.users + [userA] == [userA];
    assert Users.RegisterStep(Empty, a, hash) == (Success(userA), db1);
    var db2 := Db([userA, userB], [], [], 2);
    assert FindUserByEmail(db1.users, b.email).None?;
    assert db1.users + [userB] == [userA, userB];
    assert Users.RegisterStep(db1, b, hash) == (Success(userB), db2);
    var r := Request(2, "X", None, Pending, 0, t1);
    var db3 := Db([userA, userB], [r], [], 3);
    assert db2.requests + [r] == [r];
    assert Requests.CreateStep(db2, 0, Requests.CreateBody("X", None), t1) == (r, db3);
    assert FindRequest(db3.requests, 2) == Some(r);
    var approval := Approval(3, 2, 1, Approve, Some("ok"), t2);
    var decidedRow := r.(status := Approved);
    var db4 := Db([userA, userB], [decidedRow], [approval], 4);
    assert Repo.UpdateRows(db3.requests, 2, Repo.RequestPatch(Repo.Keep, Repo.Keep, Repo.Set(Approved))) == [decidedRow];
    assert db3.approvals + [approval] == [approval];
    assert Approvals.Commit(db3, 2, 1, Approvals.DecideBody(Approve, Some("ok")), t2) == db4;
    assert Approvals.DecideStep(db3, 2, 1, "APPROVER", Approvals.DecideBody(Approve, Some("ok")), t2)
        == (Success(Approvals.DecideResult(2, Approve, Approved)), db4);
    assert FindRequest(db4.requests, 2) == Some(decidedRow);
    assert History.OfRequest(db4.approvals, 2) == [approval];
    assert FindUserById(db4.users, 1) == Some(userB);
    var entries := History.FindManyByRequestId(db4.approvals, db4.users, 2);
    assert |entries| == 1;
    assert entries[0].approval in db4.approvals;
    assert entries == [History.HistoryEntry(approval, Some(ApproverSummary(1, "b@example.test", None)))];
  }
}

/** The approval decision and the approval history. */
module Approvals {
  import opened Domain
  import opened Js
  import opened Validators
  import Repo = RequestsRepository
  import History = ApprovalsRepository
  import Store

  /** A validated `DecideApprovalDto`. */
  datatype DecideBody = DecideBody(decision: Decision, note: Option<string>)

  /** `DecideApprovalDto`: the decision is exactly "APPROVED" or "REJECTED"; the note
      is absent, null or a string. */
  function ParseDecideApproval(body: map<string, JsValue>): (r: Option<DecideBody>)
    ensures r.Some? <==> IsIn(Get(body, "decision"), ["APPROVED", "REJECTED"]) && OptionalString(Get(body, "note"))
    ensures r.Some? ==> Get(body, "decision") == Str(DecisionName(r.value.decision))
    ensures r.Some? ==> r.value.note == OptionalText(Get(body, "note"))
  {
    var decision := Get(body, "decision");
    var note := Get(body, "note");
    if IsIn(decision, ["APPROVED", "REJECTED"]) && OptionalString(note) then
      Some(DecideBody(if decision.s == "APPROVED" then Approve else Reject, OptionalText(note)))
    else None
  }

  /** Both decisions are accepted and read back as sent; any other decision string,
      such as "INVALID" or "PENDING", is refused. */
  lemma DecisionValidation(d: Decision, other: string)
    requires other != "APPROVED" && other != "REJECTED"
    ensures ParseDecideApproval(map["decision" := Str(DecisionName(d))]) == Some(DecideBody(d, None))
    ensures ParseDecideApproval(map["decision" := Str(other)]).None?
  {
  }

  /** What `decide` answers. */
  datatype DecideResult = DecideResult(requestId: Id, decision: Decision, status: Status)

  /** The two writes of the transaction: the approval row and the status change. */
  function Commit(db: Db, requestId: Id, approverId: Id, body: DecideBody, now: int): (db': Db)
    ensures db'.users == db.users && db'.nextId == db.nextId + 1
    ensures db'.approvals == db.approvals + [Approval(db.nextId, requestId, approverId, body.decision, body.note, now)]
    ensures db'.requests == Repo.UpdateRows(db.requests, requestId, Repo.RequestPatch(Repo.Keep, Repo.Keep, Repo.Set(DecisionStatus(body.decision))))
  {
    db.(approvals := db.approvals + [Approval(db.nextId, requestId, approverId, body.decision, body.note, now)],
        requests := Repo.UpdateRows(db.requests, requestId, Repo.RequestPatch(Repo.Keep, Repo.Keep, Repo.Set(DecisionStatus(body.decision)))),
        nextId := db.nextId + 1)
  }

  /** `decide`: the checks in their order, each with its error, and every failure
      before the transaction, so a refused call leaves both tables as they were. */
  function DecideStep(db: Db, requestId: Id, approverId: Id, role: string, body: DecideBody, now: int)
    : (out: (Result<DecideResult>, Db))
    ensures var (r, db') := out;
      && (role != "APPROVER" ==> r == Failure(Forbidden("Only APPROVER can approve or reject")))
      && (role == "APPROVER" && FindRequest(db.requests, requestId).None? ==>
            r == Failure(NotFound("Request not found")))
      && (role == "APPROVER" && FindRequest(db.requests, requestId).Some? ==>
            var request := FindRequest(db.requests, requestId).value;
            && (request.createdById == approverId ==>
                  r == Failure(Forbidden("Cannot approve or reject your own request")))
            && (request.createdById != approverId && request.status != Pending ==>
                  r == Failure(BadRequest("Request is already decided")))
            && (request.createdById != approverId && request.status == Pending
                && History.FindExisting(db.approvals, requestId, approverId).Some? ==>
                  r == Failure(Conflict("You have already decided this request"))))
      && (r.Failure? ==> db' == db)
      && (r.Success? <==>
            && role == "APPROVER"
            && FindRequest(db.requests, requestId).Some?
            && FindRequest(db.requests, requestId).value.createdById != approverId
            && FindRequest(db.requests, requestId).value.status == Pending
            && History.FindExisting(db.approvals, requestId, approverId).None?)
      && (r.Success? ==>
            && r.value == DecideResult(requestId, body.decision, DecisionStatus(body.decision))
            && StatusName(r.value.status) == DecisionName(r.value.decision)
            && db' == Commit(db, requestId, approverId, body, now))
  {
    if role != "APPROVER" then (Failure(Forbidden("Only APPROVER can approve or reject")), db)
    else match FindRequest(db.requests, requestId)
      case None => (Failure(NotFound("Request not found")), db)
      case Some(request) =>
        if request.createdById == approverId then (Failure(Forbidden("Cannot approve or reject your own request")), db)
        else if request.status != Pending then (Failure(BadRequest("Request is already decided")), db)
        else if History.FindExisting(db.approvals, requestId, approverId).Some? then
          (Failure(Conflict("You have already decided this request")), db)
        else
          var status := if body.decision == Approve then Approved else Rejected;
          (Success(DecideResult(requestId, body.decision, status)), Commit(db, requestId, approverId, body, now))
  }

  /** After a successful decision the request reads back with the decided status and
      otherwise as before, every other request is untouched, and the history of the
      request gains exactly the new approval. */
  lemma DecideEffect(db: Db, requestId: Id, approverId: Id, body: DecideBody, now: int, other: Id)
    requires DecideStep(db, requestId, approverId, "APPROVER", body, now).0.Success?
    ensures var db' := DecideStep(db, requestId, approverId, "APPROVER", body, now).1;
      var before := FindRequest(db.requests, requestId).value;
      && FindRequest(db'.requests, requestId) == Some(before.(status := DecisionStatus(body.decision)))
      && (other != requestId ==> FindRequest(db'.requests, other) == FindRequest(db.requests, other))
      && History.OfRequest(db'.approvals, requestId)
           == History.OfRequest(db.approvals, requestId) + [Approval(db.nextId, requestId, approverId, body.decision, body.note, now)]
  {
    var patch := Repo.RequestPatch(Repo.Keep, Repo.Keep, Repo.Set(DecisionStatus(body.decision)));
    Repo.FindAfterUpdate(db.requests, requestId, patch, requestId);
    Repo.FindAfterUpdate(db.requests, requestId, patch, other);
    OfRequestAppend(db.approvals, Approval(db.nextId, requestId, approverId, body.decision, body.note, now), requestId);
  }

  lemma {:induction false} OfRequestAppend(rows: seq<Approval>, a: Approval, requestId: Id)
    ensures History.OfRequest(rows + [a], requestId)
         == History.OfRequest(rows, requestId) + (if a.requestId == requestId then [a] else [])
    decreases |rows|
  {
    if |rows| == 0 {
      assert rows + [a] == [a];
      assert History.OfRequest([a], requestId) == (if a.requestId == requestId then [a] else []) + History.OfRequest([], requestId);
    } else {
      assert (rows + [a])[1..] == rows[1..] + [a];
      OfRequestAppend(rows[1..], a, requestId);
    }
  }

  /** A second decision on the same request, by anyone, is refused as already decided
      and changes nothing. */
  lemma SecondDecisionRefused(db: Db, requestId: Id, approverId: Id, body: DecideBody, now: int,
                              approverId2: Id, body2: DecideBody, now2: int)
    requires DecideStep(db, requestId, approverId, "APPROVER", body, now).0.Success?
    ensures var db' := DecideStep(db, requestId, approverId, "APPROVER", body, now).1;
      var request := FindRequest(db'.requests, requestId).value;
      request.createdById != approverId2 ==>
        DecideStep(db', requestId, approverId2, "APPROVER", body2, now2) == (Failure(BadRequest("Request is already decided")), db')
  {
    DecideEffect(db, requestId, approverId, body, now, requestId);
  }

  /** `findHistoryByRequestId`: NotFound before ownership, Forbidden for a CREATOR who
      does not own the request, and otherwise exactly that request's approvals. */
  function FindHistory(db: Db, requestId: Id, userId: Id, role: string): (r: Result<seq<History.HistoryEntry>>)
    ensures FindRequest(db.requests, requestId).None? ==> r == Failure(NotFound("Request not found"))
    ensures FindRequest(db.requests, requestId).Some? ==>
      var request := FindRequest(db.requests, requestId).value;
      && (role == "CREATOR" && request.createdById != userId ==> r == Failure(Forbidden("Forbidden")))
      && (role != "CREATOR" || request.createdById == userId ==>
            r == Success(History.FindManyByRequestId(db.approvals, db.users, requestId)))
    ensures r.Success? ==> forall k :: 0 <= k < |r.value| ==>
      r.value[k].approval in db.approvals && r.value[k].approval.requestId == requestId
  {
    match FindRequest(db.requests, requestId)
    case None => Failure(NotFound("Request not found"))
    case Some(request) =>
      if role == "CREATOR" && request.createdById != userId then Failure(Forbidden("Forbidden"))
      else Success(History.FindManyByRequestId(db.approvals, db.users, requestId))
  }

  class ApprovalsService {
    const db: Store.Database

    constructor (db: Store.Database)
      ensures this.db == db
    {
      this.db := db;
    }

    /** `decide` on the live tables: the same checks, then both writes at once. */
    method Decide(requestId: Id, approverId: Id, role: string, body: DecideBody, now: int)
      returns (r: Result<DecideResult>)
      modifies db
      ensures (r, db.Snapshot()) == DecideStep(old(db.Snapshot()), requestId, approverId, role, body, now)
    {
      if role != "APPROVER" {
        return Failure(Forbidden("Only APPROVER can approve or reject"));
      }
      var request := FindRequest(db.requests, requestId);
      if request.None? {
        return Failure(NotFound("Request not found"));
      }
      if request.value.createdById == approverId {
        return Failure(Forbidden("Cannot approve or reject your own request"));
      }
      if request.value.status != Pending {
        return Failure(BadRequest("Request is already decided"));
      }
      var existing := History.FindExisting(db.approvals, requestId, approverId);
      if existing.Some? {
        return Failure(Conflict("You have already decided this request"));
      }
      var newStatus := if body.decision == Approve then Approved else Rejected;
      var approval := Approval(db.nextId, requestId, approverId, body.decision, body.note, now);
      db.approvals := db.approvals + [approval];
      db.requests := Repo.UpdateRows(db.requests, requestId, Repo.RequestPatch(Repo.Keep, Repo.Keep, Repo.Set(newStatus)));
      db.nextId := db.nextId + 1;
      r := Success(DecideResult(requestId, body.decision, newStatus));
    }
  }
}

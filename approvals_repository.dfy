/** The approval repository's two queries. */
module ApprovalsRepository {
  import opened Domain
  import opened Sorting

  /** An approval with its `approver` include: id, email and name, never the password. */
  datatype HistoryEntry = HistoryEntry(approval: Approval, approver: Option<ApproverSummary>)

  /** The approvals of one request, in table order. */
  function OfRequest(rows: seq<Approval>, requestId: Id): (r: seq<Approval>)
    ensures forall a :: a in r <==> a in rows && a.requestId == requestId
    ensures |r| <= |rows|
  {
    if |rows| == 0 then []
    else if rows[0].requestId == requestId then [rows[0]] + OfRequest(rows[1..], requestId)
    else OfRequest(rows[1..], requestId)
  }

  /** Each approval of the request appears as often as the table holds it, and no
      approval of another request appears. */
  lemma {:induction false} OfRequestMultiplicity(rows: seq<Approval>, requestId: Id)
    ensures forall a :: multiset(OfRequest(rows, requestId))[a] == if a.requestId == requestId then multiset(rows)[a] else 0
    decreases |rows|
  {
    if |rows| > 0 {
      assert rows == [rows[0]] + rows[1..];
      OfRequestMultiplicity(rows[1..], requestId);
    }
  }

  function ApprovedAtKey(a: Approval): int
  {
    a.approvedAt
  }

  function ApproverSummaryOf(users: seq<User>, a: Approval): (s: Option<ApproverSummary>)
    ensures s.Some? <==> FindUserById(users, a.approverId).Some?
    ensures s.Some? ==> s.value == ApproverOf(FindUserById(users, a.approverId).value)
  {
    match FindUserById(users, a.approverId)
    case None => None
    case Some(u) => Some(ApproverOf(u))
  }

  /** `findManyByRequestId`: exactly the approvals of that request, oldest first, each
      with its approver's public fields. */
  function FindManyByRequestId(approvals: seq<Approval>, users: seq<User>, requestId: Id)
    : (r: seq<HistoryEntry>)
    ensures multiset(seq(|r|, k requires 0 <= k < |r| => r[k].approval)) == multiset(OfRequest(approvals, requestId))
    ensures forall k :: 0 <= k < |r| ==>
      && r[k].approval in approvals
      && r[k].approval.requestId == requestId
      && r[k].approver == ApproverSummaryOf(users, r[k].approval)
    ensures forall i, j :: 0 <= i < j < |r| ==> r[i].approval.approvedAt <= r[j].approval.approvedAt
  {
    var ordered := SortBy(OfRequest(approvals, requestId), ApprovedAtKey);
    var r := seq(|ordered|, k requires 0 <= k < |ordered| => HistoryEntry(ordered[k], ApproverSummaryOf(users, ordered[k])));
    assert seq(|r|, k requires 0 <= k < |r| => r[k].approval) == ordered;
    forall k | 0 <= k < |r|
      ensures r[k].approval in approvals && r[k].approval.requestId == requestId
    {
      assert r[k].approval == ordered[k];
      assert ordered[k] in multiset(ordered);
    }
    r
  }

  /** `findExisting`: the first approval recorded for that request by that approver. */
  function FindExisting(approvals: seq<Approval>, requestId: Id, approverId: Id): (r: Option<Approval>)
    ensures r.None? <==> forall a :: a in approvals ==> !(a.requestId == requestId && a.approverId == approverId)
    ensures r.Some? ==> r.value in approvals && r.value.requestId == requestId && r.value.approverId == approverId
  {
    if |approvals| == 0 then None
    else if approvals[0].requestId == requestId && approvals[0].approverId == approverId then Some(approvals[0])
    else FindExisting(approvals[1..], requestId, approverId)
  }
}

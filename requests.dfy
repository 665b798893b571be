/** The request lifecycle: body validation, the requests service and the
    controller's defaults. */
module Requests {
  import opened Domain
  import opened Js
  import opened Validators
  import Repo = RequestsRepository
  import Store

  // ---------------------------------------------------------------------------
  // Bodies and query strings

  /** A validated `CreateRequestDto`. */
  datatype CreateBody = CreateBody(title: string, description: Option<string>)

  /** `CreateRequestDto`: a title that is a string of at least one character, and a
      description that is absent, null or a string. */
  function ParseCreateRequest(body: map<string, JsValue>): (r: Option<CreateBody>)
    ensures r.Some? <==> MinLength(Get(body, "title"), 1) && OptionalString(Get(body, "description"))
    ensures r.Some? ==> |r.value.title| >= 1
    ensures r.Some? ==> Str(r.value.title) == Get(body, "title")
    ensures r.Some? ==> r.value.description == OptionalText(Get(body, "description"))
  {
    var title := Get(body, "title");
    var description := Get(body, "description");
    if MinLength(title, 1) && OptionalString(description) then
      Some(CreateBody(title.s, OptionalText(description)))
    else None
  }

  /** The body a client sends for a given create request. */
  function CreateBodyJs(b: CreateBody): map<string, JsValue>
  {
    if b.description.Some? then map["title" := Str(b.title), "description" := Str(b.description.value)]
    else map["title" := Str(b.title)]
  }

  /** Every body with a non-empty title is accepted and read back as sent. */
  lemma CreateBodyRoundTrip(b: CreateBody)
    requires |b.title| >= 1
    ensures ParseCreateRequest(CreateBodyJs(b)) == Some(b)
  {
  }

  /** An empty title is refused, with or without a description. */
  lemma EmptyTitleRejected(description: JsValue)
    ensures ParseCreateRequest(map["title" := Str(""), "description" := description]).None?
    ensures ParseCreateRequest(map["description" := description]).None?
  {
  }

  /** A validated `UpdateRequestDto`, as the fields of the store's `data`. */
  datatype UpdateBody = UpdateBody(title: Repo.Patch<string>, description: Repo.Patch<Option<string>>)

  /** `UpdateRequestDto`: each field may be absent or null; a present title is a
      string of at least one character, a present description a string. An absent
      field is not written; a null description clears the stored one. */
  function ParseUpdateRequest(body: map<string, JsValue>): (r: Option<UpdateBody>)
    ensures r.Some? <==>
      && (Skipped(Get(body, "title")) || MinLength(Get(body, "title"), 1))
      && OptionalString(Get(body, "description"))
    ensures r.Some? ==>
      && (Get(body, "title").Str? <==> r.value.title.Set?)
      && (r.value.title.Set? ==> Str(r.value.title.value) == Get(body, "title") && |r.value.title.value| >= 1)
      && (Get(body, "description").Undefined? <==> r.value.description.Keep?)
      && (r.value.description.Set? ==> r.value.description.value == OptionalText(Get(body, "description")))
  {
    var title := Get(body, "title");
    var description := Get(body, "description");
    if (Skipped(title) || MinLength(title, 1)) && OptionalString(description) then
      Some(UpdateBody(
        if title.Str? then Repo.Set(title.s) else Repo.Keep,
        if description.Undefined? then Repo.Keep else Repo.Set(OptionalText(description))))
    else None
  }

  /** The empty body is a valid update that writes nothing. */
  lemma EmptyUpdateIsValid()
    ensures ParseUpdateRequest(map[]) == Some(UpdateBody(Repo.Keep, Repo.Keep))
  {
  }

  /** An empty title is refused in an update too. */
  lemma EmptyUpdateTitleRejected(description: JsValue)
    ensures ParseUpdateRequest(map["title" := Str(""), "description" := description]).None?
  {
  }

  /** `ListRequestsQueryDto.status`: absent, or one of the three status names. The
      accepted names are exactly the statuses the service filters by. */
  function ParseStatusFilter(query: map<string, JsValue>): (r: Option<Option<Status>>)
    ensures r.Some? <==> Skipped(Get(query, "status")) || IsIn(Get(query, "status"), ["PENDING", "APPROVED", "REJECTED"])
    ensures r == Some(None) <==> Skipped(Get(query, "status"))
    ensures r.Some? && r.value.Some? ==> Get(query, "status") == Str(StatusName(r.value.value))
  {
    var status := Get(query, "status");
    if Skipped(status) then Some(None)
    else if status.Str? then
      match ParseStatus(status.s)
      case None => None
      case Some(s) => Some(Some(s))
    else None
  }

  /** Every status name is accepted as a filter for that status. */
  lemma StatusFilterAcceptsEveryStatus(s: Status)
    ensures ParseStatusFilter(map["status" := Str(StatusName(s))]) == Some(Some(s))
  {
  }

  // ---------------------------------------------------------------------------
  // The service

  /** The `where` of `findMany`: a CREATOR only ever sees their own rows; every other
      role sees all rows. A status filter narrows either. */
  function ScopeOf(userId: Id, role: string, status: Option<Status>): (w: Repo.Where)
    ensures w.status == status
    ensures w.createdById.Some? <==> role == "CREATOR"
    ensures w.createdById.Some? ==> w.createdById.value == userId
  {
    if role == "CREATOR" then Repo.Where(Some(userId), status) else Repo.Where(None, status)
  }

  /** The rows `findMany` pages through. */
  function Visible(db: Db, userId: Id, role: string, status: Option<Status>): seq<Request>
  {
    Repo.Filter(db.requests, ScopeOf(userId, role, status))
  }

  /** `(page - 1) * limit`. */
  function SkipOf(page: int, limit: int): (skip: nat)
    requires page >= 1 && limit >= 0
    ensures skip == (page - 1) * limit
  {
    var p: nat := page - 1;
    var l: nat := limit;
    p * l
  }

  datatype ListResult = ListResult(items: seq<Repo.RequestView>, total: nat, page: int, limit: int)

  function ItemRequests(items: seq<Repo.RequestView>): (r: seq<Request>)
    ensures |r| == |items|
    ensures forall k :: 0 <= k < |items| ==> r[k] == items[k].request
  {
    seq(|items|, k requires 0 <= k < |items| => items[k].request)
  }

  /** `findMany`: one page of the caller's visible requests, newest first, with the
      total of visible requests and the page and limit echoed back. */
  function FindMany(db: Db, userId: Id, role: string, page: int, limit: int, status: Option<Status>)
    : (r: ListResult)
    requires page >= 1 && limit >= 0
    ensures r.page == page && r.limit == limit
    ensures r.total == |Visible(db, userId, role, status)|
    ensures var skip := (page - 1) * limit;
      |r.items| == if skip >= r.total then 0 else if limit < r.total - skip then limit else r.total - skip
    ensures forall k :: 0 <= k < |r.items| ==>
      && r.items[k].request in db.requests
      && (role == "CREATOR" ==> r.items[k].request.createdById == userId)
      && (status.Some? ==> r.items[k].request.status == status.value)
      && r.items[k].request == Repo.NewestFirst(Visible(db, userId, role, status))[SkipOf(page, limit) + k]
  {
    var where := ScopeOf(userId, role, status);
    ListResult(
      Repo.FindMany(db.requests, db.users, where, SkipOf(page, limit), limit),
      Repo.Count(db.requests, where),
      page,
      limit)
  }

  /** The total does not depend on the window asked for. */
  lemma TotalIgnoresWindow(db: Db, userId: Id, role: string, status: Option<Status>,
                           page1: int, limit1: int, page2: int, limit2: int)
    requires page1 >= 1 && limit1 >= 0 && page2 >= 1 && limit2 >= 0
    ensures FindMany(db, userId, role, page1, limit1, status).total
         == FindMany(db, userId, role, page2, limit2, status).total
  {
  }

  /** A first page at least as wide as the total lists every visible request: all of a
      CREATOR's own rows, and every row for other roles. */
  lemma FirstPageListsAll(db: Db, userId: Id, role: string, limit: int, status: Option<Status>, x: Request)
    requires limit >= |Visible(db, userId, role, status)|
    requires x in db.requests
    requires role == "CREATOR" ==> x.createdById == userId
    requires status.Some? ==> x.status == status.value
    ensures x in ItemRequests(FindMany(db, userId, role, 1, limit, status).items)
  {
    var visible := Visible(db, userId, role, status);
    var ordered := Repo.NewestFirst(visible);
    var r := FindMany(db, userId, role, 1, limit, status);
    var items := ItemRequests(r.items);
    assert SkipOf(1, limit) == 0;
    assert |r.items| == |ordered|;
    assert x in visible;
    assert x in multiset(ordered);
    var k :| 0 <= k < |ordered| && ordered[k] == x;
    assert r.items[k].request == ordered[k];
    assert items[k] == x;
  }

  /** `findById`: NotFound for an unknown id, whatever the caller; Forbidden for a
      CREATOR who does not own the request; any other role reads any request. */
  function FindById(db: Db, id: Id, userId: Id, role: string): (r: Result<Repo.RequestView>)
    ensures FindRequest(db.requests, id).None? ==> r == Failure(NotFound("Request not found"))
    ensures FindRequest(db.requests, id).Some? ==>
      var row := FindRequest(db.requests, id).value;
      (role == "CREATOR" && row.createdById != userId ==> r == Failure(Forbidden("Forbidden")))
      && (role != "CREATOR" || row.createdById == userId ==>
            r == Success(Repo.RequestView(row, Repo.CreatorOf(db.users, row))))
    ensures r.Success? ==> r.value.request in db.requests && r.value.request.id == id
  {
    match Repo.FindById(db.requests, db.users, id)
    case None => Failure(NotFound("Request not found"))
    case Some(view) =>
      if role == "CREATOR" && view.request.createdById != userId then Failure(Forbidden("Forbidden"))
      else Success(view)
  }

  /** `create`: a new PENDING request with the title as given, the caller as creator
      and the description when one was supplied; nothing else changes. */
  function CreateStep(db: Db, userId: Id, body: CreateBody, now: int): (out: (Request, Db))
    ensures var (row, db') := out;
      && row.id == db.nextId && row.title == body.title && row.description == body.description
      && row.createdById == userId && row.status == Pending && row.createdAt == now
      && db' == db.(requests := db.requests + [row], nextId := db.nextId + 1)
  {
    var row := Repo.NewRequest(db.nextId, Repo.CreateData(body.title, body.description, userId), now);
    (row, db.(requests := db.requests + [row], nextId := db.nextId + 1))
  }

  /** The store `data` an update body becomes: the status is never part of it. */
  function PatchOf(body: UpdateBody): (p: Repo.RequestPatch)
    ensures p.title == body.title && p.description == body.description && p.status == Repo.Keep
  {
    Repo.RequestPatch(body.title, body.description, Repo.Keep)
  }

  /** `update`: the role is checked before the lookup, the owner before the status,
      and on success only the supplied fields are written. */
  function UpdateStep(db: Db, id: Id, userId: Id, role: string, body: UpdateBody)
    : (out: (Result<Request>, Db))
    ensures var (r, db') := out;
      && (role != "CREATOR" ==> r == Failure(Forbidden("Only creator can update request")))
      && (role == "CREATOR" && FindRequest(db.requests, id).None? ==> r == Failure(NotFound("Request not found")))
      && (role == "CREATOR" && FindRequest(db.requests, id).Some? ==>
            var row := FindRequest(db.requests, id).value;
            && (row.createdById != userId ==> r == Failure(Forbidden("Forbidden")))
            && (row.createdById == userId && row.status != Pending ==>
                  r == Failure(BadRequest("Only PENDING request can be updated"))))
      && (r.Failure? ==> db' == db)
      && (r.Success? <==> role == "CREATOR" && FindRequest(db.requests, id).Some?
                          && FindRequest(db.requests, id).value.createdById == userId
                          && FindRequest(db.requests, id).value.status == Pending)
      && (r.Success? ==>
            var row := FindRequest(db.requests, id).value;
            && r.value.id == id && r.value.createdById == userId && r.value.status == Pending
            && r.value.createdAt == row.createdAt
            && r.value.title == Repo.Patched(row.title, body.title)
            && r.value.description == Repo.Patched(row.description, body.description)
            && db' == db.(requests := Repo.UpdateRows(db.requests, id, PatchOf(body))))
  {
    if role != "CREATOR" then (Failure(Forbidden("Only creator can update request")), db)
    else match FindRequest(db.requests, id)
      case None => (Failure(NotFound("Request not found")), db)
      case Some(row) =>
        if row.createdById != userId then (Failure(Forbidden("Forbidden")), db)
        else if row.status != Pending then (Failure(BadRequest("Only PENDING request can be updated")), db)
        else (Success(Repo.ApplyPatch(row, PatchOf(body))), db.(requests := Repo.UpdateRows(db.requests, id, PatchOf(body))))
  }

  /** After a successful update, reading the request back gives the updated row, and
      every other request reads as before. */
  lemma UpdateThenRead(db: Db, id: Id, userId: Id, body: UpdateBody, other: Id)
    requires UpdateStep(db, id, userId, "CREATOR", body).0.Success?
    ensures var (r, db') := UpdateStep(db, id, userId, "CREATOR", body);
      && FindRequest(db'.requests, id) == Some(r.value)
      && (other != id ==> FindRequest(db'.requests, other) == FindRequest(db.requests, other))
  {
    Repo.FindAfterUpdate(db.requests, id, PatchOf(body), id);
    Repo.FindAfterUpdate(db.requests, id, PatchOf(body), other);
  }

  class RequestsService {
    const repo: Repo.RequestsRepository

    constructor (repo: Repo.RequestsRepository)
      ensures this.repo == repo
    {
      this.repo := repo;
    }

    method Create(userId: Id, body: CreateBody, now: int) returns (row: Request)
      modifies repo.db
      ensures (row, repo.db.Snapshot()) == CreateStep(old(repo.db.Snapshot()), userId, body, now)
    {
      row := repo.Create(Repo.CreateData(body.title, body.description, userId), now);
    }

    method Update(id: Id, userId: Id, role: string, body: UpdateBody) returns (r: Result<Request>)
      modifies repo.db
      ensures (r, repo.db.Snapshot()) == UpdateStep(old(repo.db.Snapshot()), id, userId, role, body)
    {
      if role != "CREATOR" {
        return Failure(Forbidden("Only creator can update request"));
      }
      var request := FindRequest(repo.db.requests, id);
      if request.None? {
        return Failure(NotFound("Request not found"));
      }
      if request.value.createdById != userId {
        return Failure(Forbidden("Forbidden"));
      }
      if request.value.status != Pending {
        return Failure(BadRequest("Only PENDING request can be updated"));
      }
      var updated := repo.Update(id, PatchOf(body));
      r := Success(updated.value);
    }
  }

  // ---------------------------------------------------------------------------
  // The controller

  /** `query.page ?? 1` and `query.limit ?? 10`. */
  function ListDefaults(page: Option<int>, limit: Option<int>): (r: (int, int))
    ensures r.0 == (if page.Some? then page.value else 1)
    ensures r.1 == (if limit.Some? then limit.value else 10)
  {
    (if page.Some? then page.value else 1, if limit.Some? then limit.value else 10)
  }

  /** `GET /requests` with no paging parameters gives the first ten visible requests,
      newest first. */
  lemma DefaultListing(db: Db, userId: Id, role: string, status: Option<Status>)
    ensures var (page, limit) := ListDefaults(None, None);
      page == 1 && limit == 10
      && var r := FindMany(db, userId, role, page, limit, status);
      && |r.items| == (if r.total < 10 then r.total else 10)
      && ItemRequests(r.items) == Repo.NewestFirst(Visible(db, userId, role, status))[..|r.items|]
  {
    var r := FindMany(db, userId, role, 1, 10, status);
    var ordered := Repo.NewestFirst(Visible(db, userId, role, status));
    assert SkipOf(1, 10) == 0;
    assert |r.items| <= |ordered|;
    forall k | 0 <= k < |r.items|
      ensures ItemRequests(r.items)[k] == ordered[..|r.items|][k]
    {
      assert r.items[k].request == ordered[k];
    }
  }
}

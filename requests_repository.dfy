/** What the request repository's queries and writes do to the request table. */
module RequestsRepository {
  import opened Domain
  import opened Sorting
  import Store

  /** The `where` object: each present field must equal the row's. */
  datatype Where = Where(createdById: Option<Id>, status: Option<Status>)

  predicate Matches(row: Request, where: Where)
  {
    && (where.createdById.Some? ==> row.createdById == where.createdById.value)
    && (where.status.Some? ==> row.status == where.status.value)
  }

  /** The rows a `where` selects, in table order. */
  function Filter(rows: seq<Request>, where: Where): (r: seq<Request>)
    ensures forall x :: x in r <==> x in rows && Matches(x, where)
    ensures |r| <= |rows|
  {
    if |rows| == 0 then []
    else if Matches(rows[0], where) then [rows[0]] + Filter(rows[1..], where)
    else Filter(rows[1..], where)
  }

  /** The filter keeps each matching row as often as the table holds it, and no other
      row. */
  lemma {:induction false} FilterMultiplicity(rows: seq<Request>, where: Where)
    ensures forall x :: multiset(Filter(rows, where))[x] == if Matches(x, where) then multiset(rows)[x] else 0
    decreases |rows|
  {
    if |rows| > 0 {
      assert rows == [rows[0]] + rows[1..];
      FilterMultiplicity(rows[1..], where);
    }
  }

  /** The sort key of `orderBy: { createdAt: 'desc' }`. */
  function NewestFirstKey(row: Request): int
  {
    -row.createdAt
  }

  /** The default order: `createdAt` descending. */
  function NewestFirst(rows: seq<Request>): (r: seq<Request>)
    ensures multiset(r) == multiset(rows) && |r| == |rows|
    ensures forall i, j :: 0 <= i < j < |r| ==> r[i].createdAt >= r[j].createdAt
  {
    var r := SortBy(rows, NewestFirstKey);
    assert forall i, j :: 0 <= i < j < |r| ==> NewestFirstKey(r[i]) <= NewestFirstKey(r[j]);
    r
  }

  /** A row with its `creator` include: id, email, name and role, never the password. */
  datatype RequestView = RequestView(request: Request, creator: Option<PublicUser>)

  function CreatorOf(users: seq<User>, row: Request): (c: Option<PublicUser>)
    ensures c.Some? <==> FindUserById(users, row.createdById).Some?
    ensures c.Some? ==> c == Some(WithoutPassword(FindUserById(users, row.createdById).value))
  {
    match FindUserById(users, row.createdById)
    case None => None
    case Some(u) => Some(WithoutPassword(u))
  }

  function WithCreators(users: seq<User>, rows: seq<Request>): (r: seq<RequestView>)
    ensures |r| == |rows|
    ensures forall k :: 0 <= k < |rows| ==> r[k] == RequestView(rows[k], CreatorOf(users, rows[k]))
  {
    seq(|rows|, k requires 0 <= k < |rows| => RequestView(rows[k], CreatorOf(users, rows[k])))
  }

  /** `findMany`: the matching rows, newest first, `skip` of them dropped and at most
      `take` kept, each with its creator. */
  function FindMany(requests: seq<Request>, users: seq<User>, where: Where, skip: nat, take: nat)
    : (r: seq<RequestView>)
    ensures var total := |Filter(requests, where)|;
      |r| == if skip >= total then 0 else if take < total - skip then take else total - skip
    ensures forall k :: 0 <= k < |r| ==>
      && r[k].request == NewestFirst(Filter(requests, where))[skip + k]
      && r[k].request in requests
      && Matches(r[k].request, where)
      && r[k].creator == CreatorOf(users, r[k].request)
    ensures forall i, j :: 0 <= i < j < |r| ==> r[i].request.createdAt >= r[j].request.createdAt
  {
    var ordered := NewestFirst(Filter(requests, where));
    var page := SkipTake(ordered, skip, take);
    forall k | 0 <= k < |page|
      ensures page[k] in requests && Matches(page[k], where)
    {
      assert page[k] == ordered[skip + k];
      assert page[k] in multiset(ordered);
    }
    WithCreators(users, page)
  }

  /** `count`: the number of rows the same `where` selects. */
  function Count(requests: seq<Request>, where: Where): (n: nat)
    ensures n == |Filter(requests, where)|
    ensures n <= |requests|
  {
    if |requests| == 0 then 0
    else (if Matches(requests[0], where) then 1 else 0) + Count(requests[1..], where)
  }

  /** The total never depends on the window: any page is at most the total, and the
      first page as wide as the total holds every matching row. */
  lemma CountBoundsEveryPage(requests: seq<Request>, users: seq<User>, where: Where, skip: nat, take: nat)
    ensures |FindMany(requests, users, where, skip, take)| <= Count(requests, where)
    ensures |FindMany(requests, users, where, 0, Count(requests, where))| == Count(requests, where)
  {
  }

  /** `findUnique` by id, with the creator. */
  function FindById(requests: seq<Request>, users: seq<User>, id: Id): (r: Option<RequestView>)
    ensures r.Some? <==> FindRequest(requests, id).Some?
    ensures r.Some? ==> r.value == RequestView(FindRequest(requests, id).value, CreatorOf(users, FindRequest(requests, id).value))
  {
    match FindRequest(requests, id)
    case None => None
    case Some(row) => Some(RequestView(row, CreatorOf(users, row)))
  }

  /** The data `create` receives; a null description is stored as absent. */
  datatype CreateData = CreateData(title: string, description: Option<string>, createdById: Id)

  /** The row `create` inserts: the given title, description and creator, with the
      schema's defaults: a fresh id, status PENDING and the current time. */
  function NewRequest(id: Id, data: CreateData, now: int): (r: Request)
    ensures r.id == id && r.title == data.title && r.description == data.description
    ensures r.createdById == data.createdById && r.status == Pending && r.createdAt == now
  {
    Request(id, data.title, data.description, Pending, data.createdById, now)
  }

  /** One field of an update's `data`: left out (undefined) keeps the stored value. */
  datatype Patch<T> = Keep | Set(value: T)

  function Patched<T>(current: T, p: Patch<T>): T
  {
    if p.Set? then p.value else current
  }

  /** The `data` of `update`. */
  datatype RequestPatch = RequestPatch(title: Patch<string>, description: Patch<Option<string>>, status: Patch<Status>)

  /** A row after `update`: only the supplied fields change. */
  function ApplyPatch(row: Request, patch: RequestPatch): (r: Request)
    ensures r.id == row.id && r.createdById == row.createdById && r.createdAt == row.createdAt
    ensures r.title == Patched(row.title, patch.title)
    ensures r.description == Patched(row.description, patch.description)
    ensures r.status == Patched(row.status, patch.status)
    ensures patch == RequestPatch(Keep, Keep, Keep) ==> r == row
  {
    row.(title := Patched(row.title, patch.title),
         description := Patched(row.description, patch.description),
         status := Patched(row.status, patch.status))
  }

  /** `update({ where: { id }, data })` on the table: the row with that id is patched,
      every other row stays as it was. */
  function UpdateRows(rows: seq<Request>, id: Id, patch: RequestPatch): (r: seq<Request>)
    ensures |r| == |rows|
    ensures forall i :: 0 <= i < |rows| ==>
      r[i] == if rows[i].id == id then ApplyPatch(rows[i], patch) else rows[i]
  {
    seq(|rows|, i requires 0 <= i < |rows| => if rows[i].id == id then ApplyPatch(rows[i], patch) else rows[i])
  }

  /** After an update, looking the row up again finds the patched row. */
  lemma {:induction false} FindAfterUpdate(rows: seq<Request>, id: Id, patch: RequestPatch, other: Id)
    ensures FindRequest(UpdateRows(rows, id, patch), other) ==
      match FindRequest(rows, other)
      case None => None
      case Some(row) => Some(if other == id then ApplyPatch(row, patch) else row)
    decreases |rows|
  {
    if |rows| > 0 {
      FindAfterUpdate(rows[1..], id, patch, other);
      assert UpdateRows(rows, id, patch)[1..] == UpdateRows(rows[1..], id, patch);
    }
  }

  class RequestsRepository {
    const db: Store.Database

    constructor (db: Store.Database)
      ensures this.db == db
    {
      this.db := db;
    }

    /** `create`: appends the new row and returns it. */
    method Create(data: CreateData, now: int) returns (row: Request)
      modifies db
      ensures row == NewRequest(old(db.nextId), data, now)
      ensures db.Snapshot() == old(db.Snapshot()).(requests := old(db.requests) + [row], nextId := old(db.nextId) + 1)
    {
      row := NewRequest(db.nextId, data, now);
      db.requests := db.requests + [row];
      db.nextId := db.nextId + 1;
    }

    /** `update`: patches the row with that id and returns it; with no such row the
        store refuses and nothing changes. */
    method Update(id: Id, patch: RequestPatch) returns (row: Option<Request>)
      modifies db
      ensures FindRequest(old(db.requests), id).None? ==> row.None? && db.Snapshot() == old(db.Snapshot())
      ensures FindRequest(old(db.requests), id).Some? ==>
        && row == Some(ApplyPatch(FindRequest(old(db.requests), id).value, patch))
        && db.Snapshot() == old(db.Snapshot()).(requests := UpdateRows(old(db.requests), id, patch))
    {
      var current := FindRequest(db.requests, id);
      if current.None? {
        return None;
      }
      db.requests := UpdateRows(db.requests, id, patch);
      row := Some(ApplyPatch(current.value, patch));
    }
  }
}

# Approval API — a verified model of the request/approval workflow

The system is a small HTTP backend in which CREATOR users file requests and APPROVER
users approve or reject them. The users, requests and approvals live in three tables.
Every call goes through a bearer-token guard and, on some routes, a role guard. The
services answer with a value or with one of five error kinds: Forbidden, NotFound,
BadRequest, Conflict, Unauthorized. A request starts PENDING. Exactly one decision
moves it to APPROVED or REJECTED, and it never changes again.

This project models that core in Dafny:

- `domain.dfy`: the roles, the statuses, the three rows, the error kinds and the public
  projections of a user. It also holds the database (`Store.Database`, a class whose
  three table fields and id counter the services update in place).
- `requests_repository.dfy`, `approvals_repository.dfy`: the store queries. They cover
  filtering, the `createdAt`/`approvedAt` orderings, skip/take, the creator and approver
  includes, count, and find-first. They also cover the create and update writes.
- `requests.dfy`, `approvals.dfy`, `users.dfy`, `auth.dfy`: the request bodies
  (class-validator rules over untyped JavaScript values), the services and the
  controllers' defaults and password stripping. Each state-changing operation has two
  forms:
  - a pure step function over the tables (`CreateStep`, `UpdateStep`, `DecideStep`,
    `RegisterStep`), whose contract lists every error case and the whole new state;
  - a method of the service class, proved to do exactly what its step function says.
- `guards.dfy`, `routes.dfy`: bearer-token extraction, the token guard, which sets
  `request.user`, the role guard, the per-route guard table, and endpoints composed as
  the framework composes them: guards, then body validation, then the service.
- `interceptors.dfy`: the response envelope, the client-IP selection and the log
  line. `strings.dfy` holds the JavaScript string operations these use: `split`,
  `join`, `trim` with the ECMAScript whitespace set, and integer rendering.
  `sorting.dfy` holds ordering by a key and skip/take.
- `workflow.dfy`: any sequence of the four state-changing calls, from any valid store.
  It proves an invariant with these parts:
  - ids are unique and below the counter;
  - emails are unique;
  - at most one approval per request, and hence per (request, approver) pair;
  - no approval by the request's own creator;
  - every approval's request carries the approval's decision as its status;
  - every decided request has such an approval.
  
  It also proves that only `decide` changes a status, that a decided request is never
  touched again, and that the Conflict branch of `decide` cannot be reached without
  concurrency. A scripted session (register, create, approve, then the refused
  follow-ups) is checked value by value.

Modelling choices:
- Ids are natural numbers drawn from one counter, `nextId`. They stand in for the
  schema's generated ids.
- Timestamps are a `now` argument.
- The password hash, JWT verification and the email syntax check are function
  parameters.
- A token's role is a string, and the empty string stands for a missing role. Both
  fail the role guard's `!user?.role` test, and both differ from every role name the
  services compare with.
- Validation failure is `None` from a body parser, or `Routes.ValidationFailed` at an
  endpoint.

In these places the model follows the code as written:
- `update` and `decide` check the caller's role before looking the request up. So a
  wrong role gets Forbidden even for an unknown id (src/modules/requests/requests.service.ts:59-65,
  src/modules/approvals/approvals.service.ts:24-32). Existence is checked before
  ownership everywhere.
- `findMany` and `findById` scope by `role === 'CREATOR'`. So every role other than
  CREATOR sees all requests, not only APPROVER.
- The status is not checked again inside the transaction.

## Model

| member | source | states |
|---|---|---|
| Domain.ParseStatus | src/modules/requests/dto/list-requests-query.dto.ts:7-9 | Accepts exactly the three status names and gives back the status carrying that name |
| Domain.StatusNameRoundTrip | src/modules/requests/dto/list-requests-query.dto.ts:9 | Every status's name parses back to that status |
| Domain.DecisionStatus | src/modules/approvals/approvals.service.ts:43 | The status a decision sets is never PENDING and has the decision's name |
| Domain.WithoutPassword | src/modules/users/users.controller.ts:29-30 | Definition: the public user keeps id, email, name and role and has no password field |
| Domain.ApproverOf | src/modules/approvals/approvals.repository.ts:12 | Definition: the approver include keeps id, email and name only |
| Domain.FindRequest | src/modules/requests/requests.repository.ts:28-33 | Some exactly when a stored request has the id; the result is a stored row with that id |
| Domain.FindUserById | src/modules/users/users.service.ts:34-36 | Some exactly when a stored user has the id; the result is a stored user with that id |
| Domain.FindUserByEmail | src/modules/users/users.service.ts:30-32 | Some exactly when a stored user has the email; the result is a stored user with that email |
| Strings.Join | src/common/interceptors/logging.interceptor.ts:63 | Definition: `parts.join(sep)`, the parts with one separator between neighbours; `Strings.SplitOfJoin` states its inverse |
| Strings.Split | src/common/guards/jwt-auth.guard.ts:30 | At least one segment, no segment holds the separator, and joining the segments gives the input back |
| Strings.SplitAfterSegment | src/common/guards/jwt-auth.guard.ts:30 | Splitting `p + sep + x` gives `p` followed by the split of `x` |
| Strings.SplitWithoutSeparator | src/common/guards/jwt-auth.guard.ts:30 | A string without the separator splits into itself alone |
| Strings.SplitOfJoin | src/common/interceptors/logging.interceptor.ts:63 | Joining separator-free parts and splitting again gives the parts back |
| Strings.LeadingWhitespace | src/common/interceptors/logging.interceptor.ts:21 | Counts the whitespace prefix: all whitespace, followed by a non-whitespace character or the end |
| Strings.TrailingWhitespace | src/common/interceptors/logging.interceptor.ts:21 | Counts the whitespace suffix, symmetrically |
| Strings.Trim | src/common/interceptors/logging.interceptor.ts:21 | The result is the input with its leading and trailing whitespace removed, and neither end is whitespace |
| Strings.TrimOfTrimmed | src/common/interceptors/logging.interceptor.ts:21 | A string with no whitespace at either end is left as it is |
| Strings.DigitChar | src/common/interceptors/logging.interceptor.ts:56-58 | A digit renders as the character between '0' and '9' whose distance from '0' is its value |
| Strings.NatToString | src/common/interceptors/logging.interceptor.ts:56-58 | A non-negative number renders as a non-empty string of decimal digits with no leading zero; "0" is the rendering of zero alone |
| Strings.IntToString | src/common/interceptors/logging.interceptor.ts:56-58 | Definition: `${n}` on an integer, a minus sign and the magnitude's digits; `Strings.IntToStringRoundTrip` states what it means |
| Strings.NatToStringRoundTrip | src/common/interceptors/logging.interceptor.ts:56-58 | Reading the rendered digits back gives the number |
| Strings.IntToStringRoundTrip | src/common/interceptors/logging.interceptor.ts:56-58 | A negative number renders as '-' and the digits of its magnitude; others as their digits |
| Strings.IntToStringHasNoSeparator | src/common/interceptors/logging.interceptor.ts:56-58 | A rendered number holds no space and no comma |
| Sorting.Insert | src/modules/requests/requests.repository.ts:19 | Inserting into a sorted sequence keeps it sorted and adds exactly the one element |
| Sorting.SortBy | src/modules/approvals/approvals.repository.ts:11 | The result is sorted by the key and is a permutation of the input |
| Sorting.SkipTake | src/modules/requests/requests.repository.ts:17-18 | `skip` elements dropped, at most `take` kept, in order |
| Validators.Skipped | src/modules/requests/dto/create-request.dto.ts:10 | Definition: `@IsOptional()` skips a null or undefined field |
| Validators.IsString | src/modules/requests/dto/create-request.dto.ts:6 | Definition: `@IsString()` accepts only a string |
| Validators.MinLength | src/modules/requests/dto/create-request.dto.ts:7 | Definition: `@MinLength(n)` accepts a string of at least `n` characters |
| Validators.IsIn | src/modules/approvals/dto/decide-approval.dto.ts:6-7 | Definition: `@IsIn` and `@IsEnum` accept a string equal to one of the listed names |
| Validators.IsEmail | src/modules/users/dto/create-user.dto.ts:6-7 | Definition: `@IsEmail()` accepts a string the address check accepts |
| Validators.OptionalString | src/modules/requests/dto/create-request.dto.ts:10-13 | Definition: an optional string field is absent, null or a string |
| Js.Get | src/modules/requests/dto/create-request.dto.ts:6-13 | Definition: a missing key reads as undefined, a present one as its value |
| Validators.OptionalText | src/modules/requests/dto/create-request.dto.ts:10-13 | Definition: an optional string field carries a value exactly when a string was sent, and that string |
| TransformResponse.HasDataShape | src/common/interceptors/transform-response.interceptor.ts:21-24 | Definition: a non-null object with a `data` key counts as already shaped |
| TransformResponse.Transform | src/common/interceptors/transform-response.interceptor.ts:20-39 | `success` is always true and `message` is never null. A non-null object with a `data` key is unwrapped, with its own message or the default. Anything else becomes the data, with the default message |
| TransformResponse.NullIsWrapped | src/common/interceptors/transform-response.interceptor.ts:22 | `null` is never treated as shaped; it becomes the data |
| TransformResponse.TransformIdempotent | src/common/interceptors/transform-response.interceptor.ts:20-39 | Passing an envelope through the interceptor again gives the same envelope |
| Logging.ReportedStatus | src/common/interceptors/logging.interceptor.ts:28-39 | Definition: a completed handler reports its status code without the error flag; an error always reports 500 with it |
| Logging.ClientIp | src/common/interceptors/logging.interceptor.ts:20-23 | With a forwarded-for header, its first comma-separated segment, trimmed (even when empty). Otherwise `request.ip`, otherwise the socket's remote address |
| Logging.ClientIpIsFirstHop | src/common/interceptors/logging.interceptor.ts:20-23 | A header `hop,rest` gives `hop` when the hop has no whitespace at its ends |
| Logging.UserAgentField | src/common/interceptors/logging.interceptor.ts:62 | At most 60 characters are kept, and "..." is added exactly when the agent is longer than 60 |
| Logging.LogParts | src/common/interceptors/logging.interceptor.ts:54-62 | method, path, status and duration come first, in order. Then userId and ip, each only when non-empty, then the user agent when non-empty |
| Logging.LogRequest | src/common/interceptors/logging.interceptor.ts:44-69 | The parts, built push by push, joined with single spaces. The level is warn exactly when the call errored or the status is at least 400 |
| Logging.LogLineSplitsIntoParts | src/common/interceptors/logging.interceptor.ts:63 | When no value holds a space, the log line splits back into exactly its parts |
| Logging.NoSpaceInPart | src/common/interceptors/logging.interceptor.ts:54-62 | Each part is space-free when its values are |
| Logging.ErrorsReportStatus500 | src/common/interceptors/logging.interceptor.ts:35-39 | The error path reports status 500 with the error flag set, and its log line carries "status=500" |
| Guards.RolesCanActivate | src/common/guards/roles.guard.ts:15-30 | No required roles admits everyone. Otherwise the user must be present, have a role, and the role must be listed. Denial is always Forbidden("Forbidden"), never false |
| Guards.ExtractTokenFromHeader | src/common/guards/jwt-auth.guard.ts:29-32 | No header gives no token. A token exists exactly when the first space-separated segment is "Bearer" and a second exists; the token is that second segment |
| Guards.BearerTokenExtracted | src/common/guards/jwt-auth.guard.ts:29-32 | "Bearer <token>" gives back the token, whatever follows it after a space |
| Guards.OtherSchemeRejected | src/common/guards/jwt-auth.guard.ts:31 | Any other first word, including "bearer", gives no token |
| Guards.Authenticate | src/common/guards/jwt-auth.guard.ts:14-27 | A missing or empty token, or a failed verification, is Unauthorized("Unauthorized"). Otherwise the verified payload |
| Guards.JwtAuthGuard.CanActivate | src/common/guards/jwt-auth.guard.ts:14-27 | On success `request.user` is the verified payload and the answer is true. On failure the error, with `request.user` untouched |
| RequestsRepository.Filter | src/modules/requests/requests.repository.ts:15-16 | Exactly the rows whose creator and status equal the present `where` values |
| RequestsRepository.FilterMultiplicity | src/modules/requests/requests.repository.ts:15-16 | Each matching row appears in the filter as often as in the table, and no other row appears |
| RequestsRepository.NewestFirst | src/modules/requests/requests.repository.ts:19 | A permutation of the rows with `createdAt` non-increasing |
| RequestsRepository.CreatorOf | src/modules/requests/requests.repository.ts:20 | Definition: the creator include is the creator's public fields when the user exists |
| RequestsRepository.WithCreators | src/modules/requests/requests.repository.ts:20 | Each row paired with its creator include, in order |
| RequestsRepository.FindMany | src/modules/requests/requests.repository.ts:9-22 | The filtered rows, newest first, `skip` dropped and at most `take` kept. Every item matches the `where`, comes from the table and carries its creator's public fields |
| RequestsRepository.Count | src/modules/requests/requests.repository.ts:24-26 | The number of rows the same `where` selects |
| RequestsRepository.CountBoundsEveryPage | src/modules/requests/requests.repository.ts:9-26 | No page is longer than the count, and a first page as wide as the count holds every match |
| RequestsRepository.FindById | src/modules/requests/requests.repository.ts:28-33 | Definition: the row with that id and its creator include, or nothing |
| RequestsRepository.NewRequest | src/modules/requests/requests.repository.ts:35-43 | Definition: title, description and creator as given; a fresh id, PENDING and the current time |
| RequestsRepository.ApplyPatch | src/modules/requests/requests.repository.ts:45-53 | Only the supplied fields change; id, creator and creation time never do |
| RequestsRepository.UpdateRows | src/modules/requests/requests.repository.ts:45-53 | The row with that id is patched and every other row stays as it was |
| RequestsRepository.FindAfterUpdate | src/modules/requests/requests.repository.ts:45-53 | After the update, the id reads back patched and every other id reads as before |
| RequestsRepository.RequestsRepository.Create | src/modules/requests/requests.repository.ts:35-43 | Appends the new row to the live table and returns it |
| RequestsRepository.RequestsRepository.Update | src/modules/requests/requests.repository.ts:45-53 | Patches the live table and returns the row. With no such row nothing changes |
| ApprovalsRepository.OfRequest | src/modules/approvals/approvals.repository.ts:10 | Exactly the approvals of that request |
| ApprovalsRepository.OfRequestMultiplicity | src/modules/approvals/approvals.repository.ts:10 | Each approval of the request appears as often as in the table, and no approval of another request appears |
| ApprovalsRepository.ApproverSummaryOf | src/modules/approvals/approvals.repository.ts:12 | Definition: the approver include is the approver's id, email and name when the user exists |
| ApprovalsRepository.FindManyByRequestId | src/modules/approvals/approvals.repository.ts:8-14 | A permutation of the request's approvals, `approvedAt` non-decreasing, each with its approver's public fields |
| ApprovalsRepository.FindExisting | src/modules/approvals/approvals.repository.ts:16-20 | Nothing exactly when no approval matches both the request and the approver. Otherwise one that does |
| Requests.ParseCreateRequest | src/modules/requests/dto/create-request.dto.ts:6-13 | Accepted exactly when the title is a string of at least one character and the description is absent, null or a string; the values are carried as sent |
| Requests.CreateBodyRoundTrip | src/modules/requests/dto/create-request.dto.ts:6-13 | Every body with a non-empty title is accepted and read back as sent |
| Requests.EmptyTitleRejected | src/modules/requests/dto/create-request.dto.ts:7 | An empty or missing title is refused |
| Requests.ParseUpdateRequest | src/modules/requests/dto/update-request.dto.ts:6-14 | Both fields are optional; a present title must be a string of at least one character, a present description a string. Only supplied fields are written |
| Requests.EmptyUpdateIsValid | src/modules/requests/dto/update-request.dto.ts:6-14 | A body with neither field is valid and writes nothing |
| Requests.EmptyUpdateTitleRejected | src/modules/requests/dto/update-request.dto.ts:8 | An empty title is refused in an update |
| Requests.ParseStatusFilter | src/modules/requests/dto/list-requests-query.dto.ts:7-9 | Absent, or exactly one of the three status names, read back as that status |
| Requests.StatusFilterAcceptsEveryStatus | src/modules/requests/dto/list-requests-query.dto.ts:8-9 | The accepted names are exactly the statuses the service filters by |
| Requests.ScopeOf | src/modules/requests/requests.service.ts:29-30 | Definition: a CREATOR is scoped to their own rows, and every other role to none; the status filter applies either way |
| Requests.SkipOf | src/modules/requests/requests.service.ts:34 | Definition: skip = (page - 1) * limit |
| Requests.ItemRequests | src/modules/requests/requests.service.ts:39 | Definition: the rows of the listed items, in order |
| Requests.FindMany | src/modules/requests/requests.service.ts:24-40 | Page and limit are echoed and the total is the number of visible rows. The items are the window at (page - 1) * limit of the visible rows, newest first. A CREATOR only sees their own rows |
| Requests.TotalIgnoresWindow | src/modules/requests/requests.service.ts:37 | The total is the same for every page and limit |
| Requests.FirstPageListsAll | src/modules/requests/requests.service.ts:29-39 | A first page as wide as the total lists every row the caller may see |
| Requests.FindById | src/modules/requests/requests.service.ts:42-51 | NotFound for an unknown id, whatever the role. Forbidden for a CREATOR who is not the owner. Otherwise the request with its creator |
| Requests.CreateStep | src/modules/requests/requests.service.ts:13-22 | A new PENDING request with the title as given, the caller as creator and the description if supplied. Only that row is added |
| Requests.PatchOf | src/modules/requests/requests.service.ts:72 | Definition: an update's data never includes a status |
| Requests.UpdateStep | src/modules/requests/requests.service.ts:53-73 | Forbidden for a role other than CREATOR, before the lookup. Then NotFound, then Forbidden for a non-owner, then BadRequest unless PENDING. A failure changes nothing. A success writes only the supplied fields of that row |
| Requests.UpdateThenRead | src/modules/requests/requests.service.ts:72 | After a successful update the request reads back as returned and others as before |
| Requests.RequestsService.Create | src/modules/requests/requests.service.ts:13-22 | The live tables end as `CreateStep` says |
| Requests.RequestsService.Update | src/modules/requests/requests.service.ts:53-73 | The answer and the live tables are those `UpdateStep` gives |
| Requests.ListDefaults | src/modules/requests/requests.controller.ts:49-50 | Definition: page defaults to 1 and limit to 10 |
| Requests.DefaultListing | src/modules/requests/requests.controller.ts:44-57 | With no paging parameters the items are the first ten visible requests, newest first (fewer when fewer are visible) |
| Approvals.ParseDecideApproval | src/modules/approvals/dto/decide-approval.dto.ts:6-12 | Accepted exactly when the decision is "APPROVED" or "REJECTED" and the note is absent, null or a string |
| Approvals.DecisionValidation | src/modules/approvals/dto/decide-approval.dto.ts:6-7 | Both decisions are accepted as sent; any other decision string is refused |
| Approvals.Commit | src/modules/approvals/approvals.service.ts:44-57 | Definition: one approval appended with the caller, decision, note and time. The request's status is set to the decision. Users are untouched |
| Approvals.DecideStep | src/modules/approvals/approvals.service.ts:18-59 | Each check in source order with its own error: role, existence, self-decision, PENDING, earlier approval. A failure changes nothing. It succeeds exactly when all checks pass, answering {requestId, decision, status} with status equal to the decision, committing both writes |
| Approvals.DecideEffect | src/modules/approvals/approvals.service.ts:44-58 | Afterwards the request reads back with the decided status and otherwise unchanged, other requests are untouched, and the history gains exactly the new approval |
| Approvals.OfRequestAppend | src/modules/approvals/approvals.repository.ts:10 | Appending an approval extends only its own request's history |
| Approvals.SecondDecisionRefused | src/modules/approvals/approvals.service.ts:36-38 | After a decision, any second decision on that request is BadRequest "Request is already decided" and changes nothing |
| Approvals.FindHistory | src/modules/approvals/approvals.service.ts:61-72 | NotFound before ownership. Then Forbidden for a CREATOR who is not the owner. Otherwise exactly that request's approvals |
| Approvals.ApprovalsService.Decide | src/modules/approvals/approvals.service.ts:18-59 | The answer and the live tables are those `DecideStep` gives |
| Users.ParseRole | src/modules/users/dto/create-user.dto.ts:20-21 | Exactly "CREATOR" or "APPROVER" |
| Users.ParseCreateUser | src/modules/users/dto/create-user.dto.ts:6-21 | Accepted exactly when the email passes the check, the name is optional text, the password is a string of at least 8 characters and the role is valid |
| Users.ShortPasswordRejected | src/modules/users/dto/create-user.dto.ts:15-16 | A password shorter than 8 characters is refused |
| Users.RegisterStep | src/modules/users/users.service.ts:11-28 | A taken email is Conflict "Email already registered" and adds no user. Otherwise one user is appended with email and role as given, the name if supplied, and the hashed password |
| Users.SecondRegistrationConflicts | src/modules/users/users.service.ts:17-20 | Registering an email a second time is a Conflict and changes nothing |
| Users.UsersService.Create | src/modules/users/users.service.ts:11-28 | The answer and the live tables are those `RegisterStep` gives |
| Users.UsersService.FindByEmail | src/modules/users/users.service.ts:30-32 | Answers what `Domain.FindUserByEmail` gives on the live user table |
| Users.UsersService.FindById | src/modules/users/users.service.ts:34-36 | Answers what `Domain.FindUserById` gives on the live user table |
| Users.RegisterResponse | src/modules/users/users.controller.ts:20-31 | Definition: the created user without the password; errors pass through |
| Users.Me | src/modules/users/users.controller.ts:33-42 | Definition: null when no user has the token's subject. Otherwise that user without the password |
| Users.MeAfterRegister | src/modules/users/users.controller.ts:33-42 | A newly registered user is what `me` answers for its id |
| Users.FindUserAppended | src/modules/users/users.service.ts:22-27 | An appended user with a fresh id is found by that id |
| Auth.ParseLogin | src/modules/auth/dto/login.dto.ts:6-12 | Accepted exactly when the email passes the check and the password is a string of at least one character |
| Auth.EmptyLoginRejected | src/modules/auth/dto/login.dto.ts:6-12 | The empty body is refused |
| Auth.LoginRoundTrip | src/modules/auth/dto/login.dto.ts:6-12 | A valid body is read back as sent |
| Routes.RequiresJwt | src/modules/requests/requests.controller.ts:26 | Definition: every route runs the token guard except registration, which has no `@UseGuards` |
| Routes.RequiredRoles | src/modules/requests/requests.controller.ts:31-32 | Definition: the `@Roles` metadata, CREATOR on create and update, APPROVER on decide, none elsewhere; `Routes.RoleTable` states what it admits |
| Routes.Admit | src/modules/requests/requests.controller.ts:26-32 | The token guard runs first, so a missing or bad token is Unauthorized. Then the route's role guard, whose denial is Forbidden. The admitted caller is the token's payload |
| Routes.NoTokenIsUnauthorized | src/modules/approvals/approvals.controller.ts:20 | Every route except registration answers Unauthorized without a token |
| Routes.RegisterIsOpen | src/modules/users/users.controller.ts:20-22 | Registration runs no guard |
| Routes.RoleTable | src/modules/requests/requests.controller.ts:30-69 | Create and update admit exactly CREATORs and decide exactly APPROVERs. List, get, history and me admit every authenticated caller |
| Routes.CreateEndpoint | src/modules/requests/requests.controller.ts:30-42 | Guard errors first, then validation, then `create` with the token's subject as the creator |
| Routes.UpdateEndpoint | src/modules/requests/requests.controller.ts:67-79 | Guard errors first, then validation, then `update` with the token's subject and role and the body's fields |
| Routes.DecideEndpoint | src/modules/approvals/approvals.controller.ts:24-36 | Guard errors first, then validation, then `decide` with the token's subject and role and the body's decision and note |
| Routes.ListEndpoint | src/modules/requests/requests.controller.ts:44-57 | The token guard, then the status filter, then `findMany` with the 1/10 defaults and the token's subject and role |
| Routes.GetEndpoint | src/modules/requests/requests.controller.ts:59-65 | The token guard first, then `findById` with the token's subject and role |
| Routes.HistoryEndpoint | src/modules/approvals/approvals.controller.ts:38-44 | The token guard first, then the history with the token's subject and role |
| Routes.RegisterEndpoint | src/modules/users/users.controller.ts:20-31 | No guard; a body that fails validation changes nothing, otherwise `create` runs and answers without the password |
| Routes.MeEndpoint | src/modules/users/users.controller.ts:33-42 | The token guard first, then the user named by the token's subject, or null |
| Routes.ApproverCannotCreate | src/modules/requests/requests.controller.ts:30-32 | An APPROVER creating is Forbidden whatever the body, and nothing is stored |
| Routes.ApproverCannotUpdate | src/modules/requests/requests.controller.ts:67-69 | An APPROVER updating gets the guard's Forbidden, and nothing changes |
| Routes.CreatorCannotDecide | src/modules/approvals/approvals.controller.ts:24-26 | A CREATOR deciding is Forbidden even with an invalid body |
| Routes.ServiceRoleChecksAreBehindTheGuard | src/modules/approvals/approvals.controller.ts:24-26 | Behind the guards, the services' own role checks always pass |
| Workflow.ApprovalOf | src/modules/approvals/approvals.repository.ts:8-14 | The approval of a request, if any, from the table |
| Workflow.EmptyIsValid | src/modules/approvals/approvals.service.ts:18-59 | The empty store satisfies the invariant |
| Workflow.FindRequestAppend | src/modules/requests/requests.repository.ts:35-43 | Appending a request leaves every existing lookup unchanged |
| Workflow.ApprovalOfAppend | src/modules/approvals/approvals.service.ts:45-52 | Appending an approval leaves every existing request's approval unchanged |
| Workflow.FindRequestOfUnique | src/modules/requests/requests.repository.ts:28-33 | With unique ids, a row's id looks up that row |
| Workflow.RegisterPreserves | src/modules/users/users.service.ts:11-28 | Registration keeps the invariant, including unique emails |
| Workflow.CreatePreserves | src/modules/requests/requests.service.ts:13-22 | Creating a request keeps the invariant |
| Workflow.UpdatePreserves | src/modules/requests/requests.service.ts:53-73 | Updating a request keeps the invariant, since no status or owner changes |
| Workflow.PendingHasNoApproval | src/modules/approvals/approvals.service.ts:36-42 | On a valid store a PENDING request has no approval |
| Workflow.DecideKeepsIds | src/modules/approvals/approvals.service.ts:44-57 | A decision keeps ids unique and below the counter |
| Workflow.DecideKeepsOneApproval | src/modules/approvals/approvals.service.ts:36-57 | A decision keeps at most one approval per request |
| Workflow.DecideKeepsSoundApprovals | src/modules/approvals/approvals.service.ts:33-57 | After a decision every approval still has its request, is not by its creator, and matches its status |
| Workflow.DecideKeepsDecidedApproved | src/modules/approvals/approvals.service.ts:44-57 | After a decision every decided request has its matching approval |
| Workflow.DecidePreserves | src/modules/approvals/approvals.service.ts:18-59 | Every `decide` call keeps the invariant |
| Workflow.StepPreservesInvariant | src/modules/approvals/approvals.service.ts:18-59 | Every call keeps the invariant |
| Workflow.RunPreservesInvariant | src/modules/approvals/approvals.service.ts:18-59 | Every sequence of calls keeps the invariant |
| Workflow.ReachableGuarantees | src/modules/approvals/approvals.service.ts:33-57 | In every reachable store: at most one approval per (request, approver) pair, none by the request's creator, and each decided request has an approval with its status as decision |
| Workflow.ConflictUnreachable | src/modules/approvals/approvals.service.ts:39-42 | On a valid store `decide` never answers Conflict, because the PENDING check refuses first |
| Workflow.OnlyDecideChangesStatus | src/modules/requests/requests.service.ts:72 | Register, create and update never change an existing request's status and never record an approval |
| Workflow.DecideChangesOnlyItsRequest | src/modules/approvals/approvals.service.ts:44-57 | `decide` changes only the status of its own request, to the decision, and only appends approvals |
| Workflow.DecidedRowIsFinal | src/modules/requests/requests.service.ts:69-71 | On a valid store no call changes an APPROVED or REJECTED request |
| Workflow.DecidedIsFinal | src/modules/approvals/approvals.service.ts:36-38 | Once decided, a request stays exactly as it is over any sequence of calls |
| Workflow.ApprovalScenario | src/modules/approvals/approvals.service.ts:18-72 | A full session: register, create, approve. Then the request reads APPROVED, the owner's edit and a second decision are BadRequest, and the history is the single approval with the approver's public fields |

## Left out

- Database: the ORM client and its adapter are replaced by in-memory tables. Ids come from one counter and timestamps from a `now` argument. The schema's defaults (PENDING, generated ids, timestamps) and its foreign-key and unique constraints are not part of this model.
- Concurrency: every call is one atomic step. The race between the PENDING check and the transaction in `decide` is not modelled, nor the store's unique constraint that would catch it. The two reads of `findMany` are one step.
- Cryptography: bcrypt hashing and JWT signing and verification are function parameters. Token expiry lives inside `verify`.
- Login: the authentication service behind the login route is not part of this model, so "login succeeds after registration" is not stated. Only the login body is modelled.
- Pagination DTO: the pagination query DTO is not part of this model, so its bounds are unknown.
- Requests.FindMany: requires page >= 1 and limit >= 0, the values the unseen pagination DTO is taken to allow. Negative or fractional page and limit values are not modelled.
- Routes.ListEndpoint: requires supplied page and limit to meet the same bounds.
- Roles decorator: it is not part of this model. The per-route metadata is written out in `Routes.RequiredRoles`.
- Requests.ParseUpdateRequest: a null title passes validation and is modelled as not supplied. How the store treats a null title depends on the unseen schema.
- Numbers: JavaScript numbers are integers here. Floating point, NaN and the exponent form of very large numbers in `${n}` are not modelled. Status codes and durations are integers.
- String lengths: `slice` and `length` in the log line's 60-character cut count UTF-16 code units in JavaScript, and here they count Dafny characters (Unicode scalar values), so the cut can differ for astral characters. `MinLength` counts characters as the model does, except that it leaves the variation selectors U+FE0E and U+FE0F out of the count; Validators.MinLength counts them, so a title made only of variation selectors passes here and fails in the program.
- Validation pipe: its options (whitelisting, transformation of query strings into numbers) and its error message texts are not part of this model. One stand-in `BadRequest` is used.
- Tie order: rows with equal `createdAt` or `approvedAt` come out in some order fixed by the model. The store's order for ties is not modelled.
- Token payload: a payload without `sub` or `email` is not represented. The payload always has a subject id and an email, and a missing role is the empty string.
- Logging I/O: `Date.now`, the Logger sink and the rxjs `tap`/`map` plumbing are left out, as are reading `user-agent` and `statusCode` off the request and response. Only the string and level functions are modelled.
- Framework plumbing: the interceptors are not composed with the endpoints.
- Wiring and scripts: the module files, main bootstrap, Swagger generation and the seed script are I/O or dependency wiring with no logic to state.
- Users repository: `UsersRepository` is a pass-through to the ORM, modelled as the user table itself.

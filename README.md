# Voting app: candidate routes

A model of the candidate routes of a small voting API (`routes/candidateRoutes.js`).
Admins create, update and delete candidates; an authenticated user casts a vote for a
candidate; anyone can read the tally (sorted by votes) and the candidate list.

The document store is modelled as two in-memory tables held by the class
`CandidateRoutes.Db`:

- `candidates: map<Id, Candidate>`, where a candidate has `name`, `party`, `age`, a
  `votes` sequence of `Ballot(user)` entries and a stored `voteCount`;
- `users: map<Id, User>`, where a user has a `role` (`Voter` or `Admin`) and `isVoted`;
- `order: seq<Id>`, the natural order of the candidate collection, which an unsorted
  `find()` follows.

Each route handler is a method of `Db` that returns the status code the client receives
and updates the tables. The authenticated user id is a parameter. Each request also
takes `fault: Option<StoreCall>`, naming the one store call that throws during the
request, if any. A throw in the admin gate's user lookup is caught inside
`checkAdminRole` (lines 14-15), which then returns `false`, so the client gets 403. A throw
in any other call lands in the handler's `catch`, which answers 500; in the vote handler
that 500 reaches the client only if no 404 or 403 was sent before it. This is how the
model covers store failures. It also covers the vote handler's two
separate writes: the candidate write can succeed while the user write fails.

The vote handler is modelled as the code is written. The already-voted check (line 116)
and the admin check (line 119) send a response but do not `return`, so execution goes on
to the two writes. Only the first response sent reaches the client. A later send throws
("headers already sent") into the `catch`, whose own send throws again. So:

- a voter who has already voted gets 404, and a second ballot is recorded;
- an admin who has not voted gets 403, and the ballot is recorded;
- an admin who has already voted gets 404, and nothing is written: the 403 send throws
  before the writes.

The pure function `VoteTransaction.VoteRequest` states this behaviour. The imperative
method `Db.Vote` loads the two documents, changes them in memory, saves them one after
the other, and is proved equal to `VoteRequest`.

The comments at the head of the handler (lines 98-99) state the intent: "no admin can
vote" and "user can only vote once". The code does not keep either promise, and the model
follows the code. `VoteTransaction.VoteRequestWithReturns` gives the intended handler
alongside (see Findings).

Files: `wrappers.dfy` (Option), `records.dfy` (documents and store calls), `views.dfy`
(tally and listing), `vote.dfy` (the vote transaction as a function, and its corrected
variant), `routes.dfy` (`checkAdminRole` and the handlers).

## Model

| member | source | states |
|---|---|---|
| `CandidateRoutes.CheckAdminRole` | routes/candidateRoutes.js:8-17 | Truthy exactly when the lookup succeeds and the stored user's role is admin. `false` exactly when the lookup throws or finds no user (the `null.role` dereference). Undefined for a stored non-admin. |
| `CandidateRoutes.Db.Create` | routes/candidateRoutes.js:20-40 | 403 exactly when the admin gate is falsy. 200 exactly when the gate is truthy, the save does not throw and the id is free; the table then gains the new candidate (no ballots, count 0) at the end of the natural order. Otherwise the table is unchanged. Users never change; the count and ballot invariants are kept. |
| `CandidateRoutes.Db.Update` | routes/candidateRoutes.js:46-71 | 403 iff the gate is falsy, 500 iff the update throws, 404 iff the id is unknown. On 200 only that id's record changes, by the body's fields, and the response is the record after the update. Otherwise nothing changes. For bodies setting only name, party and age, the invariants are kept. |
| `CandidateRoutes.Db.Delete` | routes/candidateRoutes.js:73-94 | 403 iff the gate is falsy, 500 iff the delete throws, 404 iff the id is unknown. On 200 exactly that id leaves the table and the order, and the response is the removed record. Otherwise nothing changes. |
| `CandidateRoutes.Db.Vote` | routes/candidateRoutes.js:97-136 | The status and both new tables are exactly those of `VoteRequest` on the old tables; the natural order is unchanged. |
| `VoteTransaction.VoteRequest` | routes/candidateRoutes.js:97-136 | Unknown candidate: 404, no change. Unknown user: 400, no change. The candidate table changes iff the write step is reached, and then only by one ballot `{user}` appended to that candidate and its count rising by 1. `voteCount` equal to the length of `votes` is preserved, and "every ballot's user is marked" is preserved when the user save succeeds. Only the voter's `isVoted` can change, only to true. Each status is an iff: 500 exactly on a store failure before any response was sent (the finds at :106 and :111, or a save at :124 or :127 for an eligible voter); 404 for an unknown candidate or an already-voted user, even when a later save fails; 400 for an unknown user; 403 for an unvoted admin; 200 for an eligible voter with no store failure. |
| `VoteTransaction.PartialWriteAllowsSecondVote` | routes/candidateRoutes.js:122-127 | If the user save fails after the candidate save, the answer is 500, the voter stays unmarked, and a retry is answered 200 and records a second ballot for the same user. |
| `VoteTransaction.SecondBallotAsWritten` | routes/candidateRoutes.js:115-127 | On one input, a voter who has already voted gets 404, yet both `votes` and `voteCount` grow; with the returns, nothing changes. The general facts are `VoteRequest`'s: an already-voted user gets 404, and the write step is still reached unless the user is also an admin. |
| `VoteTransaction.AdminBallotAsWritten` | routes/candidateRoutes.js:118-127 | On one input, an admin who has not voted gets 403, yet the ballot is recorded and the admin is marked as voted; with the returns, nothing changes. The general facts are `VoteRequest`'s: an unvoted admin gets 403 and the write step is reached. |
| `VoteTransaction.VoteRequestWithReturns` | routes/candidateRoutes.js:115-120 | With a `return` after each unguarded send, a ballot is recorded only for an eligible voter. An already-voted user gets 404 and an admin 403, both with no change. For an eligible voter it behaves as the handler as written. |
| `Records.WithVote` | routes/candidateRoutes.js:122-123 | The old ballots are kept, exactly one `{user}` is appended at the end, `voteCount` rises by exactly 1 (so a consistent count stays consistent), and the other fields are unchanged. |
| `Records.NewCandidate` | routes/candidateRoutes.js:28 | A new candidate carries the body's fields, no ballots and a consistent count. |
| `Records.ApplyPatch` | routes/candidateRoutes.js:56-59 | Each field the body gives is set and each absent field is kept. The ballots and the counter are untouched, so their agreement is kept. |
| `Views.SortByVotes` | routes/candidateRoutes.js:142 | The result is ordered by non-increasing `voteCount` and is a permutation of the input. |
| `Views.TallyViewPermutes` | routes/candidateRoutes.js:145-150 | Projecting two permutations of the same candidates to `(party, count)` gives permutations of the same records. |
| `Views.Tally` | routes/candidateRoutes.js:142-150 | One record per input candidate, ordered by non-increasing count, and a permutation of the `(party, voteCount)` projections of the candidates. |
| `Views.TallyCovers` | routes/candidateRoutes.js:142-150 | Every candidate's `(party, voteCount)` is in the tally, and every tally record is some candidate's. |
| `Views.ListCovers` | routes/candidateRoutes.js:163 | The listing has one `(name, party)` record per candidate, holds every candidate's record, and holds nothing else. |
| `CandidateRoutes.Db.Documents` | routes/candidateRoutes.js:142 | An unsorted `find()` returns, at position i, the document of the i-th id of the natural order, so every stored candidate exactly once and only stored candidates, with as many documents as the table has ids. |
| `CandidateRoutes.Db.GetVoteCount` | routes/candidateRoutes.js:139-157 | 500 with no body iff the read throws. Otherwise there is one record per stored candidate, sorted by non-increasing count, a permutation of the candidates' `(party, voteCount)`. Each candidate's record appears, and nothing else does. |
| `CandidateRoutes.Db.GetCandidates` | routes/candidateRoutes.js:160-171 | 500 iff the read throws. Otherwise the i-th record is the `(name, party)` of the i-th id in the natural order, whose ids are distinct and are exactly the table's ids, so each stored candidate contributes exactly one record. The records are a permutation of the projections of the stored documents; every candidate's record is present, and every record is some candidate's. |
| `CandidateRoutes.Without` | routes/candidateRoutes.js:82 | Removing an id from the natural order keeps every other id and keeps the ids distinct. |
| `CandidateRoutes.DistinctCovers` | routes/candidateRoutes.js:142 | A duplicate-free order that covers the table's ids has the table's size, so the views have one record per candidate. |

## Left out

- `server.js` (app setup, body parsing, the port, route mounting) is not part of this model.
- The token middleware is not modelled. The authenticated user id is a handler parameter,
  and the 401 it answers for a bad token is not modelled.
- Store internals are not modelled: schema validation (`runValidators`), `_id` generation
  (the new id is a parameter of `Create`) and ballot timestamps. A malformed id that makes
  a lookup throw is covered only as that call's `fault`.
- Request bodies carry only `name`, `party` and `age`. A body that sets `votes` or
  `voteCount` directly is not modelled.
- User fields other than `role` and `isVoted` are not modelled. Roles other than `voter`
  and `admin` are not modelled either.
- Concurrency is not modelled: each request runs alone, so the race between the read at
  line 111 and the write at line 127 is out of scope.
- Ids are modelled as naturals rather than object-id strings.
- `console.log` output and the exception from the `catch`'s second send, which is left
  unhandled, are not modelled: neither changes a table or the status the client receives.
  That exception comes after the writes for an already-voted voter and for an unvoted
  admin, and nothing catches it, so the server process may exit afterwards. Later
  requests against an exited server are not modelled.
- The natural order after a create is assumed, not promised by the store: `Create`
  appends the new id at the end of `order`, so the listing assumes that new documents come
  last in the collection's unsorted `find()`.
- Response message texts are not modelled; handlers return statuses and the documents
  they send.
- Views.Tally: does not fix the order of candidates with equal `voteCount`, because the
  store leaves that order unspecified.

## Findings

| source | as written | input that shows it | evidently intended | confidence | as-written member | corrected member |
|---|---|---|---|---|---|---|
| routes/candidateRoutes.js:115-117 | The already-voted check sends 404 but does not return, so the ballot is still pushed and saved. | A candidate with one ballot from user 7; user 7 is a voter with `isVoted` true and votes again. The answer is 404 and `voteCount` becomes 2. | "user can only vote once": return after the 404, leaving both tables unchanged. | not executed | `VoteTransaction.SecondBallotAsWritten` | `VoteTransaction.VoteRequestWithReturns` |
| routes/candidateRoutes.js:118-120 | The admin check sends 403 but does not return, so an admin who has not voted has a ballot recorded. | User 3 is an admin with `isVoted` false, voting for candidate 1. The answer is 403, a ballot is recorded and `isVoted` becomes true. | "no admin can vote": return after the 403, leaving both tables unchanged. | not executed | `VoteTransaction.AdminBallotAsWritten` | `VoteTransaction.VoteRequestWithReturns` |

`Db.Vote` models the handler as it is written, because the tables as the system leaves
them are what the rest of the model describes. The corrected handler is stated as
`VoteRequestWithReturns`, proved to record ballots only for eligible voters, and shown
to agree with the handler as written on every eligible voter.

/** The candidate route handlers over an in-memory copy of the two collections.
    The authenticated user id a token carries is a parameter of each handler. */
module CandidateRoutes {
  import opened Wrappers
  import opened Records
  import opened Views
  import opened VoteTransaction

  /** What `checkAdminRole` resolves to: `true`, `false`, or nothing at all. */
  datatype Gate = ReturnedTrue | ReturnedFalse | ReturnedUndefined {
    predicate Truthy() { this == ReturnedTrue }
  }

  /** `checkAdminRole`: `true` for a stored admin; `false` when the lookup
      throws, which includes the missing user whose `null.role` throws;
      otherwise it falls off the end of the `try` and yields nothing. */
  function CheckAdminRole(users: map<Id, User>, userId: Id, fault: Option<StoreCall>): (r: Gate)
    ensures r.Truthy() <==> !FailsAt(fault, AdminLookup) && userId in users && users[userId].role == Admin
    ensures r == ReturnedFalse <==> FailsAt(fault, AdminLookup) || userId !in users
    ensures r == ReturnedUndefined <==> !FailsAt(fault, AdminLookup) && userId in users && users[userId].role != Admin
  {
    if FailsAt(fault, AdminLookup) || userId !in users then ReturnedFalse
    else if users[userId].role == Admin then ReturnedTrue
    else ReturnedUndefined
  }

  /** No id occurs twice. */
  predicate Distinct(ids: seq<Id>) {
    forall i, j :: 0 <= i < j < |ids| ==> ids[i] != ids[j]
  }

  /** `ids` with `id` taken out. */
  function Without(ids: seq<Id>, id: Id): (r: seq<Id>)
    ensures forall x :: x in r <==> x in ids && x != id
    ensures Distinct(ids) ==> Distinct(r)
  {
    if ids == [] then []
    else
      var rest := Without(ids[1..], id);
      assert forall x :: x in ids <==> x == ids[0] || x in ids[1..];
      assert forall j :: 0 <= j < |ids[1..]| ==> ids[1..][j] == ids[j + 1];
      assert Distinct(ids) ==> ids[0] !in ids[1..];
      assert forall k :: 0 <= k < |rest| ==> rest[k] in rest;
      if ids[0] == id then rest else [ids[0]] + rest
  }

  /** A sequence of distinct ids that covers a key set is as long as the set. */
  lemma {:induction false} DistinctCovers(ids: seq<Id>, keys: set<Id>)
    requires Distinct(ids)
    requires forall i :: 0 <= i < |ids| ==> ids[i] in keys
    requires forall k :: k in keys ==> k in ids
    ensures |ids| == |keys|
  {
    if ids == [] {
      assert keys == {};
    } else {
      var rest := keys - {ids[0]};
      forall k | k in rest ensures k in ids[1..] {
        var i :| 0 <= i < |ids| && ids[i] == k;
        assert i != 0;
      }
      DistinctCovers(ids[1..], rest);
    }
  }

  /** The documents named by `ids`, in that order. */
  function Rows(table: map<Id, Candidate>, ids: seq<Id>): seq<Candidate>
    requires forall i :: 0 <= i < |ids| ==> ids[i] in table
  {
    seq(|ids|, i requires 0 <= i < |ids| => table[ids[i]])
  }

  /** Sending a response: the first send sets the status the client
      receives; a later send changes nothing (it throws instead). */
  function Send(sent: Option<int>, status: int): Option<int>
  {
    if sent.None? then Some(status) else sent
  }

  /** The candidate and user collections. `order` is the candidates'
      natural order, which an unsorted `find()` returns. */
  class Db {
    var candidates: map<Id, Candidate>
    var users: map<Id, User>
    var order: seq<Id>

    ghost predicate Valid()
      reads this
    {
      && Distinct(order)
      && (forall i :: 0 <= i < |order| ==> order[i] in candidates)
      && (forall id :: id in candidates ==> id in order)
    }

    /** A store holding the registered users and no candidate yet. */
    constructor (registered: map<Id, User>)
      ensures Valid()
      ensures candidates == map[] && users == registered && order == []
    {
      candidates, users, order := map[], registered, [];
    }

    /** `Candidate.find()`: every stored candidate once, in natural order. */
    function Documents(): (docs: seq<Candidate>)
      reads this
      requires Valid()
      ensures |docs| == |order| == |candidates|
      ensures forall i :: 0 <= i < |docs| ==> docs[i] == candidates[order[i]]
      ensures forall id :: id in candidates ==> candidates[id] in docs
      ensures forall d :: d in docs ==> exists id :: id in candidates && candidates[id] == d
    {
      DistinctCovers(order, candidates.Keys);
      var docs := Rows(candidates, order);
      assert forall id :: id in candidates ==> candidates[id] in docs by {
        forall id | id in candidates ensures candidates[id] in docs {
          var i :| 0 <= i < |order| && order[i] == id;
          assert docs[i] == candidates[id];
        }
      }
      docs
    }

    /** `POST /`: create a candidate from the request body. `newId` is the id
        the store assigns; saving under an id already taken is a duplicate-key
        error, which lands in the `catch`. */
    method Create(requesterId: Id, body: Profile, newId: Id, fault: Option<StoreCall>)
      returns (status: int, response: Option<Candidate>)
      requires Valid()
      modifies this
      ensures Valid() && users == old(users)
      ensures status == 403 <==> !CheckAdminRole(old(users), requesterId, fault).Truthy()
      ensures status == 200 <==>
                && CheckAdminRole(old(users), requesterId, fault).Truthy()
                && !FailsAt(fault, CandidateWrite) && newId !in old(candidates)
      ensures status in {200, 403, 500}
      ensures status == 200 ==>
                && candidates == old(candidates)[newId := NewCandidate(body)]
                && order == old(order) + [newId]
                && response == Some(NewCandidate(body))
      ensures status != 200 ==> candidates == old(candidates) && order == old(order) && response == None
      ensures CountsConsistent(old(candidates)) ==> CountsConsistent(candidates)
      ensures BallotsMarked(old(candidates), old(users)) ==> BallotsMarked(candidates, users)
    {
      if !CheckAdminRole(users, requesterId, fault).Truthy() {
        return 403, None;
      }
      var created := NewCandidate(body);
      if FailsAt(fault, CandidateWrite) || newId in candidates {
        return 500, None;
      }
      candidates := candidates[newId := created];
      order := order + [newId];
      status, response := 200, Some(created);
    }

    /** `PUT /:candidateID`: set the body's fields on that candidate and
        respond with the document after the update. */
    method Update(requesterId: Id, candidateId: Id, body: Patch, fault: Option<StoreCall>)
      returns (status: int, response: Option<Candidate>)
      requires Valid()
      modifies this
      ensures Valid() && users == old(users) && order == old(order)
      ensures status == 403 <==> !CheckAdminRole(old(users), requesterId, fault).Truthy()
      ensures status == 500 <==>
                CheckAdminRole(old(users), requesterId, fault).Truthy() && FailsAt(fault, CandidateWrite)
      ensures status == 404 <==>
                && CheckAdminRole(old(users), requesterId, fault).Truthy()
                && !FailsAt(fault, CandidateWrite) && candidateId !in old(candidates)
      ensures status in {200, 403, 404, 500}
      ensures status == 200 ==>
                && candidates == old(candidates)[candidateId := ApplyPatch(old(candidates)[candidateId], body)]
                && response == Some(candidates[candidateId])
      ensures status != 200 ==> candidates == old(candidates) && response == None
      ensures CountsConsistent(old(candidates)) ==> CountsConsistent(candidates)
      ensures BallotsMarked(old(candidates), old(users)) ==> BallotsMarked(candidates, users)
    {
      if !CheckAdminRole(users, requesterId, fault).Truthy() {
        return 403, None;
      }
      if FailsAt(fault, CandidateWrite) {
        return 500, None;
      }
      if candidateId !in candidates {
        return 404, None;
      }
      var updated := ApplyPatch(candidates[candidateId], body);
      candidates := candidates[candidateId := updated];
      status, response := 200, Some(updated);
    }

    /** `DELETE /:candidateID`: remove that candidate and respond with the
        removed document. */
    method Delete(requesterId: Id, candidateId: Id, fault: Option<StoreCall>)
      returns (status: int, response: Option<Candidate>)
      requires Valid()
      modifies this
      ensures Valid() && users == old(users)
      ensures status == 403 <==> !CheckAdminRole(old(users), requesterId, fault).Truthy()
      ensures status == 500 <==>
                CheckAdminRole(old(users), requesterId, fault).Truthy() && FailsAt(fault, CandidateWrite)
      ensures status == 404 <==>
                && CheckAdminRole(old(users), requesterId, fault).Truthy()
                && !FailsAt(fault, CandidateWrite) && candidateId !in old(candidates)
      ensures status in {200, 403, 404, 500}
      ensures status == 200 ==>
                && candidates == old(candidates) - {candidateId}
                && order == Without(old(order), candidateId)
                && response == Some(old(candidates)[candidateId])
      ensures status != 200 ==> candidates == old(candidates) && order == old(order) && response == None
      ensures CountsConsistent(old(candidates)) ==> CountsConsistent(candidates)
      ensures BallotsMarked(old(candidates), old(users)) ==> BallotsMarked(candidates, users)
    {
      if !CheckAdminRole(users, requesterId, fault).Truthy() {
        return 403, None;
      }
      if FailsAt(fault, CandidateWrite) {
        return 500, None;
      }
      if candidateId !in candidates {
        return 404, None;
      }
      var removed := candidates[candidateId];
      candidates := candidates - {candidateId};
      order := Without(order, candidateId);
      assert forall i :: 0 <= i < |order| ==> order[i] in order;
      status, response := 200, Some(removed);
    }

    /** `POST /vote/:candidateID` for the authenticated `userId`. The loaded
        candidate and user documents are changed in memory, then saved one
        after the other. */
    method Vote(candidateId: Id, userId: Id, fault: Option<StoreCall>) returns (status: int)
      requires Valid()
      modifies this
      ensures Valid() && order == old(order)
      ensures VoteOutcome(status, candidates, users) ==
                VoteRequest(old(candidates), old(users), candidateId, userId, fault)
    {
      if FailsAt(fault, FindCandidate) {
        return 500;
      }
      if candidateId !in candidates {
        return 404;
      }
      var candidate := candidates[candidateId];
      if FailsAt(fault, FindUser) {
        return 500;
      }
      if userId !in users {
        return 400;
      }
      var user := users[userId];
      ghost var spec := VoteRequest(old(candidates), old(users), candidateId, userId, fault);
      var sent: Option<int> := None;
      var threw := false;
      if user.isVoted {
        threw, sent := sent.Some?, Send(sent, 404);
      }
      if user.role == Admin {
        threw, sent := sent.Some?, Send(sent, 403);
      }
      if !threw {
        candidate := candidate.(votes := candidate.votes + [Ballot(userId)]);
        candidate := candidate.(voteCount := candidate.voteCount + 1);
        if FailsAt(fault, SaveCandidate) {
          threw := true;
        } else {
          candidates := candidates[candidateId := candidate];
          assert candidates == spec.candidates;
          user := user.(isVoted := true);
          if FailsAt(fault, SaveUser) {
            threw := true;
          } else {
            users := users[userId := user];
            assert users == spec.users;
            threw, sent := sent.Some?, Send(sent, 200);
          }
        }
      }
      if threw {
        // the catch: its 500 reaches the client only if nothing was sent yet
        sent := Send(sent, 500);
      }
      status := sent.GetOr(500);
    }

    /** `GET /vote/count`. */
    method GetVoteCount(fault: Option<StoreCall>) returns (status: int, records: seq<TallyEntry>)
      requires Valid()
      ensures status == 200 || status == 500
      ensures status == 500 <==> FailsAt(fault, FindAll)
      ensures status == 500 ==> records == []
      ensures status == 200 ==>
                && |records| == |candidates|
                && (forall i, j :: 0 <= i < j < |records| ==> records[i].count >= records[j].count)
                && multiset(records) == multiset(TallyView(Documents()))
                && (forall id :: id in candidates ==> TallyOf(candidates[id]) in records)
                && (forall e :: e in records ==> exists id :: id in candidates && TallyOf(candidates[id]) == e)
    {
      if FailsAt(fault, FindAll) {
        return 500, [];
      }
      var docs := Documents();
      records := Tally(docs);
      TallyCovers(docs);
      status := 200;
    }

    /** `GET /`. */
    method GetCandidates(fault: Option<StoreCall>) returns (status: int, records: seq<ListEntry>)
      requires Valid()
      ensures status == 200 || status == 500
      ensures status == 500 <==> FailsAt(fault, FindAll)
      ensures status == 500 ==> records == []
      ensures status == 200 ==>
                && |records| == |order| == |candidates|
                && (forall i :: 0 <= i < |order| ==> records[i] == ListOf(candidates[order[i]]))
                && multiset(records) == multiset(ListView(Documents()))
                && (forall id :: id in candidates ==> ListOf(candidates[id]) in records)
                && (forall e :: e in records ==> exists id :: id in candidates && ListOf(candidates[id]) == e)
    {
      if FailsAt(fault, FindAll) {
        return 500, [];
      }
      var docs := Documents();
      records := ListView(docs);
      ListCovers(docs);
      status := 200;
    }
  }

  /** An admin creates candidate A of party X; the listing then shows it. */
  method AdminCreatesThenLists()
  {
    var db := new Db(map[0 := User(Admin, false), 1 := User(Voter, false)]);
    var status, created := db.Create(0, Profile("A", "X", 40), 10, None);
    assert status == 200;
    assert db.candidates == map[10 := Candidate("A", "X", 40, [], 0)];
    var listed;
    status, listed := db.GetCandidates(None);
    assert status == 200 && |listed| == 1 && ListEntry("A", "X") in listed;
  }

  /** Against the handler as written, voter 1 votes for A and then votes
      again: the second request is answered 404 and still records a ballot. */
  method VoterVotesTwice()
  {
    var voters := map[0 := User(Admin, false), 1 := User(Voter, false)];
    var db := new Db(voters);
    var status, created := db.Create(0, Profile("A", "X", 40), 10, None);
    assert db.candidates == map[10 := Candidate("A", "X", 40, [], 0)];
    status := db.Vote(10, 1, None);
    assert status == 200;
    assert db.candidates == map[10 := Candidate("A", "X", 40, [Ballot(1)], 1)];
    assert db.users == voters[1 := User(Voter, true)];
    status := db.Vote(10, 1, None);
    assert status == 404;
    assert db.candidates[10].votes == [Ballot(1), Ballot(1)] && db.candidates[10].voteCount == 2;
  }
}

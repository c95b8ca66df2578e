/** The vote handler (`POST /vote/:candidateID`) as a function of the two
    tables, the request and the store call that throws, if any.

    The handler checks, in order: the candidate exists (else 404), the user
    exists (else 400), the user has not voted (else it sends 404), the user is
    not an admin (else it sends 403). The last two checks send a response but
    do not leave the handler, so execution goes on to the two writes. Only the
    first response sent reaches the client; a second send throws ("headers
    already sent") into the handler's `catch`, whose own send throws again and
    is left unhandled. */
module VoteTransaction {
  import opened Wrappers
  import opened Records

  /** The status the client receives and the two tables after the request. */
  datatype VoteOutcome = VoteOutcome(status: int, candidates: map<Id, Candidate>, users: map<Id, User>)

  /** The user exists, has not voted and is not an admin. */
  predicate Eligible(users: map<Id, User>, userId: Id) {
    userId in users && !users[userId].isVoted && users[userId].role != Admin
  }

  /** The vote handler runs `candidate.save()` and it succeeds. For an admin
      who has already voted, the 403 send at the admin check is the second
      send, so that user never gets this far. */
  predicate ReachesWrites(candidates: map<Id, Candidate>, users: map<Id, User>,
                          candidateId: Id, userId: Id, fault: Option<StoreCall>)
  {
    && !FailsAt(fault, FindCandidate) && candidateId in candidates
    && !FailsAt(fault, FindUser) && userId in users
    && !(users[userId].isVoted && users[userId].role == Admin)
    && !FailsAt(fault, SaveCandidate)
  }

  /** The handler as written. */
  function VoteRequest(candidates: map<Id, Candidate>, users: map<Id, User>,
                       candidateId: Id, userId: Id, fault: Option<StoreCall>): (o: VoteOutcome)
    // an unknown candidate: 404 and no write
    ensures !FailsAt(fault, FindCandidate) && candidateId !in candidates ==>
              o == VoteOutcome(404, candidates, users)
    // a known candidate but an unknown user: 400 and no write
    ensures !FailsAt(fault, FindCandidate) && candidateId in candidates &&
            !FailsAt(fault, FindUser) && userId !in users ==>
              o == VoteOutcome(400, candidates, users)
    // the candidate table changes exactly when the write step is reached, and
    // then by one ballot appended to that candidate alone
    ensures o.candidates.Keys == candidates.Keys
    ensures o.candidates != candidates <==> ReachesWrites(candidates, users, candidateId, userId, fault)
    ensures ReachesWrites(candidates, users, candidateId, userId, fault) ==>
              && o.candidates[candidateId].votes == candidates[candidateId].votes + [Ballot(userId)]
              && o.candidates[candidateId].voteCount == candidates[candidateId].voteCount + 1
              && o.candidates[candidateId].name == candidates[candidateId].name
              && o.candidates[candidateId].party == candidates[candidateId].party
              && o.candidates[candidateId].age == candidates[candidateId].age
              && forall id :: id in candidates && id != candidateId ==> o.candidates[id] == candidates[id]
    ensures CountsConsistent(candidates) ==> CountsConsistent(o.candidates)
    // the user table changes only by marking the requesting user, and only
    // after the candidate write
    ensures o.users.Keys == users.Keys
    ensures o.users != users ==>
              && ReachesWrites(candidates, users, candidateId, userId, fault)
              && !FailsAt(fault, SaveUser)
              && o.users == users[userId := users[userId].(isVoted := true)]
    ensures ReachesWrites(candidates, users, candidateId, userId, fault) && !FailsAt(fault, SaveUser) ==>
              o.users[userId].isVoted
    ensures forall id :: id in users && users[id].isVoted ==> o.users[id].isVoted
    ensures forall id :: id in users ==> o.users[id].role == users[id].role
    ensures !FailsAt(fault, SaveUser) && BallotsMarked(candidates, users) ==>
              BallotsMarked(o.candidates, o.users)
    // the status the client receives
    ensures o.status == 200 <==>
              && ReachesWrites(candidates, users, candidateId, userId, fault)
              && Eligible(users, userId) && !FailsAt(fault, SaveUser)
    ensures && candidateId in candidates && userId in users && users[userId].isVoted
            && !FailsAt(fault, FindCandidate) && !FailsAt(fault, FindUser)
            ==> o.status == 404
    ensures && candidateId in candidates && userId in users && !users[userId].isVoted
            && users[userId].role == Admin
            && !FailsAt(fault, FindCandidate) && !FailsAt(fault, FindUser)
            ==> o.status == 403
    ensures o.status in {200, 400, 403, 404, 500}
    // every status as an iff: a store failure before any send answers 500,
    // and a 404 or 403 sent by the unguarded checks is what the client keeps
    ensures o.status == 500 <==>
              || FailsAt(fault, FindCandidate)
              || (candidateId in candidates && FailsAt(fault, FindUser))
              || (&& candidateId in candidates && Eligible(users, userId)
                  && (FailsAt(fault, SaveCandidate) || FailsAt(fault, SaveUser)))
    ensures o.status == 404 <==>
              || (!FailsAt(fault, FindCandidate) && candidateId !in candidates)
              || (&& !FailsAt(fault, FindCandidate) && candidateId in candidates
                  && !FailsAt(fault, FindUser) && userId in users && users[userId].isVoted)
    ensures o.status == 400 <==>
              && !FailsAt(fault, FindCandidate) && candidateId in candidates
              && !FailsAt(fault, FindUser) && userId !in users
    ensures o.status == 403 <==>
              && !FailsAt(fault, FindCandidate) && candidateId in candidates
              && !FailsAt(fault, FindUser) && userId in users
              && !users[userId].isVoted && users[userId].role == Admin
  {
    if FailsAt(fault, FindCandidate) then VoteOutcome(500, candidates, users)
    else if candidateId !in candidates then VoteOutcome(404, candidates, users)
    else if FailsAt(fault, FindUser) then VoteOutcome(500, candidates, users)
    else if userId !in users then VoteOutcome(400, candidates, users)
    else
      var user := users[userId];
      // the response sent by the two checks that do not return
      var sent: Option<int> := if user.isVoted then Some(404) else if user.role == Admin then Some(403) else None;
      if user.isVoted && user.role == Admin then
        VoteOutcome(404, candidates, users)   // the 403 is a second send: it throws before any write
      else if FailsAt(fault, SaveCandidate) then
        VoteOutcome(sent.GetOr(500), candidates, users)
      else
        var written := candidates[candidateId := WithVote(candidates[candidateId], userId)];
        assert written[candidateId] != candidates[candidateId];
        if FailsAt(fault, SaveUser) then
          VoteOutcome(sent.GetOr(500), written, users)
        else
          VoteOutcome(sent.GetOr(200), written, users[userId := user.(isVoted := true)])
  }

  /** The double-vote hazard of the two separate writes: when the
      user write fails after the candidate write succeeded, the voter is not
      marked, so a retry records a second ballot for the same user. */
  lemma PartialWriteAllowsSecondVote(candidates: map<Id, Candidate>, users: map<Id, User>,
                                     candidateId: Id, userId: Id)
    requires candidateId in candidates && Eligible(users, userId)
    ensures var first := VoteRequest(candidates, users, candidateId, userId, Some(SaveUser));
            var retry := VoteRequest(first.candidates, first.users, candidateId, userId, None);
            && first.status == 500 && retry.status == 200
            && retry.candidates[candidateId].votes ==
                 candidates[candidateId].votes + [Ballot(userId), Ballot(userId)]
  {
  }

  /** The handler with a `return` after each of the two unguarded sends, which
      is what the "no admin can vote" and "user can only vote once" comments
      at the head of the handler ask for. */
  function VoteRequestWithReturns(candidates: map<Id, Candidate>, users: map<Id, User>,
                                  candidateId: Id, userId: Id, fault: Option<StoreCall>): (o: VoteOutcome)
    // a ballot is recorded only for an eligible voter, and an admin or a user
    // who has already voted changes nothing
    ensures o.candidates != candidates ==> candidateId in candidates && Eligible(users, userId)
    ensures o.users != users ==> o.candidates != candidates
    ensures candidateId in candidates && userId in users && !FailsAt(fault, FindCandidate) &&
            !FailsAt(fault, FindUser) && users[userId].isVoted ==>
              o == VoteOutcome(404, candidates, users)
    ensures candidateId in candidates && userId in users && !FailsAt(fault, FindCandidate) &&
            !FailsAt(fault, FindUser) && !users[userId].isVoted && users[userId].role == Admin ==>
              o == VoteOutcome(403, candidates, users)
    ensures o.status == 200 <==>
              && candidateId in candidates && Eligible(users, userId)
              && fault !in {Some(FindCandidate), Some(FindUser), Some(SaveCandidate), Some(SaveUser)}
    // for an eligible voter it behaves as the handler as written
    ensures !Eligible(users, userId) ==> o.candidates == candidates && o.users == users
    ensures Eligible(users, userId) ==> o == VoteRequest(candidates, users, candidateId, userId, fault)
  {
    if FailsAt(fault, FindCandidate) then VoteOutcome(500, candidates, users)
    else if candidateId !in candidates then VoteOutcome(404, candidates, users)
    else if FailsAt(fault, FindUser) then VoteOutcome(500, candidates, users)
    else if userId !in users then VoteOutcome(400, candidates, users)
    else if users[userId].isVoted then VoteOutcome(404, candidates, users)
    else if users[userId].role == Admin then VoteOutcome(403, candidates, users)
    else VoteRequest(candidates, users, candidateId, userId, fault)
  }

  /** The missing returns, shown on one input: a voter who has already voted
      gets 404, yet a second ballot is recorded; with the returns it is not. */
  lemma SecondBallotAsWritten()
    ensures var candidates := map[1 := Candidate("A", "X", 40, [Ballot(7)], 1)];
            var users := map[7 := User(Voter, true)];
            var asWritten := VoteRequest(candidates, users, 1, 7, None);
            var intended := VoteRequestWithReturns(candidates, users, 1, 7, None);
            && asWritten.status == 404
            && asWritten.candidates[1].votes == [Ballot(7), Ballot(7)]
            && asWritten.candidates[1].voteCount == 2
            && intended == VoteOutcome(404, candidates, users)
  {
  }

  /** The same for an admin who has not voted: 403, and the ballot is recorded. */
  lemma AdminBallotAsWritten()
    ensures var candidates := map[1 := Candidate("A", "X", 40, [], 0)];
            var users := map[3 := User(Admin, false)];
            var asWritten := VoteRequest(candidates, users, 1, 3, None);
            var intended := VoteRequestWithReturns(candidates, users, 1, 3, None);
            && asWritten.status == 403
            && asWritten.candidates[1].votes == [Ballot(3)]
            && asWritten.users[3].isVoted
            && intended == VoteOutcome(403, candidates, users)
  {
  }
}

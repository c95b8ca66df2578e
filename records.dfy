/** The documents of the two collections the candidate routes read and write,
    and the calls those routes make into the document store. */
module Records {
  import opened Wrappers

  /** A document identifier (the store's `_id`, and the `id` carried in a token). */
  type Id = nat

  /** A user's `role` field; the routes only compare it with `admin`. */
  datatype Role = Voter | Admin

  /** A user document, reduced to the two fields the routes read or write. */
  datatype User = User(role: Role, isVoted: bool)

  /** One entry of a candidate's `votes` array: the id of the user who cast it. */
  datatype Ballot = Ballot(user: Id)

  /** A candidate document. `voteCount` is stored beside `votes` and is meant to
      equal its length; nothing in the store enforces that. */
  datatype Candidate = Candidate(name: string, party: string, age: int,
                                 votes: seq<Ballot>, voteCount: int)

  /** The candidate fields a request body supplies when a candidate is created. */
  datatype Profile = Profile(name: string, party: string, age: int)

  /** The candidate fields a request body supplies when a candidate is updated;
      an absent field keeps its stored value. */
  datatype Patch = Patch(name: Option<string>, party: Option<string>, age: Option<int>)

  /** The store calls a request can make. A request is given the one call, if
      any, that throws. A throw in `checkAdminRole`'s lookup is caught there and
      makes the gate answer `false`; a throw anywhere else lands in the
      handler's `catch`, whose 500 reaches the client only if no response was
      sent before it. */
  datatype StoreCall =
    | AdminLookup     // User.findOne inside checkAdminRole
    | CandidateWrite  // save of a new candidate, findByIdAndUpdate, findByIdAndDelete
    | FindCandidate   // Candidate.findById in the vote handler
    | FindUser        // User.findById in the vote handler
    | SaveCandidate   // candidate.save() in the vote handler
    | SaveUser        // user.save() in the vote handler
    | FindAll         // Candidate.find() behind the two read views

  predicate FailsAt(fault: Option<StoreCall>, call: StoreCall) {
    fault == Some(call)
  }

  /** The denormalised counter agrees with the ballots. */
  predicate CountConsistent(c: Candidate) {
    c.voteCount == |c.votes|
  }

  predicate CountsConsistent(table: map<Id, Candidate>) {
    forall id :: id in table ==> CountConsistent(table[id])
  }

  /** Every ballot in the table was cast by a user the table knows as having voted. */
  predicate BallotsMarked(table: map<Id, Candidate>, users: map<Id, User>) {
    forall id, k :: id in table && 0 <= k < |table[id].votes| ==>
      table[id].votes[k].user in users && users[table[id].votes[k].user].isVoted
  }

  /** A freshly constructed candidate document: no ballots, a zero counter. */
  function NewCandidate(p: Profile): (c: Candidate)
    ensures CountConsistent(c) && c.votes == []
    ensures c.name == p.name && c.party == p.party && c.age == p.age
  {
    Candidate(p.name, p.party, p.age, [], 0)
  }

  /** `candidate.votes.push({user})` followed by `candidate.voteCount++`. */
  function WithVote(c: Candidate, voter: Id): (r: Candidate)
    ensures |r.votes| == |c.votes| + 1 && r.votes[..|c.votes|] == c.votes
    ensures r.votes[|c.votes|] == Ballot(voter)
    ensures r.voteCount == c.voteCount + 1
    ensures CountConsistent(c) ==> CountConsistent(r)
    ensures r.name == c.name && r.party == c.party && r.age == c.age
  {
    c.(votes := c.votes + [Ballot(voter)], voteCount := c.voteCount + 1)
  }

  /** The fields a `findByIdAndUpdate` body sets; the ballots and the counter stay. */
  function ApplyPatch(c: Candidate, p: Patch): (r: Candidate)
    ensures r.votes == c.votes && r.voteCount == c.voteCount
    ensures CountConsistent(c) ==> CountConsistent(r)
    ensures p.name.Some? ==> r.name == p.name.value
    ensures p.name.None? ==> r.name == c.name
    ensures p.party.Some? ==> r.party == p.party.value
    ensures p.party.None? ==> r.party == c.party
    ensures p.age.Some? ==> r.age == p.age.value
    ensures p.age.None? ==> r.age == c.age
  {
    c.(name := p.name.GetOr(c.name), party := p.party.GetOr(c.party), age := p.age.GetOr(c.age))
  }
}

/** The two read-only views over the candidate collection: the tally
    (`GET /vote/count`) and the public listing (`GET /`). */
module Views {
  import opened Records

  /** Non-increasing `voteCount`, the order `sort({ voteCount: 'desc' })` produces. */
  predicate SortedByVotes(s: seq<Candidate>) {
    forall i, j :: 0 <= i < j < |s| ==> s[i].voteCount >= s[j].voteCount
  }

  /** In a sorted sequence no candidate has more votes than the first. */
  lemma SortedHead(s: seq<Candidate>)
    requires SortedByVotes(s) && s != []
    ensures forall x :: x in s ==> x.voteCount <= s[0].voteCount
    ensures forall x :: x in s[1..] ==> x.voteCount <= s[0].voteCount
  {
  }

  /** A candidate with at least as many votes as every member of a sorted
      sequence can go in front of it. */
  lemma PrependSorted(h: Candidate, t: seq<Candidate>)
    requires SortedByVotes(t)
    requires forall x :: x in t ==> x.voteCount <= h.voteCount
    ensures SortedByVotes([h] + t)
  {
  }

  /** Puts `c` in front of the first candidate with fewer votes. */
  function InsertByVotes(c: Candidate, s: seq<Candidate>): (r: seq<Candidate>)
    requires SortedByVotes(s)
    ensures SortedByVotes(r)
    ensures multiset(r) == multiset(s) + multiset{c}
    ensures forall x :: x in r ==> x == c || x in s
  {
    if s == [] then
      [c]
    else if c.voteCount >= s[0].voteCount then
      SortedHead(s);
      PrependSorted(c, s);
      [c] + s
    else
      var rest := InsertByVotes(c, s[1..]);
      assert multiset([s[0]] + rest) == multiset(s) + multiset{c} by {
        assert s == [s[0]] + s[1..];
      }
      SortedHead(s);
      PrependSorted(s[0], rest);
      [s[0]] + rest
  }

  /** The candidates ordered by non-increasing `voteCount`; the order among
      equal counts is left to the implementation, as the store leaves it. */
  function SortByVotes(s: seq<Candidate>): (r: seq<Candidate>)
    ensures SortedByVotes(r)
    ensures multiset(r) == multiset(s)
  {
    if s == [] then []
    else
      assert s == [s[0]] + s[1..];
      InsertByVotes(s[0], SortByVotes(s[1..]))
  }

  /** One record of the tally: `{ party, count }`. */
  datatype TallyEntry = TallyEntry(party: string, count: int)

  function TallyOf(c: Candidate): TallyEntry {
    TallyEntry(c.party, c.voteCount)
  }

  /** The `.map` projection of the tally route. */
  function TallyView(docs: seq<Candidate>): seq<TallyEntry> {
    seq(|docs|, i requires 0 <= i < |docs| => TallyOf(docs[i]))
  }

  lemma TallyViewConcat(a: seq<Candidate>, b: seq<Candidate>)
    ensures TallyView(a + b) == TallyView(a) + TallyView(b)
  {
  }

  /** Taking the element at `k` out of `b` takes one copy of it out of the multiset. */
  lemma RemoveAt(b: seq<Candidate>, k: nat)
    requires k < |b|
    ensures b == b[..k] + [b[k]] + b[k + 1..]
    ensures multiset(b[..k] + b[k + 1..]) == multiset(b) - multiset{b[k]}
  {
  }

  /** Projecting two arrangements of the same candidates gives two arrangements
      of the same tally records. */
  lemma {:induction false} TallyViewPermutes(a: seq<Candidate>, b: seq<Candidate>)
    requires multiset(a) == multiset(b)
    ensures multiset(TallyView(a)) == multiset(TallyView(b))
    decreases |a|
  {
    if a == [] {
      assert |b| == |multiset(b)| == 0;
    } else {
      var x := a[0];
      assert x in multiset(b);
      var k :| 0 <= k < |b| && b[k] == x;
      var rest := b[..k] + b[k + 1..];
      RemoveAt(b, k);
      assert a == [x] + a[1..];
      assert multiset(a[1..]) == multiset(rest);
      TallyViewPermutes(a[1..], rest);
      TallyViewConcat([x], a[1..]);
      TallyViewConcat(b[..k] + [x], b[k + 1..]);
      TallyViewConcat(b[..k], [x]);
      TallyViewConcat(b[..k], b[k + 1..]);
    }
  }

  /** The body of `GET /vote/count`: every candidate exactly once, as
      `{ party, count }`, by non-increasing count. */
  function Tally(docs: seq<Candidate>): (r: seq<TallyEntry>)
    ensures |r| == |docs|
    ensures forall i, j :: 0 <= i < j < |r| ==> r[i].count >= r[j].count
    ensures multiset(r) == multiset(TallyView(docs))
  {
    var sorted := SortByVotes(docs);
    TallyViewPermutes(sorted, docs);
    assert |sorted| == |multiset(sorted)| == |multiset(docs)| == |docs|;
    TallyView(sorted)
  }

  /** The tally holds the record of every candidate and nothing else. */
  lemma TallyCovers(docs: seq<Candidate>)
    ensures forall d :: d in docs ==> TallyOf(d) in Tally(docs)
    ensures forall e :: e in Tally(docs) ==> exists d :: d in docs && TallyOf(d) == e
  {
    var r := Tally(docs);
    forall d | d in docs ensures TallyOf(d) in r {
      var i :| 0 <= i < |docs| && docs[i] == d;
      assert TallyView(docs)[i] == TallyOf(d);
      assert TallyOf(d) in multiset(TallyView(docs));
    }
    forall e | e in r ensures exists d :: d in docs && TallyOf(d) == e {
      assert e in multiset(TallyView(docs));
      var i :| 0 <= i < |docs| && TallyView(docs)[i] == e;
      assert docs[i] in docs;
    }
  }

  /** One record of the listing: the `name party -_id` selection. */
  datatype ListEntry = ListEntry(name: string, party: string)

  function ListOf(c: Candidate): ListEntry {
    ListEntry(c.name, c.party)
  }

  /** The body of `GET /`, in the collection's own order. */
  function ListView(docs: seq<Candidate>): seq<ListEntry> {
    seq(|docs|, i requires 0 <= i < |docs| => ListOf(docs[i]))
  }

  /** The listing holds the record of every candidate and nothing else. */
  lemma ListCovers(docs: seq<Candidate>)
    ensures |ListView(docs)| == |docs|
    ensures forall d :: d in docs ==> ListOf(d) in ListView(docs)
    ensures forall e :: e in ListView(docs) ==> exists d :: d in docs && ListOf(d) == e
  {
    var r := ListView(docs);
    forall d | d in docs ensures ListOf(d) in r {
      var i :| 0 <= i < |docs| && docs[i] == d;
      assert r[i] == ListOf(d);
    }
    forall e | e in r ensures exists d :: d in docs && ListOf(d) == e {
      var i :| 0 <= i < |r| && r[i] == e;
      assert docs[i] in docs;
    }
  }
}

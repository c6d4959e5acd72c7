/** Failover votes across a whole cluster. */
module Votes {
  import opened Bytes
  import Sets

  type Id = bytes

  /** What a node remembers about votes, and, for the record, every vote it has granted. */
  datatype Voter = Voter(currentEpoch: uint64, lastVoteEpoch: uint64, granted: seq<(uint64, Id)>)

  const NEW_VOTER := Voter(1, 0, [])

  /** A packet's epoch is adopted when it is newer. */
  function Heard(v: Voter, epoch: uint64): Voter {
    if epoch > v.currentEpoch then v.(currentEpoch := epoch) else v
  }

  /** Whether a request is granted, given that everything but the epochs allows it. */
  predicate Grants(v: Voter, reqEpoch: uint64) {
    reqEpoch >= v.currentEpoch && reqEpoch > v.lastVoteEpoch
  }

  function Asked(v: Voter, reqEpoch: uint64, candidate: Id, allowed: bool): Voter {
    if allowed && Grants(v, reqEpoch) then Voter(reqEpoch, reqEpoch, v.granted + [(reqEpoch, candidate)]) else v
  }

  /** A candidate moves on to a new epoch. */
  function Stood(v: Voter): Voter {
    v.(currentEpoch := if v.currentEpoch == TWO_64 - 1 then 0 else v.currentEpoch + 1)
  }

  /** Each grant is in a later epoch than the one before, and none is in a later epoch than the last vote. */
  ghost predicate Orderly(v: Voter) {
    && v.lastVoteEpoch <= v.currentEpoch
    && (forall i | 0 <= i < |v.granted| :: v.granted[i].0 <= v.lastVoteEpoch)
    && forall i, j | 0 <= i < j < |v.granted| :: v.granted[i].0 < v.granted[j].0
  }

  // ---------------------------------------------------------------------------
  // Runs.
  // ---------------------------------------------------------------------------

  /** Any node may hear any epoch, be asked for any vote, or stand for election; messages may be lost or repeated. */
  datatype Event =
    | Hears(node: Id, epoch: uint64)
    | IsAsked(node: Id, reqEpoch: uint64, candidate: Id, allowed: bool)
    | Stands(node: Id)

  type System = map<Id, Voter>

  function VoterOf(s: System, id: Id): Voter { if id in s then s[id] else NEW_VOTER }

  function Happen(s: System, e: Event): System {
    var v := VoterOf(s, e.node);
    match e
    case Hears(n, epoch) => s[n := Heard(v, epoch)]
    case IsAsked(n, reqEpoch, candidate, allowed) => s[n := Asked(v, reqEpoch, candidate, allowed)]
    case Stands(n) => s[n := Stood(v)]
  }

  function Run(events: seq<Event>): System {
    if events == [] then map[] else Happen(Run(events[..|events| - 1]), events[|events| - 1])
  }

  /** No candidate counts past the largest epoch. */
  ghost predicate NoWrap(events: seq<Event>) {
    forall k {:trigger WrapsAt(events, k)} | 0 <= k < |events| :: !WrapsAt(events, k)
  }

  predicate WrapsAt(events: seq<Event>, k: nat)
    requires k < |events|
  {
    events[k].Stands? && VoterOf(Run(events[..k]), events[k].node).currentEpoch == TWO_64 - 1
  }

  /** In every run every node's votes are in ascending epochs. */
  lemma {:induction false} RunsAreOrderly(events: seq<Event>, id: Id)
    requires NoWrap(events)
    ensures Orderly(VoterOf(Run(events), id))
  {
    if events != [] {
      var n := |events| - 1;
      var front := events[..n];
      forall k | 0 <= k < n ensures !WrapsAt(front, k) {
        assert !WrapsAt(events, k) && front[..k] == events[..k];
      }
      RunsAreOrderly(front, id);
      assert !WrapsAt(events, n);
    }
  }

  /** The epoch of a node never goes back, except when a candidate counts past the largest. */
  lemma EpochNeverFalls(events: seq<Event>, e: Event, id: Id)
    ensures var before, after := VoterOf(Run(events), id).currentEpoch, VoterOf(Run(events + [e]), id).currentEpoch;
      before <= after <==> !(e == Stands(id) && before == TWO_64 - 1)
  {
    assert (events + [e])[..|events|] == events;
  }

  // ---------------------------------------------------------------------------
  // Who voted for whom.
  // ---------------------------------------------------------------------------

  /** The nodes that granted the candidate their vote in the epoch. */
  function Acks(s: System, epoch: uint64, candidate: Id): set<Id> {
    set id | id in s && (epoch, candidate) in s[id].granted
  }

  /** A node votes at most once in an epoch. */
  lemma OneVotePerEpoch(v: Voter, epoch: uint64, c: Id, d: Id)
    requires Orderly(v) && (epoch, c) in v.granted && (epoch, d) in v.granted
    ensures c == d
  {
    var i :| 0 <= i < |v.granted| && v.granted[i] == (epoch, c);
    var j :| 0 <= j < |v.granted| && v.granted[j] == (epoch, d);
    assert i == j;
  }

  /** Two candidates of one epoch share no voter. */
  lemma AcksAreDisjoint(events: seq<Event>, epoch: uint64, c: Id, d: Id)
    requires NoWrap(events) && c != d
    ensures Acks(Run(events), epoch, c) !! Acks(Run(events), epoch, d)
  {
    var s := Run(events);
    forall id | id in Acks(s, epoch, c) ensures id !in Acks(s, epoch, d) {
      RunsAreOrderly(events, id);
      if (epoch, d) in s[id].granted { OneVotePerEpoch(s[id], epoch, c, d); }
    }
  }

  /** All the votes granted in an epoch to a list of candidates. */
  function AllAcks(s: System, epoch: uint64, candidates: seq<Id>): nat {
    if candidates == [] then 0 else |Acks(s, epoch, candidates[0])| + AllAcks(s, epoch, candidates[1..])
  }

  function AnyAck(s: System, epoch: uint64, candidates: seq<Id>): set<Id> {
    if candidates == [] then {} else Acks(s, epoch, candidates[0]) + AnyAck(s, epoch, candidates[1..])
  }

  lemma {:induction false} AnyAckMember(s: System, epoch: uint64, candidates: seq<Id>, id: Id)
    ensures id in AnyAck(s, epoch, candidates) <==> exists c :: c in candidates && id in Acks(s, epoch, c)
  {
    if candidates != [] {
      AnyAckMember(s, epoch, candidates[1..], id);
      assert candidates == [candidates[0]] + candidates[1..];
    }
  }

  /** The nodes that were masters, with the rest in order, when asked. */
  function Electorate(events: seq<Event>): set<Id> {
    if events == [] then {}
    else
      var e := events[|events| - 1];
      Electorate(events[..|events| - 1]) + (if e.IsAsked? && e.allowed then {e.node} else {})
  }

  lemma {:induction false} OnlyElectorsGrant(events: seq<Event>, id: Id)
    ensures VoterOf(Run(events), id).granted != [] ==> id in Electorate(events)
  {
    if events != [] { OnlyElectorsGrant(events[..|events| - 1], id); }
  }

  /** Together they are never more than the masters that were asked. */
  lemma {:induction false} VotesAreLimited(events: seq<Event>, epoch: uint64, candidates: seq<Id>)
    requires NoWrap(events) && forall i, j | 0 <= i < j < |candidates| :: candidates[i] != candidates[j]
    ensures AllAcks(Run(events), epoch, candidates) == |AnyAck(Run(events), epoch, candidates)| <= |Electorate(events)|
  {
    var s := Run(events);
    if candidates != [] {
      var c, rest := candidates[0], candidates[1..];
      VotesAreLimited(events, epoch, rest);
      forall id | id in Acks(s, epoch, c) ensures id !in AnyAck(s, epoch, rest) {
        AnyAckMember(s, epoch, rest, id);
        if d :| d in rest && id in Acks(s, epoch, d) { AcksAreDisjoint(events, epoch, c, d); }
      }
      assert Acks(s, epoch, c) !! AnyAck(s, epoch, rest);
    }
    forall id | id in AnyAck(s, epoch, candidates) ensures id in Electorate(events) {
      AnyAckMember(s, epoch, candidates, id);
      OnlyElectorsGrant(events, id);
    }
    Sets.SubsetSize(AnyAck(s, epoch, candidates), Electorate(events));
  }

  // ---------------------------------------------------------------------------
  // What that says about elections.
  // ---------------------------------------------------------------------------

  /** A candidate counts its own vote, and needs half of the masters it knows to be alive, and one more. */
  predicate Wins(acks: nat, masters: nat) { 1 + acks >= masters / 2 + 1 }

  /** Acknowledgements from a majority of the same masters can only go to one candidate. */
  lemma MajorityIsUnique(events: seq<Event>, epoch: uint64, masters: set<Id>, c: Id, d: Id)
    requires NoWrap(events)
    requires 2 * |Acks(Run(events), epoch, c) * masters| > |masters|
    requires 2 * |Acks(Run(events), epoch, d) * masters| > |masters|
    ensures c == d
  {
    if c != d { SharedOut(events, epoch, masters, c, d); }
  }

  // ---------------------------------------------------------------------------
  // The candidate's own vote spoils this.
  // ---------------------------------------------------------------------------

  /** The candidate stood for election in the epoch. */
  ghost predicate StoodIn(events: seq<Event>, epoch: uint64, c: Id) {
    exists k :: 0 <= k < |events| && StandsAt(events, k, epoch, c)
  }

  predicate StandsAt(events: seq<Event>, k: nat, epoch: uint64, c: Id)
    requires k < |events|
  {
    events[k] == Stands(c) && VoterOf(Run(events[..k + 1]), c).currentEpoch == epoch
  }

  /** The candidate stood, and with the acknowledgements of the masters it asked it promotes itself. */
  ghost predicate Elected(events: seq<Event>, epoch: uint64, c: Id, masters: set<Id>) {
    StoodIn(events, epoch, c) && Wins(|Acks(Run(events), epoch, c) * masters|, |masters|)
  }

  lemma RunLast(events: seq<Event>, e: Event)
    ensures Run(events + [e]) == Happen(Run(events), e)
  {
    assert (events + [e])[..|events|] == events;
  }

  lemma StoodStays(events: seq<Event>, more: seq<Event>, epoch: uint64, c: Id)
    requires events <= more && StoodIn(events, epoch, c)
    ensures StoodIn(more, epoch, c)
  {
    var k :| 0 <= k < |events| && StandsAt(events, k, epoch, c);
    assert more[..k + 1] == events[..k + 1];
    assert StandsAt(more, k, epoch, c);
  }

  lemma OneMoreNoWrap(events: seq<Event>, e: Event)
    requires NoWrap(events) && (e.Stands? ==> VoterOf(Run(events), e.node).currentEpoch < TWO_64 - 1)
    ensures NoWrap(events + [e])
  {
    var more := events + [e];
    forall k | 0 <= k < |more| ensures !WrapsAt(more, k) {
      assert more[..k] == events[..k];
      if k < |events| { assert !WrapsAt(events, k); } else { assert events[..k] == events; }
    }
  }

  /** The voters of a candidate, by what each node remembers. */
  lemma AcksMember(s: System, epoch: uint64, c: Id, id: Id)
    ensures id in Acks(s, epoch, c) <==> (epoch, c) in VoterOf(s, id).granted
  {
  }

  /** The node would still grant a vote in the epoch. */
  predicate Ready(s: System, id: Id, epoch: uint64) { Grants(VoterOf(s, id), epoch) }

  /** A candidate stands. */
  lemma StandsNext(events: seq<Event>, epoch: uint64, c: Id)
    requires NoWrap(events) && 0 < epoch && VoterOf(Run(events), c).currentEpoch == epoch - 1
    ensures var more := events + [Stands(c)];
      && NoWrap(more) && StoodIn(more, epoch, c)
      && VoterOf(Run(more), c) == VoterOf(Run(events), c).(currentEpoch := epoch)
      && forall id | id != c :: VoterOf(Run(more), id) == VoterOf(Run(events), id)
  {
    var more := events + [Stands(c)];
    RunLast(events, Stands(c));
    OneMoreNoWrap(events, Stands(c));
    assert more[..|events| + 1] == more;
    assert StandsAt(more, |events|, epoch, c);
  }

  /** A node that is ready votes. */
  lemma AsksNext(events: seq<Event>, epoch: uint64, c: Id, v: Id)
    requires NoWrap(events) && Ready(Run(events), v, epoch)
    ensures var more := events + [IsAsked(v, epoch, c, true)];
      && NoWrap(more) && (epoch, c) in VoterOf(Run(more), v).granted
      && forall id | id != v :: VoterOf(Run(more), id) == VoterOf(Run(events), id)
  {
    var e := IsAsked(v, epoch, c, true);
    RunLast(events, e);
    OneMoreNoWrap(events, e);
  }

  /** A node catches up with the epoch before and stands. */
  lemma Stand(events: seq<Event>, epoch: uint64, c: Id) returns (more: seq<Event>)
    requires NoWrap(events) && 0 < epoch && VoterOf(Run(events), c).currentEpoch < epoch
    ensures events <= more && NoWrap(more) && StoodIn(more, epoch, c)
    ensures VoterOf(Run(more), c) == VoterOf(Run(events), c).(currentEpoch := epoch)
    ensures forall id | id != c :: VoterOf(Run(more), id) == VoterOf(Run(events), id)
  {
    var heard := events + [Hears(c, epoch - 1)];
    RunLast(events, Hears(c, epoch - 1));
    OneMoreNoWrap(events, Hears(c, epoch - 1));
    more := heard + [Stands(c)];
    StandsNext(heard, epoch, c);
  }

  /** Every node of a set that is ready votes for the candidate. */
  lemma {:induction false} AskAll(events: seq<Event>, epoch: uint64, c: Id, voters: set<Id>) returns (more: seq<Event>)
    requires NoWrap(events) && forall id | id in voters :: Ready(Run(events), id, epoch)
    ensures events <= more && NoWrap(more)
    ensures forall id | id in voters :: (epoch, c) in VoterOf(Run(more), id).granted
    ensures forall id | id !in voters :: VoterOf(Run(more), id) == VoterOf(Run(events), id)
    decreases voters
  {
    more := events;
    if voters != {} {
      var v :| v in voters;
      AsksNext(events, epoch, c, v);
      more := AskAll(events + [IsAsked(v, epoch, c, true)], epoch, c, voters - {v});
    }
  }

  /** Two candidates stand in one epoch, and disjoint sets of nodes vote for them. */
  lemma SplitVote(epoch: uint64, c: Id, d: Id, left: set<Id>, right: set<Id>) returns (events: seq<Event>)
    requires epoch >= 2 && c != d && left !! right
    ensures NoWrap(events) && StoodIn(events, epoch, c) && StoodIn(events, epoch, d)
    ensures Acks(Run(events), epoch, c) == left && Acks(Run(events), epoch, d) == right
  {
    var one := Stand([], epoch, c);
    var two := Stand(one, epoch, d);
    StoodStays(one, two, epoch, c);
    forall id ensures VoterOf(Run(two), id).granted == [] && Ready(Run(two), id, epoch) {
    }
    var half := AskAll(two, epoch, c, left);
    forall id | id in right ensures Ready(Run(half), id, epoch) {
      assert VoterOf(Run(half), id) == VoterOf(Run(two), id);
    }
    events := AskAll(half, epoch, d, right);
    StoodStays(two, events, epoch, c);
    StoodStays(two, events, epoch, d);
    SplitCounts(events, epoch, c, d, left, right);
  }

  /** Nobody else can have voted for either. */
  lemma SplitCounts(events: seq<Event>, epoch: uint64, c: Id, d: Id, left: set<Id>, right: set<Id>)
    requires NoWrap(events) && c != d
    requires forall id | id in left :: (epoch, c) in VoterOf(Run(events), id).granted
    requires forall id | id in right :: (epoch, d) in VoterOf(Run(events), id).granted
    requires forall id | id !in left && id !in right :: VoterOf(Run(events), id).granted == []
    ensures Acks(Run(events), epoch, c) == left && Acks(Run(events), epoch, d) == right
  {
    var s := Run(events);
    AcksAreDisjoint(events, epoch, c, d);
    forall id ensures (id in Acks(s, epoch, c) <==> id in left) && (id in Acks(s, epoch, d) <==> id in right) {
      AcksMember(s, epoch, c, id);
      AcksMember(s, epoch, d, id);
    }
  }

  lemma BothStand()
    ensures var events := [Stands([3]), Stands([4])];
      && NoWrap(events) && StoodIn(events, 2, [3]) && StoodIn(events, 2, [4])
      && VoterOf(Run(events), [3]).granted == VoterOf(Run(events), [4]).granted == []
      && forall id | id != [3] && id != [4] :: VoterOf(Run(events), id) == VoterOf(map[], id)
  {
    var a: seq<Event> := [Stands([3])];
    assert [] + a == a && a + [Stands([4])] == [Stands([3]), Stands([4])];
    StandsNext([], 2, [3]);
    StandsNext(a, 2, [4]);
    StoodStays(a, a + [Stands([4])], 2, [3]);
  }

  /** A run in which two replicas are elected in epoch 2 by the same two masters. */
  lemma TwoWinners()
    ensures var events := [Stands([3]), Stands([4]), IsAsked([1], 2, [3], true), IsAsked([2], 2, [4], true)];
      NoWrap(events) && Elected(events, 2, [3], {[1], [2]}) && Elected(events, 2, [4], {[1], [2]})
  {
    var b: seq<Event> := [Stands([3]), Stands([4])];
    BothStand();
    EachGetsOne(b, 2, [3], [4], [1], [2]);
    assert [Stands([3]), Stands([4]), IsAsked([1], 2, [3], true), IsAsked([2], 2, [4], true)] ==
      b + [IsAsked([1], 2, [3], true)] + [IsAsked([2], 2, [4], true)];
  }

  /** Two candidates get a vote each, of the two masters there are. */
  lemma EachGetsOne(events: seq<Event>, epoch: uint64, c: Id, d: Id, m: Id, n: Id)
    requires NoWrap(events) && StoodIn(events, epoch, c) && StoodIn(events, epoch, d) && c != d && m != n
    requires Ready(Run(events), m, epoch) && Ready(Run(events), n, epoch)
    requires forall id :: VoterOf(Run(events), id).granted == []
    ensures var more := events + [IsAsked(m, epoch, c, true)] + [IsAsked(n, epoch, d, true)];
      NoWrap(more) && Elected(more, epoch, c, {m, n}) && Elected(more, epoch, d, {m, n})
  {
    var one := events + [IsAsked(m, epoch, c, true)];
    AsksNext(events, epoch, c, m);
    AsksNext(one, epoch, d, n);
    OneEach(events, one + [IsAsked(n, epoch, d, true)], epoch, c, d, m, n);
  }

  lemma OneEach(events: seq<Event>, more: seq<Event>, epoch: uint64, c: Id, d: Id, m: Id, n: Id)
    requires events <= more && StoodIn(events, epoch, c) && StoodIn(events, epoch, d) && c != d && m != n
    requires NoWrap(more) && (epoch, c) in VoterOf(Run(more), m).granted && (epoch, d) in VoterOf(Run(more), n).granted
    requires forall id | id != m && id != n :: VoterOf(Run(more), id).granted == []
    ensures Elected(more, epoch, c, {m, n}) && Elected(more, epoch, d, {m, n})
  {
    StoodStays(events, more, epoch, c);
    StoodStays(events, more, epoch, d);
    SplitCounts(more, epoch, c, d, {m}, {n});
    assert {m} * {m, n} == {m} && {n} * {m, n} == {n};
  }

  /** Whatever the masters and the epoch, two candidates, replicas as in the code, can both be elected. */
  lemma TwoCanWin(epoch: uint64, masters: set<Id>, c: Id, d: Id) returns (events: seq<Event>)
    requires epoch >= 2 && c != d && c !in masters && d !in masters
    ensures NoWrap(events) && Elected(events, epoch, c, masters) && Elected(events, epoch, d, masters)
  {
    var left := Sets.SubsetOfSize(masters, |masters| / 2);
    var right := Sets.SubsetOfSize(masters - left, |masters| / 2);
    events := SplitVote(epoch, c, d, left, right);
    assert left * masters == left && right * masters == right;
  }

  /**
   What a candidate's acknowledgements exclude, over all runs: with so many of them nobody else is
   elected in the epoch, and with one fewer somebody else may be.
   */
  lemma WinnerAloneIff(epoch: uint64, masters: set<Id>, a: nat, c: Id, d: Id)
    requires epoch >= 2 && c != d && c !in masters && d !in masters && a <= |masters|
    ensures (forall events | NoWrap(events) && |Acks(Run(events), epoch, c) * masters| == a ::
               !Elected(events, epoch, d, masters))
       <==> a > |masters| - |masters| / 2
  {
    if a > |masters| - |masters| / 2 {
      forall events | NoWrap(events) && |Acks(Run(events), epoch, c) * masters| == a
        ensures !Elected(events, epoch, d, masters)
      {
        SharedOut(events, epoch, masters, c, d);
      }
    } else {
      var left := Sets.SubsetOfSize(masters, a);
      var right := Sets.SubsetOfSize(masters - left, |masters| / 2);
      var events := SplitVote(epoch, c, d, left, right);
      assert left * masters == left && right * masters == right;
      assert NoWrap(events) && |Acks(Run(events), epoch, c) * masters| == a && Elected(events, epoch, d, masters);
    }
  }

  /** Two candidates share out at most the masters between them. */
  lemma SharedOut(events: seq<Event>, epoch: uint64, masters: set<Id>, c: Id, d: Id)
    requires NoWrap(events) && c != d
    ensures |Acks(Run(events), epoch, c) * masters| + |Acks(Run(events), epoch, d) * masters| <= |masters|
  {
    AcksAreDisjoint(events, epoch, c, d);
    var a, b := Acks(Run(events), epoch, c) * masters, Acks(Run(events), epoch, d) * masters;
    assert |a + b| == |a| + |b|;
    Sets.SubsetSize(a + b, masters);
  }
}


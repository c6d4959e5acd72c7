/** A consumer group: the cursor, and the pending list held once per group and once per consumer. */
module ConsumerGroups {
  import opened Bytes
  import opened StreamIds
  import opened StreamEntries
  import Sets

  /** Who was given an entry, when, and how often; both lists of a group share the object. */
  class PendingEntry {
    const id: StreamId
    const consumer: bytes
    var deliveryTime: int
    var deliveryCount: int

    constructor (id: StreamId, consumer: bytes, now: int)
      ensures this.id == id && this.consumer == consumer && deliveryTime == now && deliveryCount == 1
    {
      this.id, this.consumer, deliveryTime, deliveryCount := id, consumer, now, 1;
    }
  }

  datatype Consumer = Consumer(seenTime: int, pel: map<StreamId, PendingEntry>)

  /** A consumer's list is part of the group's list and holds only the consumer's own entries. */
  ghost predicate Owned(mine: map<StreamId, PendingEntry>, pel: map<StreamId, PendingEntry>, c: bytes) {
    forall id | id in mine :: id in pel && pel[id] == mine[id] && mine[id].consumer == c
  }

  /** An entry of the group's list is the one in its consumer's list. */
  ghost predicate Listed(consumers: map<bytes, Consumer>, pe: PendingEntry, id: StreamId) {
    && pe.id == id && pe.consumer in consumers
    && id in consumers[pe.consumer].pel && consumers[pe.consumer].pel[id] == pe
  }

  ghost predicate Tagged(mine: map<StreamId, PendingEntry>, c: bytes) {
    forall id | id in mine :: mine[id].id == id && mine[id].consumer == c
  }

  /** Always: the group's list is part of the consumers' lists, and each of these holds its consumer's entries. */
  ghost predicate Filed(consumers: map<bytes, Consumer>, pel: map<StreamId, PendingEntry>) {
    && (forall c {:trigger Tagged(consumers[c].pel, c)} | c in consumers :: Tagged(consumers[c].pel, c))
    && (forall id {:trigger Listed(consumers, pel[id], id)} | id in pel :: Listed(consumers, pel[id], id))
  }

  /** Unless an entry was taken from its consumer: the group's list is the disjoint union of the consumers' lists. */
  ghost predicate Agree(consumers: map<bytes, Consumer>, pel: map<StreamId, PendingEntry>) {
    && (forall c {:trigger Owned(consumers[c].pel, pel, c)} | c in consumers :: Owned(consumers[c].pel, pel, c))
    && (forall id {:trigger Listed(consumers, pel[id], id)} | id in pel :: Listed(consumers, pel[id], id))
  }

  /** Nothing above the cursor is pending. */
  ghost predicate Behind(pel: map<StreamId, PendingEntry>, cursor: Bound) {
    pel != map[] ==> Separates(cursor) && forall id | id in pel :: Compare(id, cursor) <= 0
  }

  /** Agreement leaves a consumer's list no choice. */
  lemma ConsumerListIsShare(consumers: map<bytes, Consumer>, pel: map<StreamId, PendingEntry>, c: bytes)
    requires Agree(consumers, pel) && c in consumers
    ensures consumers[c].pel == map id | id in pel && pel[id].consumer == c :: pel[id]
  {
    assert Owned(consumers[c].pel, pel, c);
    forall id | id in pel ensures Listed(consumers, pel[id], id) { }
  }

  /** An entry given to a consumer is added to both lists. */
  function Given(consumers: map<bytes, Consumer>, pe: PendingEntry): map<bytes, Consumer>
    requires pe.consumer in consumers
  {
    var mine := consumers[pe.consumer];
    consumers[pe.consumer := mine.(pel := mine.pel[pe.id := pe])]
  }

  lemma GivenFiled(consumers: map<bytes, Consumer>, pel: map<StreamId, PendingEntry>, pe: PendingEntry)
    requires Filed(consumers, pel) && pe.consumer in consumers
    ensures Filed(Given(consumers, pe), pel[pe.id := pe])
  {
    var consumers', pel' := Given(consumers, pe), pel[pe.id := pe];
    forall c | c in consumers' ensures Tagged(consumers'[c].pel, c) { assert Tagged(consumers[c].pel, c); }
    forall id | id in pel' ensures Listed(consumers', pel'[id], id) {
      assert id != pe.id ==> Listed(consumers, pel[id], id);
    }
  }

  /** What the group's list says about the IDs is also in the consumer's list, which is otherwise as it was. */
  ghost predicate Handed(before: map<bytes, Consumer>, after: map<bytes, Consumer>, pel: map<StreamId, PendingEntry>,
                         ids: seq<StreamId>, consumer: bytes)
  {
    && consumer in before && after.Keys == before.Keys
    && (forall c | c in before && c != consumer :: after[c] == before[c])
    && after[consumer].seenTime == before[consumer].seenTime
    && after[consumer].pel.Keys == before[consumer].pel.Keys + Named(ids)
    && (forall id | id in ids :: id in pel && after[consumer].pel[id] == pel[id])
    && forall id | id in before[consumer].pel && id !in ids :: after[consumer].pel[id] == before[consumer].pel[id]
  }

  lemma HandedOneMore(before: map<bytes, Consumer>, consumers: map<bytes, Consumer>, pel: map<StreamId, PendingEntry>,
                      ids: seq<StreamId>, pe: PendingEntry)
    requires pe.consumer in before && Handed(before, consumers, pel, ids, pe.consumer)
    ensures pe.consumer in consumers
    ensures Handed(before, Given(consumers, pe), pel[pe.id := pe], ids + [pe.id], pe.consumer)
  {
  }

  /** None of the IDs is pending for somebody else. */
  ghost predicate Exclusive(pel: map<StreamId, PendingEntry>, ids: seq<StreamId>, consumer: bytes) {
    forall id | id in ids && id in pel :: pel[id].consumer == consumer
  }

  /** Giving entries to a consumer keeps the lists in agreement exactly when none was pending for somebody else. */
  lemma GivenAgrees(consumers: map<bytes, Consumer>, pel: map<StreamId, PendingEntry>, after: map<bytes, Consumer>,
                    pel': map<StreamId, PendingEntry>, ids: seq<StreamId>, consumer: bytes)
    requires Agree(consumers, pel) && Handed(consumers, after, pel', ids, consumer) && Filed(after, pel')
    requires pel'.Keys == pel.Keys + Named(ids) && forall id | id in pel && id !in ids :: pel'[id] == pel[id]
    ensures Agree(after, pel') <==> Exclusive(pel, ids, consumer)
  {
    if Exclusive(pel, ids, consumer) {
      forall c | c in after ensures Owned(after[c].pel, pel', c) {
        assert Tagged(after[c].pel, c) && Owned(consumers[c].pel, pel, c);
      }
    } else {
      var id :| id in ids && id in pel && pel[id].consumer != consumer;
      var other := pel[id].consumer;
      assert Listed(consumers, pel[id], id);
      assert Tagged(after[consumer].pel, consumer);
      assert pel'[id].consumer == consumer && id in after[other].pel;
      assert !Owned(after[other].pel, pel', other);
    }
  }

  /** Whoever reads next, and however many, the lists agree afterwards, exactly when nothing undelivered is pending. */
  lemma NextReadAgreesIff(entries: seq<Entry>, cursor: Bound, pel: map<StreamId, PendingEntry>)
    ensures (forall c: bytes, count: int :: Exclusive(pel, Ids(Limit(Undelivered(entries, cursor), count)), c)) <==>
            (forall e | e in Undelivered(entries, cursor) :: e.id !in pel)
  {
    var all := Undelivered(entries, cursor);
    if e :| e in all && e.id in pel {
      var i :| 0 <= i < |all| && all[i] == e;
      var stranger := pel[e.id].consumer + [0];
      assert Limit(all, 0) == all && Ids(all)[i] == e.id;
      assert !Exclusive(pel, Ids(Limit(all, 0)), stranger);
    } else {
      forall c: bytes, count: int ensures Exclusive(pel, Ids(Limit(all, count)), c) {
        var some := Limit(all, count);
        forall id | id in Ids(some) ensures id !in pel {
          var i :| 0 <= i < |some| && Ids(some)[i] == id;
          assert some[i] == all[i];
        }
      }
    }
  }

  /** In particular when nothing above the cursor is pending. */
  lemma BehindIsSafe(entries: seq<Entry>, cursor: Bound, pel: map<StreamId, PendingEntry>)
    requires Behind(pel, cursor) && Ascending(Ids(entries))
    ensures forall e | e in Undelivered(entries, cursor) :: e.id !in pel
  {
    var k := UndeliveredIsRest(entries, cursor);
    forall e | e in entries[k..] && pel != map[] ensures e.id !in pel {
      var i :| k <= i < |entries| && entries[i] == e;
      assert k < i ==> Rises(Ids(entries), k, i);
    }
  }

  lemma RegisteredFiled(consumers: map<bytes, Consumer>, pel: map<StreamId, PendingEntry>, c: bytes, x: Consumer)
    requires Filed(consumers, pel) && x.pel == if c in consumers then consumers[c].pel else map[]
    ensures Filed(consumers[c := x], pel)
  {
    var consumers' := consumers[c := x];
    forall d | d in consumers' ensures Tagged(consumers'[d].pel, d) {
      if d in consumers { assert Tagged(consumers[d].pel, d); }
    }
    forall id | id in pel ensures Listed(consumers', pel[id], id) { assert Listed(consumers, pel[id], id); }
  }

  lemma RegisteredAgrees(consumers: map<bytes, Consumer>, pel: map<StreamId, PendingEntry>, c: bytes, x: Consumer)
    requires Agree(consumers, pel) && x.pel == if c in consumers then consumers[c].pel else map[]
    ensures Agree(consumers[c := x], pel)
  {
    var consumers' := consumers[c := x];
    forall d | d in consumers' ensures Owned(consumers'[d].pel, pel, d) {
      if d in consumers { assert Owned(consumers[d].pel, pel, d); }
    }
    forall id | id in pel ensures Listed(consumers', pel[id], id) { assert Listed(consumers, pel[id], id); }
  }

  /** The list after the IDs were given to the consumer, who has each of them for the first time. */
  ghost predicate GivenAll(before: map<StreamId, PendingEntry>, after: map<StreamId, PendingEntry>, ids: seq<StreamId>,
                           consumer: bytes, now: int)
    reads after.Values
  {
    && after.Keys == before.Keys + Named(ids)
    && (forall id | id in before && id !in ids :: after[id] == before[id])
    && forall id | id in ids ::
         && id in after && after[id].consumer == consumer
         && after[id].deliveryTime == now && after[id].deliveryCount == 1
  }

  /** With NOACK nothing is noted as pending. */
  ghost predicate Noted(noAck: bool, before: map<StreamId, PendingEntry>, after: map<StreamId, PendingEntry>,
                        ids: seq<StreamId>, consumer: bytes, now: int)
    reads after.Values
  {
    if noAck then after == before else GivenAll(before, after, ids, consumer, now)
  }

  /** Both lists after the IDs were given to the consumer. */
  ghost predicate Marked(noAck: bool, had: map<bytes, Consumer>, before: map<StreamId, PendingEntry>,
                         consumers: map<bytes, Consumer>, pel: map<StreamId, PendingEntry>, ids: seq<StreamId>,
                         consumer: bytes, now: int)
    reads pel.Values
  {
    && Noted(noAck, before, pel, ids, consumer, now)
    && if noAck then consumers == had else Handed(had, consumers, pel, ids, consumer)
  }

  lemma GivenOneMore(before: map<StreamId, PendingEntry>, after: map<StreamId, PendingEntry>, ids: seq<StreamId>,
                     pe: PendingEntry, consumer: bytes, now: int)
    requires GivenAll(before, after, ids, consumer, now)
    requires pe.consumer == consumer && pe.deliveryTime == now && pe.deliveryCount == 1
    ensures GivenAll(before, after[pe.id := pe], ids + [pe.id], consumer, now)
  {
  }

  lemma SliceGrows(entries: seq<Entry>, k: nat, i: nat, logged: seq<StreamId>)
    requires k <= i < |entries|
    ensures entries[k..i] + [entries[i]] == entries[k..i + 1]
    ensures Ids(entries[k..i + 1]) == Ids(entries[k..i]) + [entries[i].id]
    ensures logged + Ids(entries[k..i]) + [entries[i].id] == logged + Ids(entries[k..i + 1])
  {
  }

  class ConsumerGroup {
    var lastDeliveredID: Bound
    var consumers: map<bytes, Consumer>
    var pel: map<StreamId, PendingEntry>
    ghost var start: Bound     // where the cursor was last set
    ghost var log: seq<StreamId> // everything delivered since, to any consumer

    ghost predicate Valid()
      reads this
    {
      Filed(consumers, pel)
    }

    ghost predicate Agrees()
      reads this
    {
      Agree(consumers, pel)
    }

    /** Enough for later reads with ">" to keep the lists in agreement, whoever reads. */
    ghost predicate Ahead()
      reads this
    {
      Behind(pel, lastDeliveredID)
    }

    constructor (start: Bound)
      ensures Valid() && Agrees() && Ahead() && lastDeliveredID == start && consumers == map[] && pel == map[]
      ensures this.start == start && log == []
    {
      lastDeliveredID, consumers, pel := start, map[], map[];
      this.start, log := start, [];
    }

    /** A consumer is created when it first reads. */
    method Register(consumer: bytes, now: int)
      requires Valid()
      modifies this`consumers
      ensures Valid() && (old(Agrees()) ==> Agrees())
      ensures consumers.Keys == old(consumers.Keys) + {consumer}
      ensures consumers[consumer].pel == if consumer in old(consumers) then old(consumers)[consumer].pel else map[]
      ensures consumers[consumer].seenTime == now
      ensures forall c | c in old(consumers) && c != consumer :: consumers[c] == old(consumers)[c]
    {
      var mine := if consumer in consumers then consumers[consumer].pel else map[];
      RegisteredFiled(consumers, pel, consumer, Consumer(now, mine));
      if Agrees() { RegisteredAgrees(consumers, pel, consumer, Consumer(now, mine)); }
      consumers := consumers[consumer := Consumer(now, mine)];
    }

    /** One new message for one consumer. */
    method Deliver(e: Entry, consumer: bytes, now: int, noAck: bool)
      requires Valid() && consumer in consumers
      modifies this
      ensures Valid() && lastDeliveredID == At(e.id) && start == old(start) && log == old(log) + [e.id]
      ensures noAck ==> pel == old(pel) && consumers == old(consumers)
      ensures !noAck ==> e.id in pel && fresh(pel[e.id]) && pel == old(pel)[e.id := pel[e.id]] && pel[e.id].id == e.id
      ensures !noAck ==> pel[e.id].consumer == consumer && pel[e.id].deliveryTime == now && pel[e.id].deliveryCount == 1
      ensures !noAck ==> consumers == Given(old(consumers), pel[e.id])
    {
      lastDeliveredID := At(e.id);
      log := log + [e.id];
      if !noAck {
        var pe := new PendingEntry(e.id, consumer, now);
        GivenFiled(consumers, pel, pe);
        pel := pel[e.id := pe];
        consumers := Given(consumers, pe);
      }
    }

    /** One turn of the loop over the stream. */
    method Visit(e: Entry, consumer: bytes, noAck: bool, now: int, ghost was: map<bytes, Consumer>,
                 ghost before: map<StreamId, PendingEntry>, ghost ids: seq<StreamId>)
      returns (taken: bool)
      requires Valid() && consumer in consumers
      requires Marked(noAck, was, before, consumers, pel, ids, consumer, now)
      modifies this
      ensures Valid() && consumers.Keys == old(consumers.Keys) && start == old(start)
      ensures taken == (Compare(e.id, old(lastDeliveredID)) > 0)
      ensures lastDeliveredID == if taken then At(e.id) else old(lastDeliveredID)
      ensures log == if taken then old(log) + [e.id] else old(log)
      ensures Marked(noAck, was, before, consumers, pel, if taken then ids + [e.id] else ids, consumer, now)
    {
      taken := Compare(e.id, lastDeliveredID) > 0;
      if taken {
        ghost var pending, had := pel, consumers;
        Deliver(e, consumer, now, noAck);
        if !noAck {
          GivenOneMore(before, pending, ids, pel[e.id], consumer, now);
          HandedOneMore(was, had, pending, ids, pel[e.id]);
        }
      }
    }

    /** The loop over the stream; the messages delivered are those from k to i. */
    method DeliverFrom(entries: seq<Entry>, consumer: bytes, count: int, noAck: bool, now: int)
      returns (results: seq<Entry>, ghost k: nat, ghost i: nat)
      requires Valid() && Ascending(Ids(entries)) && consumer in consumers
      modifies this
      ensures Valid() && consumers.Keys == old(consumers.Keys) && start == old(start)
      ensures Reached(entries, old(lastDeliveredID), k, i, lastDeliveredID)
      ensures results == entries[k..i] && log == old(log) + Ids(results)
      ensures Marked(noAck, old(consumers), old(pel), consumers, pel, Ids(results), consumer, now)
      ensures (i < |entries| ==> 0 < count <= i - k) && (count > 0 ==> i - k <= count)
    {
      results := [];
      k := 0;
      ghost var ids := [];
      ghost var was, before, earlier, had := lastDeliveredID, pel, log, consumers;
      var at := 0;
      while at < |entries| && !(count > 0 && |results| >= count)
        invariant Valid() && consumers.Keys == had.Keys && start == old(start)
        invariant Reached(entries, was, k, at, lastDeliveredID)
        invariant results == entries[k..at] && ids == Ids(results) && log == earlier + ids
        invariant Marked(noAck, had, before, consumers, pel, ids, consumer, now)
        invariant count > 0 ==> |results| <= count
      {
        ReachedNext(entries, was, k, at, lastDeliveredID);
        SliceGrows(entries, k, at, earlier);
        var taken := Visit(entries[at], consumer, noAck, now, had, before, ids);
        if taken {
          results, ids := results + [entries[at]], ids + [entries[at].id];
        } else {
          k := k + 1;
        }
        at := at + 1;
      }
      i := at;
    }

    /** A read with ">": the undelivered messages, up to count of them. */
    method ReadNew(entries: seq<Entry>, consumer: bytes, count: int, noAck: bool, now: int)
      returns (results: seq<Entry>)
      requires Valid() && Ascending(Ids(entries)) && consumer in consumers
      modifies this
      ensures Valid()
      ensures results == Limit(Undelivered(entries, old(lastDeliveredID)), count)
      ensures lastDeliveredID == (if results == [] then old(lastDeliveredID) else At(results[|results| - 1].id))
      ensures start == old(start) && log == old(log) + Ids(results)
      ensures Marked(noAck, old(consumers), old(pel), consumers, pel, Ids(results), consumer, now)
      ensures old(Agrees()) ==> (Agrees() <==> noAck || Exclusive(old(pel), Ids(results), consumer))
      ensures old(Ahead()) ==> Ahead() && Exclusive(old(pel), Ids(results), consumer)
      ensures old(InOrder(entries, start, log, lastDeliveredID)) ==> InOrder(entries, start, log, lastDeliveredID)
      ensures forall e | e in results :: e in entries
    {
      ghost var was, earlier, inOrder := lastDeliveredID, log, InOrder(entries, start, log, lastDeliveredID);
      ghost var before, had := pel, consumers;
      ghost var k, i;
      results, k, i := DeliverFrom(entries, consumer, count, noAck, now);
      NewReadResult(entries, was, count, k, i, lastDeliveredID);
      if inOrder { ReadKeepsOrder(entries, start, earlier, was, k, i, lastDeliveredID); }
      if Agree(had, before) && !noAck {
        GivenAgrees(had, before, consumers, pel, Ids(results), consumer);
      }
      if Behind(before, was) {
        ReadStaysBehind(entries, was, k, i, lastDeliveredID, before, pel, consumer);
      }
    }

    /** One acknowledgement removes from the group's list and from that of the entry's consumer. */
    method AckOne(id: StreamId) returns (acked: bool)
      requires Valid()
      modifies this`consumers, this`pel
      ensures Valid() && (old(Agrees()) ==> Agrees()) && consumers.Keys == old(consumers.Keys)
      ensures acked == (id in old(pel)) && pel == old(pel) - {id}
      ensures forall c | c in consumers :: Kept(old(consumers)[c], consumers[c], Share(old(pel), {id}, c))
    {
      acked := id in pel;
      if acked {
        var pe := pel[id];
        WithdrawnFiled(consumers, pel, id);
        if Agrees() { WithdrawnAgrees(consumers, pel, id); }
        pel := pel - {id};
        if pe.consumer in consumers {
          consumers := Withdrawn(consumers, pe.consumer, id);
        }
      }
    }

    /** Acknowledging several counts those that were pending, each once. */
    method Ack(ids: seq<StreamId>) returns (acked: nat)
      requires Valid()
      modifies this`consumers, this`pel
      ensures Valid() && (old(Agrees()) ==> Agrees())
      ensures pel == old(pel) - Named(ids) && acked == |old(pel.Keys) * Named(ids)|
      ensures acked + |pel| == |old(pel)|
      ensures consumers.Keys == old(consumers.Keys)
      ensures forall c | c in consumers :: Kept(old(consumers)[c], consumers[c], Share(old(pel), Named(ids), c))
    {
      acked := 0;
      ghost var before, had, agreed, seen := pel, consumers, Agrees(), {};
      for i := 0 to |ids|
        invariant Valid() && (agreed ==> Agrees()) && consumers.Keys == had.Keys && seen == Named(ids[..i])
        invariant pel == before - seen && acked == |before.Keys * seen|
        invariant forall c | c in consumers :: Kept(had[c], consumers[c], Share(before, seen, c))
      {
        NamedGrows(ids, i);
        OneMoreSeen(before, seen, ids[i]);
        ghost var lists := consumers;
        var one := AckOne(ids[i]);
        forall c | c in consumers ensures Kept(had[c], consumers[c], Share(before, seen + {ids[i]}, c)) {
          assert Kept(had[c], lists[c], Share(before, seen, c));
          ShareTaken(had[c].pel, before, seen, ids[i], c);
        }
        seen := seen + {ids[i]};
        if one { acked := acked + 1; }
      }
      assert ids[..|ids|] == ids;
      RemovedCount(before, seen);
    }

    /** Deleting a consumer drops what is in its list from the group's list, and counts it. */
    method DeleteConsumer(name: bytes) returns (dropped: nat)
      requires Valid()
      modifies this`consumers, this`pel
      ensures Valid() && consumers == old(consumers) - {name} && pel == old(pel) - Mine(old(consumers), name)
      ensures dropped == |Mine(old(consumers), name)|
      ensures old(Agrees()) ==> Agrees() && pel == Others(old(pel), name) && dropped + |pel| == |old(pel)|
    {
      OthersKept(consumers, pel, name);
      if name !in consumers {
        return 0;
      }
      dropped := |consumers[name].pel.Keys|;
      pel := pel - consumers[name].pel.Keys;
      consumers := consumers - {name};
    }

    /** Any other read: what is in the consumer's list from a bound on, which counts as delivered once more. */
    method ReadPending(entries: seq<Entry>, consumer: bytes, from: Bound, count: int, noAck: bool, now: int)
      returns (results: seq<Entry>)
      requires Valid() && Ascending(Ids(entries)) && consumer in consumers
      modifies consumers[consumer].pel.Values
      ensures results == Limit(Those(entries, AtOrAfter(consumers[consumer].pel.Keys, from)), count)
      ensures forall id | id in consumers[consumer].pel ::
        var pe := consumers[consumer].pel[id];
        Redelivered(pe, old(pe.deliveryCount), old(pe.deliveryTime), !noAck && id in Ids(results), now)
    {
      var mine := consumers[consumer].pel;
      assert Tagged(mine, consumer);
      var index := IndexEntries(entries);
      var ids := SortIds(AtOrAfter(mine.Keys, from));
      results := Replay(mine, ids, entries, index, count, noAck, now);
      LookupsAreThose(ids, AtOrAfter(mine.Keys, from), index, entries);
    }

    /** Either kind of read: of new messages, or of pending ones from a bound on. */
    method Read(entries: seq<Entry>, consumer: bytes, from: Option<Bound>, count: int, noAck: bool, now: int)
      returns (results: seq<Entry>)
      requires Valid() && Ascending(Ids(entries))
      modifies this, if consumer in consumers then consumers[consumer].pel.Values else {}
      ensures Valid() && start == old(start) && consumers.Keys == old(consumers.Keys) + {consumer}
      ensures from.None? ==> results == Limit(Undelivered(entries, old(lastDeliveredID)), count)
      ensures from.None? ==> log == old(log) + Ids(results) && Noted(noAck, old(pel), pel, Ids(results), consumer, now)
      ensures from.None? ==> forall e | e in results :: e in entries
      ensures from.None? && !noAck ==> forall id | id in Ids(results) :: id in consumers[consumer].pel
      ensures from.Some? ==>
        results == Limit(Those(entries, AtOrAfter(Mine(old(consumers), consumer), from.value)), count)
      ensures from.Some? ==> pel == old(pel) && log == old(log) && lastDeliveredID == old(lastDeliveredID)
      ensures forall c | c in old(consumers) && c != consumer :: consumers[c] == old(consumers)[c]
      ensures old(Agrees()) ==>
        (Agrees() <==> from.Some? || noAck || Exclusive(old(pel), Ids(results), consumer))
      ensures old(Ahead()) ==> Ahead() && (from.None? ==> Exclusive(old(pel), Ids(results), consumer))
      ensures old(InOrder(entries, start, log, lastDeliveredID)) ==> InOrder(entries, start, log, lastDeliveredID)
    {
      Register(consumer, now);
      assert consumers[consumer].pel.Keys == Mine(old(consumers), consumer);
      match from
      case None => results := ReadNew(entries, consumer, count, noAck, now);
      case Some(bound) => results := ReadPending(entries, consumer, bound, count, noAck, now);
    }

    /** How much is pending in the group's list, between which IDs, and for whom. */
    method PendingSummary() returns (total: nat, min: Option<StreamId>, max: Option<StreamId>, counts: map<bytes, nat>)
      requires Valid()
      ensures total == |pel| && Extremes(pel.Keys, min, max)
      ensures forall c: bytes :: CountOf(counts, c) == |Share(pel, pel.Keys, c)|
      ensures forall c | c in counts :: c in consumers && counts[c] > 0
      ensures Agrees() ==> forall c | c in consumers :: |consumers[c].pel| == CountOf(counts, c)
    {
      min, max, counts := Summarise(pel);
      TalliedIsConsumer(counts, consumers, pel);
      if Agrees() { TallyAll(counts, consumers, pel); }
      total := |pel|;
    }

    /** Moving the cursor touches neither list; NextReadAgreesIff says which reads are safe from there. */
    method SetID(id: Bound)
      modifies this
      ensures lastDeliveredID == id && start == id && log == [] && consumers == old(consumers) && pel == old(pel)
    {
      lastDeliveredID := id;
      start, log := id, [];
    }
  }

  /** After the cursor was set back, a ">" read by another consumer makes an entry pending for both. */
  method PendingTwice(e: Entry) returns (g: ConsumerGroup)
    requires e.id == StreamId(1, 0)
    ensures fresh(g) && g.Valid() && !g.Agrees()
    ensures [97] in g.consumers && e.id in g.consumers[[97]].pel
    ensures [98] in g.consumers && e.id in g.consumers[[98]].pel
    ensures g.pel.Keys == {e.id} && g.pel[e.id].consumer == [98]
  {
    g := new ConsumerGroup(At(StreamId(0, 0)));
    ReadFromStart(g, e, [97]);
    g.SetID(At(StreamId(0, 0)));
    ReadFromStart(g, e, [98]);
  }

  /** A ">" read of a stream with one entry. */
  method ReadFromStart(g: ConsumerGroup, e: Entry, c: bytes)
    requires g.Valid() && g.lastDeliveredID == At(StreamId(0, 0)) && e.id == StreamId(1, 0)
    modifies g, if c in g.consumers then g.consumers[c].pel.Values else {}
    ensures g.Valid() && g.pel.Keys == old(g.pel.Keys) + {e.id} && g.pel[e.id].consumer == c
    ensures g.consumers.Keys == old(g.consumers.Keys) + {c} && e.id in g.consumers[c].pel
    ensures forall d | d in old(g.consumers) && d != c :: g.consumers[d] == old(g.consumers)[d]
    ensures old(g.Agrees()) ==> (g.Agrees() <==> (e.id in old(g.pel) ==> old(g.pel)[e.id].consumer == c))
  {
    OneEntry(e);
    var results := g.Read([e], c, None, 0, false, 0);
    assert e.id in Ids(results) && Named(Ids(results)) == {e.id};
  }

  /** Acknowledging that entry leaves it with the first consumer, where no acknowledgement finds it any more. */
  method AckedOnce(e: Entry) returns (g: ConsumerGroup, acked: nat)
    requires e.id == StreamId(1, 0)
    ensures fresh(g) && acked == 1 && g.pel == map[]
    ensures [97] in g.consumers && e.id in g.consumers[[97]].pel
  {
    g := PendingTwice(e);
    ghost var lists, pel := g.consumers, g.pel;
    assert Named([e.id]) == {e.id} && pel.Keys * {e.id} == {e.id};
    acked := g.Ack([e.id]);
    assert Kept(lists[[97]], g.consumers[[97]], Share(pel, {e.id}, [97]));
  }

  lemma OneEntry(e: Entry)
    requires e.id == StreamId(1, 0)
    ensures Ascending(Ids([e])) && Limit(Undelivered([e], At(StreamId(0, 0))), 0) == [e] && Ids([e]) == [e.id]
  {
    assert [e][1..] == [];
  }

  /** The loop over the sorted IDs; entries that are gone from the stream are passed over. */
  method Replay(mine: map<StreamId, PendingEntry>, ids: seq<StreamId>, ghost entries: seq<Entry>,
                index: map<StreamId, Entry>,
                count: int, noAck: bool, now: int)
    returns (results: seq<Entry>)
    requires Ascending(ids) && Indexes(index, entries) && forall id | id in ids :: id in mine
    requires forall id | id in mine :: mine[id].id == id
    modifies mine.Values
    ensures results == Limit(Lookups(ids, index), count)
    ensures forall id | id in mine ::
      Redelivered(mine[id], old(mine[id].deliveryCount), old(mine[id].deliveryTime), !noAck && id in Ids(results), now)
  {
    results := [];
    ghost var given := {};
    var i := 0;
    while i < |ids| && !(count > 0 && |results| >= count)
      invariant 0 <= i <= |ids| && results == Lookups(ids[..i], index) && (count > 0 ==> |results| <= count)
      invariant given == Named(Ids(results))
      invariant forall id | id in mine ::
        Redelivered(mine[id], old(mine[id].deliveryCount), old(mine[id].deliveryTime), !noAck && id in given, now)
    {
      LookupsGrow(ids, i, index, entries);
      assert ids[i] in ids;
      if ids[i] in index {
        NamedAppend(results, index[ids[i]]);
        results, given := results + [index[ids[i]]], given + {ids[i]};
        if !noAck {
          var pe := mine[ids[i]];
          pe.deliveryCount, pe.deliveryTime := pe.deliveryCount + 1, now;
        }
      }
      i := i + 1;
    }
    LookupsPrefix(ids, i, index);
    if i == |ids| { assert ids[..i] == ids; }
  }

  /** The loop over the group's list, in any order. */
  method Summarise(pel: map<StreamId, PendingEntry>)
    returns (min: Option<StreamId>, max: Option<StreamId>, counts: map<bytes, nat>)
    ensures Extremes(pel.Keys, min, max) && Tallies(counts, pel, pel.Keys)
  {
    min, max, counts := None, None, map[];
    var rest := pel.Keys;
    ghost var done := {};
    while rest != {}
      invariant done + rest == pel.Keys && done !! rest && Extremes(done, min, max) && Tallies(counts, pel, done)
      decreases |rest|
    {
      var id :| id in rest;
      TallyOne(counts, pel, done, id);
      ExtremesGrow(done, min, max, id);
      Moved(done, rest, id);
      if min.None? || Before(id, min.value) { min := Some(id); }
      if max.None? || Before(max.value, id) { max := Some(id); }
      counts := counts[pel[id].consumer := CountOf(counts, pel[id].consumer) + 1];
      done, rest := done + {id}, rest - {id};
    }
    assert done + {} == done;
  }

  lemma Moved<T>(done: set<T>, rest: set<T>, x: T)
    requires done !! rest && x in rest
    ensures (done + {x}) + (rest - {x}) == done + rest && done + {x} !! rest - {x} && |rest - {x}| < |rest|
  {
  }

  function CountOf(counts: map<bytes, nat>, c: bytes): nat { if c in counts then counts[c] else 0 }

  function Share(pel: map<StreamId, PendingEntry>, done: set<StreamId>, c: bytes): set<StreamId> {
    set id | id in done && id in pel && pel[id].consumer == c
  }

  ghost predicate Tallies(counts: map<bytes, nat>, pel: map<StreamId, PendingEntry>, done: set<StreamId>) {
    && (forall c: bytes :: CountOf(counts, c) == |Share(pel, done, c)|)
    && forall c | c in counts :: counts[c] > 0
  }

  lemma ShareGrows(pel: map<StreamId, PendingEntry>, done: set<StreamId>, id: StreamId, c: bytes)
    requires id in pel && id !in done
    ensures |Share(pel, done + {id}, c)| == |Share(pel, done, c)| + (if c == pel[id].consumer then 1 else 0)
  {
    if c == pel[id].consumer {
      assert Share(pel, done + {id}, c) == Share(pel, done, c) + {id};
    } else {
      assert Share(pel, done + {id}, c) == Share(pel, done, c);
    }
  }

  lemma TallyOne(counts: map<bytes, nat>, pel: map<StreamId, PendingEntry>, done: set<StreamId>, id: StreamId)
    requires Tallies(counts, pel, done) && id in pel && id !in done
    ensures Tallies(counts[pel[id].consumer := CountOf(counts, pel[id].consumer) + 1], pel, done + {id})
  {
    var counts' := counts[pel[id].consumer := CountOf(counts, pel[id].consumer) + 1];
    forall c: bytes ensures CountOf(counts', c) == |Share(pel, done + {id}, c)| {
      ShareGrows(pel, done, id, c);
      assert CountOf(counts, c) == |Share(pel, done, c)|;
    }
  }

  /** The least and the greatest of the IDs. */
  ghost predicate Extremes(ids: set<StreamId>, min: Option<StreamId>, max: Option<StreamId>) {
    && (min.None? <==> ids == {}) && (max.None? <==> ids == {})
    && (min.Some? ==> min.value in ids && forall id | id in ids :: !Before(id, min.value))
    && (max.Some? ==> max.value in ids && forall id | id in ids :: !Before(max.value, id))
  }

  lemma ExtremesGrow(ids: set<StreamId>, min: Option<StreamId>, max: Option<StreamId>, id: StreamId)
    requires Extremes(ids, min, max)
    ensures Extremes(ids + {id}, if min.None? || Before(id, min.value) then Some(id) else min,
                                 if max.None? || Before(max.value, id) then Some(id) else max)
  {
  }

  lemma TalliedIsConsumer(counts: map<bytes, nat>, consumers: map<bytes, Consumer>, pel: map<StreamId, PendingEntry>)
    requires Filed(consumers, pel) && Tallies(counts, pel, pel.Keys)
    ensures forall c | c in counts :: c in consumers
  {
    forall c | c in counts ensures c in consumers {
      assert CountOf(counts, c) == |Share(pel, pel.Keys, c)| > 0;
      var id :| id in Share(pel, pel.Keys, c);
      assert Listed(consumers, pel[id], id);
    }
  }

  lemma TallyAll(counts: map<bytes, nat>, consumers: map<bytes, Consumer>, pel: map<StreamId, PendingEntry>)
    requires Agree(consumers, pel) && Tallies(counts, pel, pel.Keys)
    ensures forall c | c in consumers :: |consumers[c].pel| == CountOf(counts, c)
  {
    forall c | c in consumers ensures |consumers[c].pel| == CountOf(counts, c) {
      OwnIds(consumers, pel, c);
      assert consumers[c].pel.Keys == Share(pel, pel.Keys, c);
    }
  }

  function Mine(consumers: map<bytes, Consumer>, c: bytes): set<StreamId> {
    if c in consumers then consumers[c].pel.Keys else {}
  }

  /** The IDs that a re-read from a bound asks for. */
  function AtOrAfter(ids: set<StreamId>, from: Bound): set<StreamId> { set id | id in ids && Compare(id, from) >= 0 }

  /** From an ID on: the entries that are in the list and not before it. */
  lemma ReadFromId(entries: seq<Entry>, ids: set<StreamId>, from: StreamId, e: Entry)
    ensures e in Those(entries, AtOrAfter(ids, At(from))) <==> e in entries && e.id in ids && !Before(e.id, from)
  {
    ThoseMembers(entries, AtOrAfter(ids, At(from)), e);
  }

  ghost predicate Redelivered(pe: PendingEntry, count: int, time: int, again: bool, now: int)
    reads pe
  {
    pe.deliveryCount == (if again then count + 1 else count) && pe.deliveryTime == (if again then now else time)
  }

  lemma OwnIds(consumers: map<bytes, Consumer>, pel: map<StreamId, PendingEntry>, c: bytes)
    requires Agree(consumers, pel) && c in consumers
    ensures forall id | id in consumers[c].pel :: id in pel && consumers[c].pel[id] == pel[id] && pel[id].consumer == c
    ensures forall id | id in pel && pel[id].consumer == c :: id in consumers[c].pel
    ensures forall id | id in pel :: pel[id].id == id
  {
    assert Owned(consumers[c].pel, pel, c);
    forall id | id in pel ensures Listed(consumers, pel[id], id) { }
  }

  lemma LookupsGrow(ids: seq<StreamId>, i: nat, index: map<StreamId, Entry>, entries: seq<Entry>)
    requires i < |ids| && Ascending(ids) && Indexes(index, entries)
    ensures Lookups(ids[..i + 1], index) == Lookups(ids[..i], index) + (if ids[i] in index then [index[ids[i]]] else [])
    ensures ids[i] !in Ids(Lookups(ids[..i], index))
    ensures ids[i] in index ==> index[ids[i]].id == ids[i]
  {
    assert ids[..i + 1][..i] == ids[..i];
    var found := Lookups(ids[..i], index);
    SliceAscends(ids, 0, i + 1);
    assert ids[0..i + 1] == ids[..i + 1];
    forall j | 0 <= j < |found| ensures found[j].id != ids[i] {
      assert found[j] in found;
      LookupBeforeLast(ids[..i + 1], index, entries, found[j]);
    }
  }

  lemma {:induction false} LookupsPrefix(ids: seq<StreamId>, i: nat, index: map<StreamId, Entry>)
    requires i <= |ids|
    ensures Lookups(ids[..i], index) <= Lookups(ids, index)
    decreases |ids| - i
  {
    if i < |ids| {
      assert ids[..i + 1][..i] == ids[..i];
      LookupsPrefix(ids, i + 1, index);
    } else {
      assert ids[..i] == ids;
    }
  }

  function Named(ids: seq<StreamId>): set<StreamId> { set id | id in ids }

  lemma NamedAppend(entries: seq<Entry>, e: Entry)
    ensures Named(Ids(entries + [e])) == Named(Ids(entries)) + {e.id}
  {
    assert Ids(entries + [e]) == Ids(entries) + [e.id];
  }

  lemma NamedGrows(ids: seq<StreamId>, i: nat)
    requires i < |ids|
    ensures Named(ids[..i + 1]) == Named(ids[..i]) + {ids[i]}
  {
    assert ids[..i + 1] == ids[..i] + [ids[i]];
  }

  lemma OneMoreSeen(pel: map<StreamId, PendingEntry>, seen: set<StreamId>, id: StreamId)
    ensures |pel.Keys * (seen + {id})| == |pel.Keys * seen| + (if id in pel - seen then 1 else 0)
    ensures pel - (seen + {id}) == pel - seen - {id}
  {
    Sets.OneMoreCounted(pel.Keys, seen, id);
  }

  lemma RemovedCount(pel: map<StreamId, PendingEntry>, ids: set<StreamId>)
    ensures |pel.Keys * ids| + |pel - ids| == |pel|
  {
    assert (pel - ids).Keys == pel.Keys - ids;
    assert pel.Keys == (pel.Keys * ids) + (pel.Keys - ids);
  }

  /** An entry taken back from its consumer. */
  function Withdrawn(consumers: map<bytes, Consumer>, c: bytes, id: StreamId): map<bytes, Consumer>
    requires c in consumers
  {
    consumers[c := consumers[c].(pel := consumers[c].pel - {id})]
  }

  lemma WithdrawnAgrees(consumers: map<bytes, Consumer>, pel: map<StreamId, PendingEntry>, id: StreamId)
    requires Agree(consumers, pel) && id in pel
    ensures pel[id].consumer in consumers && Agree(Withdrawn(consumers, pel[id].consumer, id), pel - {id})
  {
    assert Listed(consumers, pel[id], id);
    var consumers', pel' := Withdrawn(consumers, pel[id].consumer, id), pel - {id};
    forall c | c in consumers' ensures Owned(consumers'[c].pel, pel', c) { assert Owned(consumers[c].pel, pel, c); }
    forall x | x in pel' ensures Listed(consumers', pel'[x], x) { assert Listed(consumers, pel[x], x); }
  }

  lemma WithdrawnFiled(consumers: map<bytes, Consumer>, pel: map<StreamId, PendingEntry>, id: StreamId)
    requires Filed(consumers, pel) && id in pel
    ensures pel[id].consumer in consumers && Filed(Withdrawn(consumers, pel[id].consumer, id), pel - {id})
  {
    assert Listed(consumers, pel[id], id);
    var consumers', pel' := Withdrawn(consumers, pel[id].consumer, id), pel - {id};
    forall c | c in consumers' ensures Tagged(consumers'[c].pel, c) { assert Tagged(consumers[c].pel, c); }
    forall x | x in pel' ensures Listed(consumers', pel'[x], x) { assert Listed(consumers, pel[x], x); }
  }

  /** A consumer whose list has lost the IDs, and nothing else. */
  ghost predicate Kept(was: Consumer, c: Consumer, gone: set<StreamId>) { c == was.(pel := was.pel - gone) }

  lemma ShareTaken(mine: map<StreamId, PendingEntry>, pel: map<StreamId, PendingEntry>, seen: set<StreamId>,
                   id: StreamId, c: bytes)
    ensures mine - Share(pel, seen, c) - Share(pel - seen, {id}, c) == mine - Share(pel, seen + {id}, c)
  {
  }

  /** The pending entries of everybody else. */
  function Others(pel: map<StreamId, PendingEntry>, name: bytes): map<StreamId, PendingEntry> {
    map id | id in pel && pel[id].consumer != name :: pel[id]
  }

  lemma OthersFiled(consumers: map<bytes, Consumer>, pel: map<StreamId, PendingEntry>, name: bytes)
    requires Filed(consumers, pel)
    ensures Filed(consumers - {name}, pel - Mine(consumers, name))
  {
    var consumers', pel' := consumers - {name}, pel - Mine(consumers, name);
    forall c | c in consumers' ensures Tagged(consumers'[c].pel, c) { assert Tagged(consumers[c].pel, c); }
    forall id | id in pel' ensures Listed(consumers', pel'[id], id) { assert Listed(consumers, pel[id], id); }
  }

  /** Taking entries back leaves nothing pending above the cursor. */
  lemma FewerBehind(pel: map<StreamId, PendingEntry>, gone: set<StreamId>, cursor: Bound)
    ensures Behind(pel, cursor) ==> Behind(pel - gone, cursor)
  {
    if pel - gone != map[] { assert (pel - gone).Keys != {}; }
  }

  lemma OthersAreLeft(consumers: map<bytes, Consumer>, pel: map<StreamId, PendingEntry>, name: bytes)
    requires Agree(consumers, pel)
    ensures pel - Mine(consumers, name) == Others(pel, name)
    ensures |Mine(consumers, name)| + |Others(pel, name)| == |pel|
  {
    forall id | id in pel ensures id in Mine(consumers, name) <==> pel[id].consumer == name {
      assert Listed(consumers, pel[id], id);
      if name in consumers { assert Owned(consumers[name].pel, pel, name); }
    }
    if name in consumers { assert Owned(consumers[name].pel, pel, name); }
    assert pel.Keys == Mine(consumers, name) + Others(pel, name).Keys;
  }

  lemma OthersAgree(consumers: map<bytes, Consumer>, pel: map<StreamId, PendingEntry>, name: bytes)
    requires Agree(consumers, pel)
    ensures Agree(consumers - {name}, pel - Mine(consumers, name)) && pel - Mine(consumers, name) == Others(pel, name)
    ensures |Mine(consumers, name)| + |Others(pel, name)| == |pel|
  {
    OthersAreLeft(consumers, pel, name);
    var consumers', pel' := consumers - {name}, Others(pel, name);
    forall c | c in consumers' ensures Owned(consumers'[c].pel, pel', c) { assert Owned(consumers[c].pel, pel, c); }
    forall id | id in pel' ensures Listed(consumers', pel'[id], id) { assert Listed(consumers, pel[id], id); }
  }

  lemma OthersKept(consumers: map<bytes, Consumer>, pel: map<StreamId, PendingEntry>, name: bytes)
    requires Filed(consumers, pel)
    ensures Filed(consumers - {name}, pel - Mine(consumers, name))
    ensures Agree(consumers, pel) ==>
      && Agree(consumers - {name}, pel - Mine(consumers, name)) && pel - Mine(consumers, name) == Others(pel, name)
      && |Mine(consumers, name)| + |Others(pel, name)| == |pel|
    ensures name !in consumers ==>
      consumers - {name} == consumers && pel - Mine(consumers, name) == pel && |Mine(consumers, name)| == 0
  {
    OthersFiled(consumers, pel, name);
    if Agree(consumers, pel) { OthersAgree(consumers, pel, name); }
  }

  /** After i entries the first k were at or below the cursor, and all the others were delivered. */
  ghost predicate Reached(entries: seq<Entry>, cursor: Bound, k: nat, i: nat, last: Bound) {
    && k <= i <= |entries|
    && (forall j | 0 <= j < k :: Compare(entries[j].id, cursor) <= 0)
    && if k == i then last == cursor else Compare(entries[k].id, cursor) > 0 && last == At(entries[i - 1].id)
  }

  lemma ReachedNext(entries: seq<Entry>, cursor: Bound, k: nat, i: nat, last: Bound)
    requires Reached(entries, cursor, k, i, last) && i < |entries| && Ascending(Ids(entries))
    ensures if Compare(entries[i].id, last) > 0 then Reached(entries, cursor, k, i + 1, At(entries[i].id))
            else k == i && Reached(entries, cursor, k + 1, i + 1, last)
  {
    assert Rises(Ids(entries), i - 1, i);
  }

  /** A read that begins with nothing pending above the cursor ends so. */
  lemma ReadStaysBehind(entries: seq<Entry>, cursor: Bound, k: nat, i: nat, last: Bound,
                        before: map<StreamId, PendingEntry>, after: map<StreamId, PendingEntry>, consumer: bytes)
    requires Ascending(Ids(entries)) && Reached(entries, cursor, k, i, last) && Behind(before, cursor)
    requires after == before || (after.Keys == before.Keys + Named(Ids(entries[k..i])))
    ensures Behind(after, last) && Exclusive(before, Ids(entries[k..i]), consumer)
  {
    var ids := Ids(entries[k..i]);
    if k < i {
      var end := entries[i - 1].id;
      IdSeparates(At(end));
      forall j | k <= j < i ensures entries[j].id !in before && (j < i - 1 ==> Before(entries[j].id, end)) {
        assert Rises(Ids(entries), k, j) && Rises(Ids(entries), j, i - 1);
      }
      forall id | id in before ensures Compare(id, At(end)) <= 0 { assert Compare(id, cursor) <= 0; }
      forall id | id in ids ensures Compare(id, At(end)) <= 0 && id !in before {
        var j :| 0 <= j < |ids| && ids[j] == id;
        assert id == entries[k + j].id;
      }
    }
  }

  lemma NewReadResult(entries: seq<Entry>, cursor: Bound, count: int, k: nat, i: nat, last: Bound)
    requires Reached(entries, cursor, k, i, last)
    requires (i < |entries| ==> 0 < count <= i - k) && (count > 0 ==> i - k <= count)
    ensures entries[k..i] == Limit(Undelivered(entries, cursor), count)
    ensures var r := entries[k..i]; last == if r == [] then cursor else At(r[|r| - 1].id)
    ensures forall e | e in entries[k..i] :: e in entries
  {
    UndeliveredFrom(entries, cursor, k);
  }

  // ---------------------------------------------------------------------------
  // Delivery across all reads.
  // ---------------------------------------------------------------------------

  /** No entry after the start and up to the cursor is missing from the log. */
  ghost predicate Complete(entries: seq<Entry>, start: Bound, log: seq<StreamId>, cursor: Bound) {
    forall i | 0 <= i < |entries| && Compare(entries[i].id, start) > 0 && Compare(entries[i].id, cursor) <= 0 ::
      entries[i].id in log
  }

  /** Everything delivered since the cursor was set came in ascending order, and nothing still there was passed over. */
  ghost predicate InOrder(entries: seq<Entry>, start: Bound, log: seq<StreamId>, cursor: Bound) {
    && Ascending(log)
    && cursor == (if log == [] then start else At(log[|log| - 1]))
    && (log != [] ==> Complete(entries, start, log, cursor))
  }

  /** A read with ">" keeps the order. */
  lemma ReadKeepsOrder(entries: seq<Entry>, start: Bound, log: seq<StreamId>, cursor: Bound, k: nat, i: nat,
                       last: Bound)
    requires Ascending(Ids(entries)) && InOrder(entries, start, log, cursor) && Reached(entries, cursor, k, i, last)
    ensures InOrder(entries, start, log + Ids(entries[k..i]), last)
  {
    if k == i {
      assert log + Ids(entries[k..i]) == log;
    } else {
      DeliveryKeepsOrder(entries, start, log, cursor, k, i);
    }
  }

  lemma DeliveryKeepsOrder(entries: seq<Entry>, start: Bound, log: seq<StreamId>, cursor: Bound, k: nat, m: nat)
    requires Ascending(Ids(entries)) && InOrder(entries, start, log, cursor) && k < m <= |entries|
    requires (forall j | 0 <= j < k :: Compare(entries[j].id, cursor) <= 0) && Compare(entries[k].id, cursor) > 0
    ensures InOrder(entries, start, log + Ids(entries[k..m]), At(entries[m - 1].id))
  {
    var ids := Ids(entries[k..m]);
    assert ids == Ids(entries)[k..m];
    SliceAscends(Ids(entries), k, m);
    AppendAscends(log, ids);
    DeliveryCompletes(entries, start, log, cursor, k, m);
  }

  lemma DeliveryCompletes(entries: seq<Entry>, start: Bound, log: seq<StreamId>, cursor: Bound, k: nat, m: nat)
    requires Ascending(Ids(entries)) && InOrder(entries, start, log, cursor) && k < m <= |entries|
    requires forall j | 0 <= j < k :: Compare(entries[j].id, cursor) <= 0
    ensures Complete(entries, start, log + Ids(entries)[k..m], At(entries[m - 1].id))
  {
    var ids := Ids(entries);
    forall j | 0 <= j < |entries| && Compare(entries[j].id, start) > 0
      && Compare(entries[j].id, At(entries[m - 1].id)) <= 0
      ensures entries[j].id in log + ids[k..m]
    {
      assert Rises(ids, m - 1, j);
      if j >= k { assert ids[k..m][j - k] == ids[j]; }
    }
  }
}


/** The cluster manager of one node: who is known, who owns which slot, and the epochs of its votes. */
module Cluster {
  import opened Bytes
  import opened SlotTable
  import Votes

  datatype Role = Master | Slave

  class ClusterNode {
    const id: Id
    var role: Role
    var masterID: Option<Id>
    var slots: seq<bool>
    var pfail: bool
    var fail: bool

    constructor (id: Id, role: Role)
      ensures this.id == id && this.role == role && masterID == None && !pfail && !fail
      ensures slots == seq(SLOTS, _ => false)
    {
      this.id, this.role, masterID, slots, pfail, fail := id, role, None, seq(SLOTS, _ => false), false, false;
    }
  }

  type Bitmap = s: seq<bool> | |s| == SLOTS witness seq(SLOTS, _ => false)

  datatype Kind = Ping | Pong | Failure | AuthRequest | AuthAck | Other

  datatype GossipEntry = GossipEntry(nodeID: Id, fail: bool, pfail: bool)

  datatype Packet = Packet(kind: Kind, epoch: uint64, senderID: Id, master: bool, slave: bool, slots: Bitmap,
                           targetNodeID: Id, reqEpoch: uint64, gossip: seq<GossipEntry>)

  datatype Response = NoReply | PongReply | Ack(candidate: Id, reqEpoch: uint64)

  /** A node that the gossip reports as failed. */
  predicate Reported(gossip: seq<GossipEntry>, n: nat, id: Id)
    requires n <= |gossip|
  {
    exists k :: 0 <= k < n && gossip[k].nodeID == id && gossip[k].fail
  }

  /** The packet says that the node has failed. */
  predicate Blames(p: Packet, id: Id) {
    match p.kind
    case Ping => Reported(p.gossip, |p.gossip|, id)
    case Pong => Reported(p.gossip, |p.gossip|, id)
    case Failure => p.targetNodeID == id
    case _ => false
  }

  /** A vote request is granted or not as the voter's record says; no other packet touches the record. */
  ghost predicate Answered(p: Packet, allowed: bool, before: Votes.Voter, after: Votes.Voter, r: Response) {
    if p.kind.AuthRequest? then
      && after == Votes.Asked(before, p.reqEpoch, p.senderID, allowed)
      && r == (if allowed && Votes.Grants(before, p.reqEpoch) then Ack(p.senderID, p.reqEpoch) else NoReply)
    else after == before && r == if p.kind.Ping? then PongReply else NoReply
  }

  ghost predicate ShowsNode(nodes: map<Id, ClusterNode>, o: Ownership, id: Id)
    reads nodes.Values`slots
  {
    id in nodes && id in o.bits ==> nodes[id].id == id && nodes[id].slots == o.bits[id]
  }

  ghost predicate ShowsSlot(nodes: map<Id, ClusterNode>, slotMap: seq<ClusterNode?>, o: Ownership, i: int) {
    0 <= i < |slotMap| && i < |o.owner| ==>
      if o.owner[i].None? then slotMap[i] == null
      else o.owner[i].value in nodes && slotMap[i] == nodes[o.owner[i].value]
  }

  /** What is known of a node from its first packet. */
  ghost predicate Newcomer(n: ClusterNode, p: Packet)
    reads n`role, n`masterID
  {
    n.role == (if p.slave then Slave else Master) && n.masterID == None
  }

  ghost predicate Marked(n: ClusterNode, fail: bool, pfail: bool)
    reads n`fail, n`pfail
  {
    n.fail == fail && n.pfail == pfail
  }

  class ClusterManager {
    const self: ClusterNode
    var nodes: map<Id, ClusterNode>
    var slotMap: seq<ClusterNode?>
    var currentEpoch: uint64
    var lastVoteEpoch: uint64
    ghost var own: Ownership
    ghost var granted: seq<(uint64, Id)>

    /** Nodes are known under their own IDs, and the ownership is what the table and the nodes' bits say. */
    ghost predicate Mirrored()
      reads this, nodes.Values`slots
    {
      && self.id in nodes && nodes[self.id] == self
      && own.bits.Keys == nodes.Keys && |slotMap| == SLOTS && Shaped(own)
      && (forall id {:trigger ShowsNode(nodes, own, id)} :: ShowsNode(nodes, own, id))
      && (forall i {:trigger ShowsSlot(nodes, slotMap, own, i)} :: ShowsSlot(nodes, slotMap, own, i))
    }

    /** Table and bits agree. */
    ghost predicate Valid()
      reads this, nodes.Values`slots
    {
      Mirrored() && Agree(own)
    }

    constructor (id: Id)
      ensures Valid() && fresh(self) && self.id == id && nodes == map[id := self] && own.owner == seq(SLOTS, _ => None)
      ensures currentEpoch == 1 && lastVoteEpoch == 0 && granted == []
    {
      self := new ClusterNode(id, Master);
      nodes, slotMap := map[id := self], seq(SLOTS, _ => null);
      currentEpoch, lastVoteEpoch := 1, 0;
      own, granted := Ownership(seq(SLOTS, _ => None), map[id := seq(SLOTS, _ => false)]), [];
      new;
      forall i ensures AgreeAt(own, i) { }
    }

    /** The owner that the table shows. */
    lemma ShownOwner(i: nat)
      requires Valid() && i < SLOTS
      ensures slotMap[i] == null <==> own.owner[i].None?
      ensures own.owner[i].Some? ==>
        own.owner[i].value in nodes && slotMap[i] == nodes[own.owner[i].value] && slotMap[i].id == own.owner[i].value
    {
      assert AgreeAt(own, i) && ShowsSlot(nodes, slotMap, own, i);
      if own.owner[i].Some? { assert ShowsNode(nodes, own, own.owner[i].value); }
    }

    /** Changes one bit of one node. */
    method SetNodeBit(id: Id, i: nat, b: bool)
      requires Mirrored() && i < SLOTS && id in nodes
      modifies this`own, {nodes[id]}`slots
      ensures Mirrored() && own == SetBit(old(own), id, i, b)
    {
      assert ShowsNode(nodes, own, id);
      nodes[id].slots := nodes[id].slots[i := b];
      own := SetBit(own, id, i, b);
      forall x ensures ShowsNode(nodes, own, x) { assert old(ShowsNode(nodes, own, x)); }
      forall j ensures ShowsSlot(nodes, slotMap, own, j) { assert old(ShowsSlot(nodes, slotMap, own, j)); }
    }

    /** Changes one entry of the table. */
    method SetSlotOwner(i: nat, who: Option<Id>)
      requires Mirrored() && i < SLOTS && (who.Some? ==> who.value in nodes)
      modifies this`slotMap, this`own
      ensures Mirrored() && own == SetOwner(old(own), i, who)
    {
      slotMap := slotMap[i := if who.Some? then nodes[who.value] else null];
      own := SetOwner(own, i, who);
      forall x ensures ShowsNode(nodes, own, x) { assert old(ShowsNode(nodes, own, x)); }
      forall j ensures ShowsSlot(nodes, slotMap, own, j) { assert old(ShowsSlot(nodes, slotMap, own, j)); }
    }

    /** Hands a slot to a known node: its old owner's bit, its new owner's bit, and the table. */
    method GiveSlot(i: nat, id: Id)
      requires Valid() && i < SLOTS && id in nodes
      modifies this`slotMap, this`own, nodes.Values`slots
      ensures Valid() && own == Give(old(own), i, id)
    {
      GiveAgrees(own, i, id);
      ShownOwner(i);
      if slotMap[i] != null && slotMap[i].id != id { SetNodeBit(slotMap[i].id, i, false); }
      SetNodeBit(id, i, true);
      SetSlotOwner(i, Some(id));
    }

    method FreeSlot(i: nat)
      requires Valid() && i < SLOTS
      modifies this`slotMap, this`own, nodes.Values`slots
      ensures Valid() && own == Free(old(own), i)
    {
      FreeAgrees(own, i);
      ShownOwner(i);
      if slotMap[i] != null { SetNodeBit(slotMap[i].id, i, false); }
      SetSlotOwner(i, None);
    }

    /** Free slots, or the node's own, become the node's; one that is not refuses them all. */
    method AddSlots(slots: seq<nat>) returns (ok: bool)
      requires Valid()
      modifies this`slotMap, this`own, nodes.Values`slots
      ensures Valid()
      ensures ok <==> forall k | 0 <= k < |slots| ::
        slots[k] < SLOTS && old(own).owner[slots[k]] in {None, Some(self.id)}
      ensures !ok ==> own == old(own)
      ensures ok ==> own.owner == Put(old(own).owner, slots, |slots|, Some(self.id))
    {
      for k := 0 to |slots|
        invariant Valid() && own == old(own)
        invariant forall j | 0 <= j < k :: slots[j] < SLOTS && own.owner[slots[j]] in {None, Some(self.id)}
      {
        if slots[k] >= SLOTS { return false; }
        ShownOwner(slots[k]);
        if slotMap[slots[k]] != null && slotMap[slots[k]].id != self.id { return false; }
      }
      AssignAll(self.id, slots);
      return true;
    }

    /** The assignment loop. */
    method AssignAll(id: Id, slots: seq<nat>)
      requires Valid() && id in nodes && forall k | 0 <= k < |slots| :: slots[k] < SLOTS
      modifies this`slotMap, this`own, nodes.Values`slots
      ensures Valid() && own.owner == Put(old(own).owner, slots, |slots|, Some(id))
    {
      for k := 0 to |slots|
        invariant Valid() && own.owner == Put(old(own).owner, slots, k, Some(id))
      {
        GiveAgrees(own, slots[k], id);
        GiveSlot(slots[k], id);
      }
    }

    /** Slots are taken from whoever has them; the first one out of range ends it, with those before it assigned. */
    method AssignSlotsToNode(id: Id, slots: seq<nat>) returns (ok: bool, ghost done: nat)
      requires Valid()
      modifies this`slotMap, this`own, nodes.Values`slots
      ensures Valid() && done <= |slots| && (forall k | 0 <= k < done :: slots[k] < SLOTS)
      ensures ok <==> id in nodes && done == |slots|
      ensures id in nodes && done < |slots| ==> slots[done] >= SLOTS
      ensures if id in nodes then own.owner == Put(old(own).owner, slots, done, Some(id))
        else own == old(own) && done == 0
    {
      done := 0;
      if id !in nodes { return false, 0; }
      for k := 0 to |slots|
        invariant Valid() && done == k && (forall j | 0 <= j < k :: slots[j] < SLOTS)
        invariant own.owner == Put(old(own).owner, slots, k, Some(id))
      {
        if slots[k] >= SLOTS { return false, k; }
        GiveAgrees(own, slots[k], id);
        GiveSlot(slots[k], id);
        done := k + 1;
      }
      return true, |slots|;
    }

    method DelSlots(slots: seq<nat>) returns (ok: bool)
      requires Valid()
      modifies this`slotMap, this`own, nodes.Values`slots
      ensures Valid()
      ensures ok <==> forall k | 0 <= k < |slots| :: slots[k] < SLOTS && old(own).owner[slots[k]] == Some(self.id)
      ensures !ok ==> own == old(own)
      ensures ok ==> own.owner == Put(old(own).owner, slots, |slots|, None)
    {
      for k := 0 to |slots|
        invariant Valid() && own == old(own)
        invariant forall j | 0 <= j < k :: slots[j] < SLOTS && own.owner[slots[j]] == Some(self.id)
      {
        if slots[k] >= SLOTS { return false; }
        ShownOwner(slots[k]);
        if slotMap[slots[k]] == null || slotMap[slots[k]].id != self.id { return false; }
      }
      for k := 0 to |slots|
        invariant Valid() && own.owner == Put(old(own).owner, slots, k, None)
      {
        FreeAgrees(own, slots[k]);
        FreeSlot(slots[k]);
      }
      return true;
    }

    /** CLUSTER SETSLOT slot NODE id. */
    method SetSlotNode(slot: nat, id: Id) returns (ok: bool)
      requires Valid()
      modifies this`slotMap, this`own, nodes.Values`slots
      ensures Valid() && ok == (slot < SLOTS && id in nodes)
      ensures own.owner == if ok then old(own).owner[slot := Some(id)] else old(own).owner
    {
      if slot >= SLOTS || id !in nodes { return false; }
      GiveAgrees(own, slot, id);
      GiveSlot(slot, id);
      return true;
    }

    /** Gives up every slot of the local node. */
    method ReleaseOwn()
      requires Valid()
      modifies this`slotMap, this`own, nodes.Values`slots
      ensures Valid() && own.owner == Inherited(old(own).owner, SLOTS, self.id, None)
    {
      for i := 0 to SLOTS
        invariant Valid() && own.owner == Inherited(old(own).owner, i, self.id, None)
      {
        assert AgreeAt(own, i) && ShowsNode(nodes, own, self.id);
        if self.slots[i] {
          FreeAgrees(own, i);
          FreeSlot(i);
        }
      }
    }

    /** The local node becomes a replica and gives up its slots. */
    method Replicate(masterID: Id) returns (ok: bool)
      requires Valid()
      modifies this`slotMap, this`own, nodes.Values`slots, self`role, self`masterID
      ensures Valid()
      ensures ok == (masterID != self.id && masterID in nodes && old(nodes[masterID].role) == Master)
      ensures ok ==> self.role == Slave && self.masterID == Some(masterID)
      ensures ok ==> own.owner == Inherited(old(own).owner, SLOTS, self.id, None)
      ensures !ok ==> own == old(own) && self.role == old(self.role) && self.masterID == old(self.masterID)
    {
      if masterID == self.id || masterID !in nodes || nodes[masterID].role != Master { return false; }
      ReleaseOwn();
      self.role, self.masterID := Slave, Some(masterID);
      return true;
    }

    /** Takes over every slot of the failed master. */
    method TakeOver(failed: Id)
      requires Valid()
      modifies this`slotMap, this`own, nodes.Values`slots
      ensures Valid() && own.owner == Inherited(old(own).owner, SLOTS, failed, Some(self.id))
    {
      for i := 0 to SLOTS
        invariant Valid() && own.owner == Inherited(old(own).owner, i, failed, Some(self.id))
      {
        assert AgreeAt(own, i) && ShowsNode(nodes, own, failed);
        ShownOwner(i);
        if failed in nodes && nodes[failed].slots[i] {
          GiveAgrees(own, i, self.id);
          GiveSlot(i, self.id);
        } else if slotMap[i] != null && slotMap[i].id == failed {
          assert false;  // a node that owns a slot has its bit set
        }
      }
    }

    /** A promoted replica has its own slots and the failed master's, and nobody else loses any. */
    method PromoteReplica(failed: Id)
      requires Valid()
      modifies this`slotMap, this`own, nodes.Values`slots, self`role, self`masterID
      ensures Valid() && self.role == Master
      ensures own.owner == if old(self.role) == Master then old(own).owner
        else Inherited(old(own).owner, SLOTS, failed, Some(self.id))
    {
      if self.role == Master { return; }
      self.role, self.masterID := Master, None;
      TakeOver(failed);
    }

    /** Empties the table where the node owns the slot. */
    method ClearTable(id: Id)
      requires Valid() && id in nodes
      modifies this`slotMap
      ensures |slotMap| == SLOTS
      ensures forall i | 0 <= i < SLOTS :: slotMap[i] == if own.owner[i] == Some(id) then null else old(slotMap)[i]
    {
      for i := 0 to SLOTS
        invariant |slotMap| == SLOTS
        invariant forall j | 0 <= j < SLOTS ::
          slotMap[j] == if j < i && own.owner[j] == Some(id) then null else old(slotMap)[j]
      {
        assert old(Valid()) && AgreeAt(own, i) && ShowsNode(nodes, own, id) && old(ShowsSlot(nodes, slotMap, own, i));
        if nodes[id].slots[i] && slotMap[i] == nodes[id] { slotMap := slotMap[i := null]; }
      }
    }

    /** A node that is removed leaves its slots without owner; the local node stays. */
    method RemoveNode(id: Id) returns (ok: bool)
      requires Valid()
      modifies this`nodes, this`slotMap, this`own
      ensures Valid() && ok == (id != self.id && id in old(nodes))
      ensures if ok then nodes == old(nodes) - {id} && own == Left(old(own), id)
        else nodes == old(nodes) && own == old(own)
    {
      if id == self.id || id !in nodes { return false; }
      LeftAgrees(own, id);
      ClearTable(id);
      nodes, own := nodes - {id}, Left(own, id);
      forall x ensures ShowsNode(nodes, own, x) { assert old(ShowsNode(nodes, own, x)); }
      forall i ensures ShowsSlot(nodes, slotMap, own, i) { assert old(ShowsSlot(nodes, slotMap, own, i)); }
      return true;
    }

    // -------------------------------------------------------------------------
    // Packets.
    // -------------------------------------------------------------------------

    ghost function Voter(): Votes.Voter
      reads this`currentEpoch, this`lastVoteEpoch, this`granted
    {
      Votes.Voter(currentEpoch, lastVoteEpoch, granted)
    }

    /** An unknown sender becomes a node without slots. */
    method AddSender(p: Packet)
      requires Valid()
      modifies this`nodes, this`own
      ensures Valid() && nodes.Keys == old(nodes).Keys + {p.senderID} && own.owner == old(own).owner
      ensures forall id | id in old(nodes) :: nodes[id] == old(nodes)[id]
      ensures p.senderID !in old(nodes) ==> fresh(nodes[p.senderID]) && Newcomer(nodes[p.senderID], p)
      ensures p.senderID !in old(nodes) ==> Marked(nodes[p.senderID], false, false)
    {
      if p.senderID in nodes { return; }
      var n := new ClusterNode(p.senderID, if p.slave then Slave else Master);
      JoinedAgrees(own, p.senderID);
      nodes, own := nodes[p.senderID := n], Joined(own, p.senderID);
      forall id ensures ShowsNode(nodes, own, id) { assert old(ShowsNode(nodes, own, id)); }
      forall i ensures ShowsSlot(nodes, slotMap, own, i) { assert old(ShowsSlot(nodes, slotMap, own, i)); }
    }

    /** A sender that speaks is not failed. */
    method RegisterSender(p: Packet)
      requires Valid()
      modifies this`nodes, this`own, nodes.Values`pfail, nodes.Values`fail
      ensures Valid() && nodes.Keys == old(nodes).Keys + {p.senderID} && own.owner == old(own).owner
      ensures forall id | id in old(nodes) :: nodes[id] == old(nodes)[id]
      ensures p.senderID !in old(nodes) ==> fresh(nodes[p.senderID]) && Newcomer(nodes[p.senderID], p)
      ensures forall id | id in nodes ::
        if id in old(nodes) && id != p.senderID then Marked(nodes[id], old(nodes[id].fail), old(nodes[id].pfail))
        else Marked(nodes[id], false, false)
    {
      AddSender(p);
      forall id | id in nodes ensures nodes[id].id == id { assert ShowsNode(nodes, own, id); }
      nodes[p.senderID].pfail, nodes[p.senderID].fail := false, false;
    }

    /** One slot of a master's claim. */
    method SyncSlot(p: Packet, i: nat)
      requires Valid() && p.senderID in nodes && i < SLOTS
      modifies this`slotMap, this`own, nodes.Values`slots
      ensures Valid()
      ensures own.owner ==
        old(own).owner[i := ClaimedOwner(old(own).owner[i], p.slots[i], p.senderID, self.id, currentEpoch > p.epoch)]
    {
      ShownOwner(i);
      if p.slots[i] {
        var owner := slotMap[i];
        if owner == null || owner.id != p.senderID {
          if !(owner != null && owner.id == self.id && currentEpoch > p.epoch) {
            GiveAgrees(own, i, p.senderID);
            GiveSlot(i, p.senderID);
          }
        }
      }
    }

    /** A master's claims are believed, except on the local node's slots with an older epoch. */
    method SyncSlots(p: Packet)
      requires Valid() && p.senderID in nodes
      modifies this`slotMap, this`own, nodes.Values`slots
      ensures Valid()
      ensures own.owner == Claimed(old(own).owner, SLOTS, p.slots, p.senderID, self.id, currentEpoch > p.epoch)
    {
      for i := 0 to SLOTS
        invariant Valid()
        invariant own.owner == Claimed(old(own).owner, i, p.slots, p.senderID, self.id, currentEpoch > p.epoch)
      {
        ClaimedNext(old(own).owner, i, p.slots, p.senderID, self.id, currentEpoch > p.epoch);
        SyncSlot(p, i);
      }
    }

    /** Failures that others report are believed, except of the local node. */
    method ProcessGossip(gossip: seq<GossipEntry>)
      requires Valid()
      modifies nodes.Values`pfail, nodes.Values`fail
      ensures Valid()
      ensures forall id | id in nodes ::
        nodes[id].fail <==> old(nodes[id].fail) || (id != self.id && Reported(gossip, |gossip|, id))
      ensures forall id | id in nodes ::
        nodes[id].pfail <==> old(nodes[id].pfail) && !(id != self.id && Reported(gossip, |gossip|, id))
    {
      forall id | id in nodes ensures nodes[id].id == id { assert ShowsNode(nodes, own, id); }
      for k := 0 to |gossip|
        invariant forall id | id in nodes ::
          nodes[id].fail <==> old(nodes[id].fail) || (id != self.id && Reported(gossip, k, id))
        invariant forall id | id in nodes ::
          nodes[id].pfail <==> old(nodes[id].pfail) && !(id != self.id && Reported(gossip, k, id))
      {
        var g := gossip[k];
        if g.nodeID != self.id && g.fail && g.nodeID in nodes {
          nodes[g.nodeID].fail, nodes[g.nodeID].pfail := true, false;
        }
      }
    }

    /** A vote: only by a master, for a master that has failed, in an epoch later than the last vote's and
     not in the past. */
    method Vote(p: Packet) returns (r: Response)
      requires Valid()
      modifies this`currentEpoch, this`lastVoteEpoch, this`granted
      ensures Valid()
      ensures var allowed := self.role == Master && p.targetNodeID in nodes && nodes[p.targetNodeID].fail;
        && Voter() == Votes.Asked(old(Voter()), p.reqEpoch, p.senderID, allowed)
        && r == if allowed && Votes.Grants(old(Voter()), p.reqEpoch) then Ack(p.senderID, p.reqEpoch) else NoReply
    {
      if self.role == Master && p.reqEpoch >= currentEpoch && p.reqEpoch > lastVoteEpoch
        && p.targetNodeID in nodes && nodes[p.targetNodeID].fail
      {
        lastVoteEpoch, currentEpoch := p.reqEpoch, p.reqEpoch;
        granted := granted + [(p.reqEpoch, p.senderID)];
        return Ack(p.senderID, p.reqEpoch);
      }
      return NoReply;
    }

    /** The epoch and the slots of a known sender. */
    method Believe(p: Packet)
      requires Valid() && p.senderID in nodes
      modifies this`slotMap, this`own, this`currentEpoch, nodes.Values`slots
      ensures Valid() && Voter() == Votes.Heard(old(Voter()), p.epoch)
      ensures own.owner == if p.master
        then Claimed(old(own).owner, SLOTS, p.slots, p.senderID, self.id, old(currentEpoch) > p.epoch)
        else old(own).owner
    {
      if p.epoch > currentEpoch { currentEpoch := p.epoch; }
      if p.master { SyncSlots(p); }
    }

    /** What every packet does first: the sender, its epoch, and its slots. */
    method Arrive(p: Packet)
      requires Valid()
      modifies this`nodes, this`slotMap, this`own, this`currentEpoch, nodes.Values`slots, nodes.Values`pfail,
        nodes.Values`fail
      ensures Valid() && nodes.Keys == old(nodes).Keys + {p.senderID}
      ensures forall id | id in old(nodes) :: nodes[id] == old(nodes)[id]
      ensures p.senderID !in old(nodes) ==> fresh(nodes[p.senderID]) && Newcomer(nodes[p.senderID], p)
      ensures own.owner == if p.master
        then Claimed(old(own).owner, SLOTS, p.slots, p.senderID, self.id, old(currentEpoch) > p.epoch)
        else old(own).owner
      ensures Voter() == Votes.Heard(old(Voter()), p.epoch)
      ensures forall id | id in nodes ::
        if id in old(nodes) && id != p.senderID then Marked(nodes[id], old(nodes[id].fail), old(nodes[id].pfail))
        else Marked(nodes[id], false, false)
    {
      RegisterSender(p);
      forall id | id in nodes ensures nodes[id] in old(nodes).Values || fresh(nodes[id]) {
        if id in old(nodes) { assert old(nodes)[id] in old(nodes).Values; }
      }
      Believe(p);
    }

    /** Anything that arrives on the bus. */
    method ProcessPacket(p: Packet) returns (r: Response)
      requires Valid()
      modifies this`nodes, this`slotMap, this`own, this`currentEpoch, this`lastVoteEpoch, this`granted,
        nodes.Values`slots, nodes.Values`pfail, nodes.Values`fail
      ensures Valid() && nodes.Keys == old(nodes).Keys + {p.senderID}
      ensures forall id | id in old(nodes) :: nodes[id] == old(nodes)[id]
      ensures p.senderID !in old(nodes) ==>
        fresh(nodes[p.senderID]) && nodes[p.senderID].role == if p.slave then Slave else Master
      ensures forall id | id in nodes :: nodes[id].fail <==>
        (id in old(nodes) && old(nodes[id].fail) && id != p.senderID) || (id != self.id && Blames(p, id))
      ensures forall id | id in nodes :: nodes[id].pfail <==>
        id in old(nodes) && old(nodes[id].pfail) && id != p.senderID && !(id != self.id && Blames(p, id))
      ensures own.owner == if p.master
        then Claimed(old(own).owner, SLOTS, p.slots, p.senderID, self.id, old(currentEpoch) > p.epoch)
        else old(own).owner
      ensures r.PongReply? <==> p.kind.Ping?
      ensures var allowed := self.role == Master && p.targetNodeID in old(nodes)
        && old(nodes[p.targetNodeID].fail) && p.targetNodeID != p.senderID;
        Answered(p, allowed, Votes.Heard(old(Voter()), p.epoch), Voter(), r)
    {
      Arrive(p);
      r := Act(p);
    }

    /** What depends on the kind of packet. */
    method Act(p: Packet) returns (r: Response)
      requires Valid()
      modifies this`currentEpoch, this`lastVoteEpoch, this`granted, nodes.Values`pfail, nodes.Values`fail
      ensures Valid()
      ensures var allowed := self.role == Master && p.targetNodeID in nodes && old(nodes[p.targetNodeID].fail);
        Answered(p, allowed, old(Voter()), Voter(), r)
      ensures forall id | id in nodes :: nodes[id].fail <==> old(nodes[id].fail) || (id != self.id && Blames(p, id))
      ensures forall id | id in nodes :: nodes[id].pfail <==> old(nodes[id].pfail) && !(id != self.id && Blames(p, id))
    {
      match p.kind
      case Ping =>
        ProcessGossip(p.gossip);
        r := PongReply;
      case Pong =>
        ProcessGossip(p.gossip);
        r := NoReply;
      case Failure =>
        MarkFailed(p.targetNodeID);
        r := NoReply;
      case AuthRequest => r := Vote(p);
      case _ => r := NoReply;
    }

    method MarkFailed(id: Id)
      requires Valid()
      modifies nodes.Values`pfail, nodes.Values`fail
      ensures Valid() && forall x | x in nodes :: nodes[x].fail <==> old(nodes[x].fail) || (x == id && x != self.id)
      ensures forall x | x in nodes :: nodes[x].pfail <==> old(nodes[x].pfail) && !(x == id && x != self.id)
    {
      forall x | x in nodes ensures nodes[x].id == x { assert ShowsNode(nodes, own, x); }
      if id in nodes && nodes[id].id != self.id { nodes[id].fail, nodes[id].pfail := true, false; }
    }

    /** The start of an election: only a replica stands, in a new epoch. */
    method StandForElection() returns (epoch: Option<uint64>)
      requires Valid()
      modifies this`currentEpoch
      ensures Valid() && (epoch.Some? <==> self.role == Slave) && (epoch.Some? ==> epoch.value == currentEpoch)
      ensures Voter() == if self.role == Slave then Votes.Stood(old(Voter())) else old(Voter())
    {
      if self.role != Slave { return None; }
      currentEpoch := if currentEpoch == TWO_64 - 1 then 0 else currentEpoch + 1;
      return Some(currentEpoch);
    }
  }
}


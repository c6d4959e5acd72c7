/** Slot ownership held twice: one owner per slot, and one bit per slot in every node. */
module SlotTable {
  import opened Bytes

  const SLOTS: nat := 16384

  type Id = bytes

  datatype Ownership = Ownership(owner: seq<Option<Id>>, bits: map<Id, seq<bool>>)

  ghost predicate Shaped(o: Ownership) {
    |o.owner| == SLOTS && forall id | id in o.bits :: |o.bits[id]| == SLOTS
  }

  /** The owner of the slot is the one known node whose bit is set. */
  ghost predicate AgreeAt(o: Ownership, i: int)
    requires Shaped(o)
  {
    0 <= i < SLOTS ==>
      && (o.owner[i].Some? ==> o.owner[i].value in o.bits)
      && forall id | id in o.bits :: o.bits[id][i] <==> o.owner[i] == Some(id)
  }

  ghost predicate Agree(o: Ownership) {
    Shaped(o) && forall i {:trigger AgreeAt(o, i)} :: AgreeAt(o, i)
  }

  /** Agreement leaves the bits no choice. */
  lemma BitsAreDetermined(o: Ownership, id: Id)
    requires Agree(o) && id in o.bits
    ensures o.bits[id] == seq(SLOTS, i requires 0 <= i < SLOTS => o.owner[i] == Some(id))
  {
    forall i | 0 <= i < SLOTS ensures o.bits[id][i] == (o.owner[i] == Some(id)) { assert AgreeAt(o, i); }
  }

  /** A node's bits with one changed. */
  function SetBit(o: Ownership, id: Id, i: nat, b: bool): Ownership
    requires Shaped(o) && i < SLOTS && id in o.bits
  {
    o.(bits := o.bits[id := o.bits[id][i := b]])
  }

  function SetOwner(o: Ownership, i: nat, who: Option<Id>): Ownership
    requires Shaped(o) && i < SLOTS
  {
    o.(owner := o.owner[i := who])
  }

  /** The slot changes hands: the old owner's bit is cleared, the new owner's set. */
  function Give(o: Ownership, i: nat, id: Id): Ownership
    requires Agree(o) && i < SLOTS && id in o.bits
  {
    assert AgreeAt(o, i);
    var cleared := if o.owner[i].Some? && o.owner[i].value != id then SetBit(o, o.owner[i].value, i, false) else o;
    SetOwner(SetBit(cleared, id, i, true), i, Some(id))
  }

  function Free(o: Ownership, i: nat): Ownership
    requires Agree(o) && i < SLOTS
  {
    assert AgreeAt(o, i);
    var cleared := if o.owner[i].Some? then SetBit(o, o.owner[i].value, i, false) else o;
    SetOwner(cleared, i, None)
  }

  lemma GiveAgrees(o: Ownership, i: nat, id: Id)
    requires Agree(o) && i < SLOTS && id in o.bits
    ensures Agree(Give(o, i, id)) && Give(o, i, id).bits.Keys == o.bits.Keys
    ensures Give(o, i, id).owner == o.owner[i := Some(id)]
  {
    assert AgreeAt(o, i);
    var o' := Give(o, i, id);
    forall j ensures AgreeAt(o', j) { assert AgreeAt(o, j); }
  }

  lemma FreeAgrees(o: Ownership, i: nat)
    requires Agree(o) && i < SLOTS
    ensures Agree(Free(o, i)) && Free(o, i).bits.Keys == o.bits.Keys && Free(o, i).owner == o.owner[i := None]
  {
    assert AgreeAt(o, i);
    var o' := Free(o, i);
    forall j ensures AgreeAt(o', j) { assert AgreeAt(o, j); }
  }

  /** A node that is new owns nothing. */
  function Joined(o: Ownership, id: Id): Ownership { o.(bits := o.bits[id := seq(SLOTS, _ => false)]) }

  lemma JoinedAgrees(o: Ownership, id: Id)
    requires Agree(o) && id !in o.bits
    ensures Agree(Joined(o, id))
  {
    forall j ensures AgreeAt(Joined(o, id), j) { assert AgreeAt(o, j); }
  }

  /** A node that leaves frees its slots. */
  function Left(o: Ownership, id: Id): Ownership
    requires |o.owner| == SLOTS
  {
    Ownership(
      seq(SLOTS, i requires 0 <= i < SLOTS => if o.owner[i] == Some(id) then None else o.owner[i]), o.bits - {id})
  }

  lemma LeftAgrees(o: Ownership, id: Id)
    requires Agree(o)
    ensures Agree(Left(o, id))
  {
    forall j ensures AgreeAt(Left(o, id), j) { assert AgreeAt(o, j); }
  }

  // ---------------------------------------------------------------------------
  // Who owns what after each operation.
  // ---------------------------------------------------------------------------

  /** The owners after the first n slots of the list were set. */
  function Put(owner: seq<Option<Id>>, slots: seq<nat>, n: nat, who: Option<Id>): (r: seq<Option<Id>>)
    requires |owner| == SLOTS && n <= |slots| && forall k | 0 <= k < n :: slots[k] < SLOTS
    ensures |r| == SLOTS
  {
    if n == 0 then owner else Put(owner, slots, n - 1, who)[slots[n - 1] := who]
  }

  lemma {:induction false} PutMeaning(owner: seq<Option<Id>>, slots: seq<nat>, n: nat, who: Option<Id>, i: nat)
    requires |owner| == SLOTS && n <= |slots| && i < SLOTS && forall k | 0 <= k < n :: slots[k] < SLOTS
    ensures Put(owner, slots, n, who)[i] == if i in slots[..n] then who else owner[i]
  {
    if n > 0 {
      PutMeaning(owner, slots, n - 1, who, i);
      assert slots[..n] == slots[..n - 1] + [slots[n - 1]];
    }
  }

  /** The owners when everything of one node goes to another, up to slot n. */
  function Inherited(owner: seq<Option<Id>>, n: nat, from: Id, heir: Option<Id>): (r: seq<Option<Id>>)
    requires |owner| == SLOTS
    ensures |r| == SLOTS
  {
    seq(SLOTS, i requires 0 <= i < SLOTS => if i < n && owner[i] == Some(from) then heir else owner[i])
  }

  /** Who owns a slot after a master's claim: self keeps its own against an older epoch. */
  function ClaimedOwner(owner: Option<Id>, claimed: bool, sender: Id, self: Id, newer: bool): Option<Id> {
    if claimed && !(owner == Some(self) && self != sender && newer) then Some(sender) else owner
  }

  /** The owners after a master's claim on slots up to n; no slot is lost. */
  function Claimed(owner: seq<Option<Id>>, n: nat, claims: seq<bool>, sender: Id, self: Id,
                   newer: bool): (r: seq<Option<Id>>)
    requires |owner| == SLOTS && |claims| == SLOTS
    ensures |r| == SLOTS && forall i | 0 <= i < SLOTS && owner[i].Some? :: r[i].Some?
  {
    seq(SLOTS, i requires 0 <= i < SLOTS =>
      if i < n then ClaimedOwner(owner[i], claims[i], sender, self, newer) else owner[i])
  }

  lemma ClaimedNext(owner: seq<Option<Id>>, n: nat, claims: seq<bool>, sender: Id, self: Id, newer: bool)
    requires |owner| == SLOTS && |claims| == SLOTS && n < SLOTS
    ensures Claimed(owner, n + 1, claims, sender, self, newer)
         == Claimed(owner, n, claims, sender, self, newer)[n := ClaimedOwner(owner[n], claims[n], sender, self, newer)]
    ensures Claimed(owner, n, claims, sender, self, newer)[n] == owner[n]
  {
  }
}


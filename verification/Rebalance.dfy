/** Spreading slots evenly over masters, in as few moves as possible. */
module Rebalance {
  import opened Bytes
  import opened SlotTable
  import Ordering

  /** A slot that changes hands; nodes are named by their place in ID order. */
  datatype Move = Move(slot: nat, from: nat, dest: nat)

  // ---------------------------------------------------------------------------
  // Targets.
  // ---------------------------------------------------------------------------

  /** An even share, and one more for the first few. */
  function Target(n: nat, i: nat): nat
    requires n > 0
  {
    SLOTS / n + if i < SLOTS % n then 1 else 0
  }

  function Sum(counts: seq<nat>): nat {
    if counts == [] then 0 else Sum(counts[..|counts| - 1]) + counts[|counts| - 1]
  }

  function Targets(n: nat, k: nat): (t: seq<nat>)
    requires n > 0
    ensures |t| == k
  {
    seq(k, i requires 0 <= i < k => Target(n, i))
  }

  lemma {:induction false} TargetsSum(n: nat, k: nat)
    requires 0 < n && k <= n
    ensures Sum(Targets(n, k)) == k * (SLOTS / n) + if k < SLOTS % n then k else SLOTS % n
  {
    if k > 0 {
      TargetsSum(n, k - 1);
      assert Targets(n, k)[..k - 1] == Targets(n, k - 1);
      assert k * (SLOTS / n) == (k - 1) * (SLOTS / n) + SLOTS / n;
    }
  }

  /** The targets share out all the slots. */
  lemma TargetsAddUp(n: nat)
    requires n > 0
    ensures Sum(Targets(n, n)) == SLOTS
  {
    TargetsSum(n, n);
  }

  // ---------------------------------------------------------------------------
  // Counting.
  // ---------------------------------------------------------------------------

  function Change(counts: seq<int>, m: Move): seq<int>
    requires m.from < |counts| && m.dest < |counts|
  {
    var c := counts[m.from := counts[m.from] - 1];
    c[m.dest := c[m.dest] + 1]
  }

  predicate Among(moves: seq<Move>, n: nat) { forall i | 0 <= i < |moves| :: moves[i].from < n && moves[i].dest < n }

  function Changes(counts: seq<int>, moves: seq<Move>): (r: seq<int>)
    requires Among(moves, |counts|)
    ensures |r| == |counts|
  {
    if moves == [] then counts else Change(Changes(counts, moves[..|moves| - 1]), moves[|moves| - 1])
  }

  function Over(x: int, t: int): nat { if x > t then x - t else 0 }

  /** By how much the first k counts exceed the targets, where they do. */
  function SurplusTo(counts: seq<int>, targets: seq<nat>, k: nat): nat
    requires |counts| == |targets| && k <= |counts|
  {
    if k == 0 then 0 else SurplusTo(counts, targets, k - 1) + Over(counts[k - 1], targets[k - 1])
  }

  function Surplus(counts: seq<int>, targets: seq<nat>): nat
    requires |counts| == |targets|
  {
    SurplusTo(counts, targets, |counts|)
  }

  lemma {:induction false} SurplusOne(counts: seq<int>, targets: seq<nat>, i: nat, v: int, k: nat)
    requires |counts| == |targets| && i < |counts| && k <= |counts|
    ensures SurplusTo(counts[i := v], targets, k)
      == SurplusTo(counts, targets, k) + if i < k then Over(v, targets[i]) - Over(counts[i], targets[i]) else 0
  {
    if k > 0 { SurplusOne(counts, targets, i, v, k - 1); }
  }

  /** One move lowers the surplus by at most one. */
  lemma SurplusStep(counts: seq<int>, targets: seq<nat>, m: Move)
    requires |counts| == |targets| && m.from < |counts| && m.dest < |counts|
    ensures Surplus(counts, targets) <= Surplus(Change(counts, m), targets) + 1
  {
    var c := counts[m.from := counts[m.from] - 1];
    SurplusOne(counts, targets, m.from, counts[m.from] - 1, |counts|);
    SurplusOne(c, targets, m.dest, c[m.dest] + 1, |counts|);
  }

  lemma {:induction false} SurplusRun(counts: seq<int>, targets: seq<nat>, moves: seq<Move>)
    requires |counts| == |targets| && Among(moves, |counts|)
    ensures Surplus(counts, targets) <= Surplus(Changes(counts, moves), targets) + |moves|
    decreases |moves|
  {
    if moves != [] {
      var front := moves[..|moves| - 1];
      SurplusRun(counts, targets, front);
      SurplusStep(Changes(counts, front), targets, moves[|moves| - 1]);
    }
  }

  lemma {:induction false} NoSurplus(targets: seq<nat>, k: nat)
    requires k <= |targets|
    ensures SurplusTo(targets, targets, k) == 0
  {
    if k > 0 { NoSurplus(targets, k - 1); }
  }

  /** Whatever plan reaches the targets has at least as many moves as there is surplus. */
  lemma AnyPlanNeeds(counts: seq<int>, targets: seq<nat>, moves: seq<Move>)
    requires |counts| == |targets| && Among(moves, |counts|) && Changes(counts, moves) == targets
    ensures Surplus(counts, targets) <= |moves|
  {
    SurplusRun(counts, targets, moves);
    NoSurplus(targets, |targets|);
  }

  // ---------------------------------------------------------------------------
  // The plan: the surplus slots, paired with the places that are short.
  // ---------------------------------------------------------------------------

  /** The slots that a master has too many, from the end of its list. */
  function ExcessAt(lists: seq<seq<nat>>, i: nat): (r: seq<(nat, nat)>)
    requires i < |lists|
    ensures |r| == Over(|lists[i]|, Target(|lists|, i))
  {
    var t := Target(|lists|, i);
    seq(Over(|lists[i]|, t), j requires 0 <= j < Over(|lists[i]|, t) => (lists[i][t + j], i))
  }

  /** The same for the first k masters. */
  function Excess(lists: seq<seq<nat>>, k: nat): seq<(nat, nat)>
    requires k <= |lists|
  {
    if k == 0 then [] else Excess(lists, k - 1) + ExcessAt(lists, k - 1)
  }

  function NeedAt(lists: seq<seq<nat>>, i: nat): (r: seq<nat>)
    requires i < |lists|
    ensures |r| == Over(Target(|lists|, i), |lists[i]|)
  {
    seq(Over(Target(|lists|, i), |lists[i]|), _ => i)
  }

  function Needs(lists: seq<seq<nat>>, k: nat): seq<nat>
    requires k <= |lists|
  {
    if k == 0 then [] else Needs(lists, k - 1) + NeedAt(lists, k - 1)
  }

  function Paired(surplus: seq<(nat, nat)>, needs: seq<nat>, c: nat): (r: seq<Move>)
    requires c <= |surplus| && c <= |needs|
    ensures |r| == c
  {
    seq(c, i requires 0 <= i < c => Move(surplus[i].0, surplus[i].1, needs[i]))
  }

  function Least(a: nat, b: nat): nat { if a < b then a else b }

  function Plan(lists: seq<seq<nat>>): seq<Move> {
    var surplus, needs := Excess(lists, |lists|), Needs(lists, |lists|);
    Paired(surplus, needs, Least(|surplus|, |needs|))
  }

  /** How often i occurs. */
  function Count(s: seq<nat>, i: nat): nat {
    if s == [] then 0 else Count(s[..|s| - 1], i) + if s[|s| - 1] == i then 1 else 0
  }

  lemma {:induction false} CountAppend(s: seq<nat>, t: seq<nat>, i: nat)
    ensures Count(s + t, i) == Count(s, i) + Count(t, i)
    decreases |t|
  {
    if t == [] {
      assert s + t == s;
    } else {
      assert (s + t)[..|s + t| - 1] == s + t[..|t| - 1];
      CountAppend(s, t[..|t| - 1], i);
    }
  }

  lemma {:induction false} CountSame(s: seq<nat>, x: nat, i: nat)
    requires forall j | 0 <= j < |s| :: s[j] == x
    ensures Count(s, i) == if x == i then |s| else 0
  {
    if s != [] { CountSame(s[..|s| - 1], x, i); }
  }

  function Donors(surplus: seq<(nat, nat)>): (r: seq<nat>)
    ensures |r| == |surplus|
  {
    seq(|surplus|, i requires 0 <= i < |surplus| => surplus[i].1)
  }

  lemma {:induction false} ExcessCounts(lists: seq<seq<nat>>, k: nat, i: nat)
    requires k <= |lists| && i < |lists|
    ensures Count(Donors(Excess(lists, k)), i) == if i < k then Over(|lists[i]|, Target(|lists|, i)) else 0
  {
    if k > 0 {
      ExcessCounts(lists, k - 1, i);
      DonorsAppend(Excess(lists, k - 1), ExcessAt(lists, k - 1));
      CountAppend(Donors(Excess(lists, k - 1)), Donors(ExcessAt(lists, k - 1)), i);
      CountSame(Donors(ExcessAt(lists, k - 1)), k - 1, i);
    }
  }

  lemma DonorsAppend(a: seq<(nat, nat)>, b: seq<(nat, nat)>)
    ensures Donors(a + b) == Donors(a) + Donors(b)
  {
  }

  lemma {:induction false} DonorsAmong(lists: seq<seq<nat>>, k: nat)
    requires k <= |lists|
    ensures forall j | 0 <= j < |Excess(lists, k)| :: Excess(lists, k)[j].1 < k
  {
    if k > 0 { DonorsAmong(lists, k - 1); }
  }

  lemma {:induction false} NeedCounts(lists: seq<seq<nat>>, k: nat, i: nat)
    requires k <= |lists| && i < |lists|
    ensures Count(Needs(lists, k), i) == if i < k then Over(Target(|lists|, i), |lists[i]|) else 0
  {
    if k > 0 {
      NeedCounts(lists, k - 1, i);
      CountAppend(Needs(lists, k - 1), NeedAt(lists, k - 1), i);
      CountSame(NeedAt(lists, k - 1), k - 1, i);
    }
  }

  lemma {:induction false} ReceiversAmong(lists: seq<seq<nat>>, k: nat)
    requires k <= |lists|
    ensures forall j | 0 <= j < |Needs(lists, k)| :: Needs(lists, k)[j] < k
  {
    if k > 0 { ReceiversAmong(lists, k - 1); }
  }

  function Sizes(lists: seq<seq<nat>>, k: nat): (r: seq<nat>)
    requires k <= |lists|
    ensures |r| == k
  {
    seq(k, i requires 0 <= i < k => |lists[i]|)
  }

  lemma {:induction false} ExcessSize(lists: seq<seq<nat>>, counts: seq<int>, targets: seq<nat>, k: nat)
    requires k <= |lists| == |counts| == |targets|
    requires forall i | 0 <= i < |lists| :: counts[i] == |lists[i]| && targets[i] == Target(|lists|, i)
    ensures |Excess(lists, k)| == SurplusTo(counts, targets, k)
  {
    if k > 0 { ExcessSize(lists, counts, targets, k - 1); }
  }

  lemma ExcessIsSurplus(lists: seq<seq<nat>>, k: nat)
    requires k <= |lists| && lists != []
    ensures |Excess(lists, k)| == SurplusTo(Sizes(lists, |lists|), Targets(|lists|, |lists|), k)
  {
    ExcessSize(lists, Sizes(lists, |lists|), Targets(|lists|, |lists|), k);
  }

  /** What is too much here and short there differs as the totals do. */
  lemma {:induction false} Balance(lists: seq<seq<nat>>, k: nat)
    requires k <= |lists| && |lists| > 0
    ensures |Excess(lists, k)| + Sum(Targets(|lists|, k)) == |Needs(lists, k)| + Sum(Sizes(lists, k))
  {
    if k > 0 {
      Balance(lists, k - 1);
      assert Sizes(lists, k)[..k - 1] == Sizes(lists, k - 1) && Targets(|lists|, k)[..k - 1] == Targets(|lists|, k - 1);
    }
  }

  lemma PlanAmong(lists: seq<seq<nat>>)
    requires lists != []
    ensures Among(Plan(lists), |lists|)
  {
    DonorsAmong(lists, |lists|);
    ReceiversAmong(lists, |lists|);
  }

  /** The counts after the first c moves. */
  lemma {:induction false} PairedChanges(counts: seq<int>, surplus: seq<(nat, nat)>, needs: seq<nat>, c: nat, i: nat)
    requires c <= |surplus| && c <= |needs| && i < |counts| && Among(Paired(surplus, needs, c), |counts|)
    ensures Changes(counts, Paired(surplus, needs, c))[i] ==
      counts[i] - Count(Donors(surplus)[..c], i) + Count(needs[..c], i)
  {
    if c > 0 {
      var front := Paired(surplus, needs, c - 1);
      assert Paired(surplus, needs, c)[..c - 1] == front;
      assert forall j | 0 <= j < c - 1 :: front[j] == Paired(surplus, needs, c)[j];
      PairedChanges(counts, surplus, needs, c - 1, i);
      assert Donors(surplus)[..c][..c - 1] == Donors(surplus)[..c - 1] && needs[..c][..c - 1] == needs[..c - 1];
    }
  }

  /** When the lists hold as many slots as there are, every master ends at its target. */
  lemma PlanReachesTargets(lists: seq<seq<nat>>)
    requires lists != [] && Sum(Sizes(lists, |lists|)) == SLOTS
    ensures Among(Plan(lists), |lists|) && Changes(Sizes(lists, |lists|), Plan(lists)) == Targets(|lists|, |lists|)
    ensures |Plan(lists)| == Surplus(Sizes(lists, |lists|), Targets(|lists|, |lists|))
  {
    var n := |lists|;
    var surplus, needs, counts := Excess(lists, n), Needs(lists, n), Sizes(lists, n);
    PlanAmong(lists);
    TargetsAddUp(n);
    Balance(lists, n);
    ExcessIsSurplus(lists, n);
    forall i | 0 <= i < n ensures Changes(counts, Plan(lists))[i] == Target(n, i) {
      PairedChanges(counts, surplus, needs, |surplus|, i);
      ExcessCounts(lists, n, i);
      NeedCounts(lists, n, i);
      assert Donors(surplus)[..|surplus|] == Donors(surplus) && needs[..|needs|] == needs;
    }
  }

  /** No plan that reaches the targets has fewer moves. */
  lemma PlanIsShortest(lists: seq<seq<nat>>, moves: seq<Move>)
    requires lists != [] && Sum(Sizes(lists, |lists|)) == SLOTS && Among(moves, |lists|)
    requires Changes(Sizes(lists, |lists|), moves) == Targets(|lists|, |lists|)
    ensures |Plan(lists)| <= |moves|
  {
    PlanReachesTargets(lists);
    AnyPlanNeeds(Sizes(lists, |lists|), Targets(|lists|, |lists|), moves);
  }

  // ---------------------------------------------------------------------------
  // Slots and their owners.
  // ---------------------------------------------------------------------------

  /** The first k lists, one after the other. */
  function Flat(lists: seq<seq<nat>>, k: nat): seq<nat>
    requires k <= |lists|
  {
    if k == 0 then [] else Flat(lists, k - 1) + lists[k - 1]
  }

  ghost predicate NoDup(s: seq<nat>) { forall i, j | 0 <= i < j < |s| :: s[i] != s[j] }

  /** Every slot is in exactly one list, once. */
  ghost predicate Partition(lists: seq<seq<nat>>) {
    var flat := Flat(lists, |lists|);
    NoDup(flat) && forall x: nat :: x in flat <==> x < SLOTS
  }

  function Elements(s: seq<nat>): set<nat> { set x | x in s }

  lemma {:induction false} NoDupCard(s: seq<nat>)
    requires NoDup(s)
    ensures |Elements(s)| == |s|
  {
    if s != [] {
      var front, last := s[..|s| - 1], s[|s| - 1];
      NoDupCard(front);
      assert s == front + [last];
      assert Elements(s) == Elements(front) + {last};
    }
  }

  /** All slots, in order. */
  function AllSlots(): (r: seq<nat>)
    ensures |r| == SLOTS
  {
    seq(SLOTS, i requires 0 <= i < SLOTS => i)
  }

  lemma AllSlotsOnce()
    ensures NoDup(AllSlots()) && forall x: nat :: x in AllSlots() <==> x < SLOTS
  {
    forall x: nat | x < SLOTS ensures x in AllSlots() { assert AllSlots()[x] == x; }
  }

  lemma {:induction false} FlatSize(lists: seq<seq<nat>>, k: nat)
    requires k <= |lists|
    ensures |Flat(lists, k)| == Sum(Sizes(lists, k))
  {
    if k > 0 {
      FlatSize(lists, k - 1);
      assert Sizes(lists, k)[..k - 1] == Sizes(lists, k - 1);
    }
  }

  lemma PartitionTotal(lists: seq<seq<nat>>)
    requires Partition(lists)
    ensures Sum(Sizes(lists, |lists|)) == SLOTS
  {
    var flat := Flat(lists, |lists|);
    FlatSize(lists, |lists|);
    NoDupCard(flat);
    AllSlotsOnce();
    NoDupCard(AllSlots());
    assert Elements(flat) == Elements(AllSlots());
  }

  /** Each list on its own has no slot twice, and shares none with the lists before it. */
  lemma {:induction false} FlatParts(lists: seq<seq<nat>>, k: nat, i: nat)
    requires i < k <= |lists| && NoDup(Flat(lists, k))
    ensures NoDup(Flat(lists, i)) && NoDup(lists[i])
    ensures forall x | x in lists[i] :: x in Flat(lists, k) && x !in Flat(lists, i)
  {
    var front, last := Flat(lists, k - 1), lists[k - 1];
    assert forall a | 0 <= a < |front| :: (front + last)[a] == front[a];
    assert forall b | 0 <= b < |last| :: (front + last)[|front| + b] == last[b];
    if i < k - 1 { FlatParts(lists, k - 1, i); }
  }

  function SlotsOf(surplus: seq<(nat, nat)>): (r: seq<nat>)
    ensures |r| == |surplus|
  {
    seq(|surplus|, i requires 0 <= i < |surplus| => surplus[i].0)
  }

  /** The surplus slots belong to their donors, and none is listed twice. */
  lemma {:induction false} ExcessSlots(lists: seq<seq<nat>>, k: nat)
    requires k <= |lists| && NoDup(Flat(lists, k))
    ensures NoDup(SlotsOf(Excess(lists, k)))
    ensures forall j | 0 <= j < |Excess(lists, k)| ::
      var (s, d) := Excess(lists, k)[j]; d < k && s in lists[d] && s in Flat(lists, k)
  {
    if k > 0 {
      FlatParts(lists, k, k - 1);
      ExcessSlots(lists, k - 1);
      var a, b := Excess(lists, k - 1), ExcessAt(lists, k - 1);
      var t := Target(|lists|, k - 1);
      assert forall j | 0 <= j < |b| :: b[j].0 == lists[k - 1][t + j] && b[j].0 in lists[k - 1];
      forall i, j | 0 <= i < j < |a + b| ensures SlotsOf(a + b)[i] != SlotsOf(a + b)[j] {
        if j < |a| {
          assert SlotsOf(a)[i] != SlotsOf(a)[j];
        } else if i < |a| {
          assert a[i].0 in Flat(lists, k - 1) && b[j - |a|].0 !in Flat(lists, k - 1);
        }
      }
    }
  }

  /** For every slot, the place of its owner. */
  type Owners = map<nat, nat>

  ghost predicate Owned(owners: Owners, lists: seq<seq<nat>>) {
    && (forall x: nat :: x in owners <==> x < SLOTS)
    && forall x | x in owners :: owners[x] < |lists| && x in lists[owners[x]]
  }

  /** What belongs to node i. */
  function Holding(owners: Owners, i: nat): set<nat> { set x | x in owners && owners[x] == i }

  function After(owners: Owners, moves: seq<Move>, k: nat): Owners
    requires k <= |moves|
  {
    if k == 0 then owners else After(owners, moves, k - 1)[moves[k - 1].slot := moves[k - 1].dest]
  }

  ghost predicate LegalAt(owners: Owners, moves: seq<Move>, k: nat)
    requires k < |moves|
  {
    moves[k].slot in After(owners, moves, k) && After(owners, moves, k)[moves[k].slot] == moves[k].from
  }

  /** Every move takes a slot from the node that owns it at that moment. */
  ghost predicate Legal(owners: Owners, moves: seq<Move>) {
    forall k {:trigger LegalAt(owners, moves, k)} | 0 <= k < |moves| :: LegalAt(owners, moves, k)
  }

  /** A slot that has not moved yet is where it was. */
  lemma {:induction false} NotMovedYet(owners: Owners, moves: seq<Move>, k: nat, x: nat)
    requires k <= |moves| && x in owners && forall j | 0 <= j < k :: moves[j].slot != x
    ensures x in After(owners, moves, k) && After(owners, moves, k)[x] == owners[x]
  {
    if k > 0 { NotMovedYet(owners, moves, k - 1, x); }
  }

  /** A slot in somebody's list is in nobody else's. */
  lemma {:induction false} OneList(lists: seq<seq<nat>>, k: nat, i: nat, j: nat, x: nat)
    requires i < k <= |lists| && j < k && NoDup(Flat(lists, k)) && x in lists[i] && x in lists[j]
    ensures i == j
  {
    if i < j {
      FlatParts(lists, k, j);
      InFlat(lists, j, i, x);
      assert false;
    } else if j < i {
      FlatParts(lists, k, i);
      InFlat(lists, i, j, x);
      assert false;
    }
  }

  lemma {:induction false} InFlat(lists: seq<seq<nat>>, k: nat, i: nat, x: nat)
    requires i < k <= |lists| && x in lists[i]
    ensures x in Flat(lists, k)
  {
    if i < k - 1 { InFlat(lists, k - 1, i, x); }
  }

  /** The plan moves each slot at most once, and from its owner. */
  lemma PlanIsLegal(lists: seq<seq<nat>>, owners: Owners)
    requires lists != [] && Partition(lists) && Owned(owners, lists)
    ensures Legal(owners, Plan(lists))
    ensures forall i, j | 0 <= i < j < |Plan(lists)| :: Plan(lists)[i].slot != Plan(lists)[j].slot
  {
    var surplus, moves := Excess(lists, |lists|), Plan(lists);
    ExcessSlots(lists, |lists|);
    assert forall i | 0 <= i < |moves| :: moves[i].slot == SlotsOf(surplus)[i] && moves[i].from == surplus[i].1;
    forall k | 0 <= k < |moves| ensures LegalAt(owners, moves, k) {
      var (x, d) := surplus[k];
      assert x in Flat(lists, |lists|);
      OneList(lists, |lists|, d, owners[x], x);
      NotMovedYet(owners, moves, k, x);
    }
  }

  /** One legal move carries one slot from one holding to the other. */
  lemma HoldingMoves(owners: Owners, m: Move, i: nat)
    requires m.slot in owners && owners[m.slot] == m.from
    ensures |Holding(owners[m.slot := m.dest], i)|
      == |Holding(owners, i)| - (if i == m.from then 1 else 0) + (if i == m.dest then 1 else 0)
  {
    var owners' := owners[m.slot := m.dest];
    assert m.slot in Holding(owners, i) <==> i == m.from;
    if i == m.dest {
      assert Holding(owners', i) == (Holding(owners, i) - {m.slot}) + {m.slot};
    } else {
      assert Holding(owners', i) == Holding(owners, i) - {m.slot};
    }
  }

  lemma {:induction false} HoldingsFollowCounts(owners: Owners, counts: seq<int>, moves: seq<Move>, k: nat, i: nat)
    requires k <= |moves| && Legal(owners, moves) && Among(moves, |counts|) && i < |counts|
    requires |Holding(owners, i)| == counts[i]
    ensures |Holding(After(owners, moves, k), i)| == Changes(counts, moves[..k])[i]
  {
    if k > 0 {
      HoldingsFollowCounts(owners, counts, moves, k - 1, i);
      assert moves[..k][..k - 1] == moves[..k - 1] && LegalAt(owners, moves, k - 1);
      HoldingMoves(After(owners, moves, k - 1), moves[k - 1], i);
    }
  }

  lemma HoldingIsList(lists: seq<seq<nat>>, owners: Owners, i: nat)
    requires Partition(lists) && Owned(owners, lists) && i < |lists|
    ensures |Holding(owners, i)| == |lists[i]|
  {
    FlatParts(lists, |lists|, i);
    NoDupCard(lists[i]);
    forall x | x in lists[i] ensures x in owners && owners[x] == i {
      assert x in Flat(lists, |lists|);
      OneList(lists, |lists|, i, owners[x], x);
    }
    assert Holding(owners, i) == Elements(lists[i]);
  }

  /**
   Carrying out the plan leaves every slot with exactly one owner and every master with its
   target, and no plan that does so has fewer moves.
   */
  lemma PlanBalances(lists: seq<seq<nat>>, owners: Owners, i: nat)
    requires Partition(lists) && Owned(owners, lists) && i < |lists|
    ensures var end := After(owners, Plan(lists), |Plan(lists)|);
      && (forall x: nat :: x in end <==> x < SLOTS)
      && |Holding(end, i)| == Target(|lists|, i)
  {
    var moves := Plan(lists);
    PartitionTotal(lists);
    PlanReachesTargets(lists);
    PlanIsLegal(lists, owners);
    HoldingIsList(lists, owners, i);
    HoldingsFollowCounts(owners, Sizes(lists, |lists|), moves, |moves|, i);
    assert moves[..|moves|] == moves;
    KeysStay(owners, moves, |moves|);
  }

  lemma {:induction false} KeysStay(owners: Owners, moves: seq<Move>, k: nat)
    requires k <= |moves| && Legal(owners, moves)
    ensures After(owners, moves, k).Keys == owners.Keys
  {
    if k > 0 {
      KeysStay(owners, moves, k - 1);
      assert LegalAt(owners, moves, k - 1);
    }
  }

  // ---------------------------------------------------------------------------
  // The greedy matching.
  // ---------------------------------------------------------------------------

  datatype Donor = Donor(node: nat, avail: seq<nat>)

  datatype Receiver = Receiver(node: nat, needed: nat)

  function Offer(d: Donor): (r: seq<(nat, nat)>)
    ensures |r| == |d.avail|
  {
    seq(|d.avail|, j requires 0 <= j < |d.avail| => (d.avail[j], d.node))
  }

  function Demand(r: Receiver): (s: seq<nat>)
    ensures |s| == r.needed
  {
    seq(r.needed, _ => r.node)
  }

  /** What the donors from d on still have. */
  function Offers(donors: seq<Donor>, d: nat): seq<(nat, nat)>
    requires d <= |donors|
    decreases |donors| - d
  {
    if d == |donors| then [] else Offer(donors[d]) + Offers(donors, d + 1)
  }

  function Demands(receivers: seq<Receiver>, r: nat): seq<nat>
    requires r <= |receivers|
    decreases |receivers| - r
  {
    if r == |receivers| then [] else Demand(receivers[r]) + Demands(receivers, r + 1)
  }

  lemma {:induction false} OffersGrow(donors: seq<Donor>, d: nat, x: Donor)
    requires d <= |donors|
    ensures Offers(donors + [x], d) == Offers(donors, d) + Offer(x)
    decreases |donors| - d
  {
    if d < |donors| {
      OffersGrow(donors, d + 1, x);
      Associates(Offer(donors[d]), Offers(donors, d + 1), Offer(x));
    } else {
      assert Offers(donors + [x], d + 1) == [] && Offer(x) + [] == [] + Offer(x);
    }
  }

  lemma {:induction false} DemandsGrow(receivers: seq<Receiver>, r: nat, x: Receiver)
    requires r <= |receivers|
    ensures Demands(receivers + [x], r) == Demands(receivers, r) + Demand(x)
    decreases |receivers| - r
  {
    if r < |receivers| {
      DemandsGrow(receivers, r + 1, x);
      Associates(Demand(receivers[r]), Demands(receivers, r + 1), Demand(x));
    } else {
      assert Demands(receivers + [x], r + 1) == [] && Demand(x) + [] == [] + Demand(x);
    }
  }

  /** Only what is at or behind d matters. */
  lemma {:induction false} OffersFrom(donors: seq<Donor>, other: seq<Donor>, d: nat)
    requires d <= |donors| == |other| && forall j | d <= j < |donors| :: donors[j] == other[j]
    ensures Offers(donors, d) == Offers(other, d)
    decreases |donors| - d
  {
    if d < |donors| { OffersFrom(donors, other, d + 1); }
  }

  /** Who has too much and who too little. */
  method Classify(lists: seq<seq<nat>>) returns (donors: seq<Donor>, receivers: seq<Receiver>)
    ensures Offers(donors, 0) == Excess(lists, |lists|) && Demands(receivers, 0) == Needs(lists, |lists|)
    ensures forall j | 0 <= j < |donors| :: donors[j].node < |lists|
    ensures forall j | 0 <= j < |receivers| :: receivers[j].node < |lists|
  {
    donors, receivers := [], [];
    for i := 0 to |lists|
      invariant OnSides(lists, i, donors, receivers)
    {
      var have, t := |lists[i]|, Target(|lists|, i);
      OnSidesNext(lists, i, donors, receivers);
      if have > t {
        donors := donors + [Donor(i, lists[i][t..])];
      } else if have < t {
        receivers := receivers + [Receiver(i, t - have)];
      }
    }
  }

  /** The first i masters are on their sides. */
  ghost predicate OnSides(lists: seq<seq<nat>>, i: nat, donors: seq<Donor>, receivers: seq<Receiver>) {
    && i <= |lists| && Offers(donors, 0) == Excess(lists, i) && Demands(receivers, 0) == Needs(lists, i)
    && (forall j | 0 <= j < |donors| :: donors[j].node < |lists|)
    && forall j | 0 <= j < |receivers| :: receivers[j].node < |lists|
  }

  lemma OnSidesNext(lists: seq<seq<nat>>, i: nat, donors: seq<Donor>, receivers: seq<Receiver>)
    requires i < |lists| && OnSides(lists, i, donors, receivers)
    ensures var have, t := |lists[i]|, Target(|lists|, i);
      if have > t then OnSides(lists, i + 1, donors + [Donor(i, lists[i][t..])], receivers)
      else if have < t then OnSides(lists, i + 1, donors, receivers + [Receiver(i, t - have)])
      else OnSides(lists, i + 1, donors, receivers)
  {
    var have, t := |lists[i]|, Target(|lists|, i);
    Side(lists, i);
    if have > t { OffersGrow(donors, 0, Donor(i, lists[i][t..])); }
    if have < t { DemandsGrow(receivers, 0, Receiver(i, t - have)); }
  }

  /** A master is on one side or on neither. */
  lemma Side(lists: seq<seq<nat>>, i: nat)
    requires i < |lists|
    ensures var t := Target(|lists|, i);
      && Excess(lists, i + 1) == (if |lists[i]| > t then Excess(lists, i) + Offer(Donor(i, lists[i][t..]))
        else Excess(lists, i))
      && Needs(lists, i + 1) == (if |lists[i]| < t then Needs(lists, i) + Demand(Receiver(i, t - |lists[i]|))
        else Needs(lists, i))
  {
    var t := Target(|lists|, i);
    if |lists[i]| > t { assert Offer(Donor(i, lists[i][t..])) == ExcessAt(lists, i); }
    if |lists[i]| < t { assert Demand(Receiver(i, t - |lists[i]|)) == NeedAt(lists, i); }
    assert Excess(lists, i) + [] == Excess(lists, i) && Needs(lists, i) + [] == Needs(lists, i);
  }

  function Taken(d: Donor, dest: nat, take: nat): (r: seq<Move>)
    requires take <= |d.avail|
    ensures |r| == take
  {
    seq(take, j requires 0 <= j < take => Move(d.avail[j], d.node, dest))
  }

  /** Taking from the first offer for the first demand is pairing on. */
  lemma TakeStep(surplus: seq<(nat, nat)>, needs: seq<nat>, c: nat, d: Donor, offers: seq<(nat, nat)>, r: Receiver,
                 demands: seq<nat>, take: nat)
    requires c <= |surplus| && c <= |needs| && take <= |d.avail| && take <= r.needed
    requires surplus[c..] == Offer(d) + offers && needs[c..] == Demand(r) + demands
    ensures c + take <= |surplus| && c + take <= |needs|
    ensures Paired(surplus, needs, c + take) == Paired(surplus, needs, c) + Taken(d, r.node, take)
    ensures surplus[c + take..] == Offer(d.(avail := d.avail[take..])) + offers
    ensures needs[c + take..] == Demand(r.(needed := r.needed - take)) + demands
  {
    assert |surplus[c..]| == |d.avail| + |offers| && |needs[c..]| == r.needed + |demands|;
    assert surplus[c + take..] == surplus[c..][take..] && needs[c + take..] == needs[c..][take..];
    forall j | 0 <= j < take ensures surplus[c + j] == (d.avail[j], d.node) && needs[c + j] == r.node {
      assert surplus[c + j] == surplus[c..][j] && needs[c + j] == needs[c..][j];
    }
  }

  lemma ChangesGrow(counts: seq<int>, moves: seq<Move>, m: Move)
    requires Among(moves, |counts|) && m.from < |counts| && m.dest < |counts|
    ensures Among(moves + [m], |counts|) && Changes(counts, moves + [m]) == Change(Changes(counts, moves), m)
  {
    assert (moves + [m])[..|moves|] == moves;
  }

  lemma TakenGrows(moves: seq<Move>, d: Donor, dest: nat, i: nat)
    requires i < |d.avail|
    ensures moves + Taken(d, dest, i) + [Move(d.avail[i], d.node, dest)] == moves + Taken(d, dest, i + 1)
  {
    assert Taken(d, dest, i + 1) == Taken(d, dest, i) + [Move(d.avail[i], d.node, dest)];
  }

  method AppendMoves(moves0: seq<Move>, counts0: seq<int>, ghost initial: seq<int>, d: Donor, dest: nat, take: nat)
    returns (moves: seq<Move>, counts: seq<int>)
    requires Among(moves0, |initial|) && counts0 == Changes(initial, moves0)
    requires take <= |d.avail| && d.node < |initial| && dest < |initial|
    ensures moves == moves0 + Taken(d, dest, take) && Among(moves, |initial|) && counts == Changes(initial, moves)
  {
    moves, counts := moves0, counts0;
    assert moves0 + Taken(d, dest, 0) == moves0;
    for i := 0 to take
      invariant moves == moves0 + Taken(d, dest, i) && Among(moves, |initial|) && counts == Changes(initial, moves)
    {
      var m := Move(d.avail[i], d.node, dest);
      ChangesGrow(initial, moves, m);
      TakenGrows(moves0, d, dest, i);
      moves, counts := moves + [m], Change(counts, m);
    }
  }

  /** The moves so far pair what has been offered with what was needed, and the donors from d on have the rest. */
  ghost predicate Underway(initial: seq<int>, surplus: seq<(nat, nat)>, needs: seq<nat>, donors: seq<Donor>, d: nat,
                           moves: seq<Move>, counts: seq<int>) {
    && d <= |donors| && (forall i | 0 <= i < |donors| :: donors[i].node < |initial|)
    && |moves| <= |surplus| && |moves| <= |needs| && moves == Paired(surplus, needs, |moves|)
    && Among(moves, |initial|) && counts == Changes(initial, moves)
    && Offers(donors, d) == surplus[|moves|..]
  }

  lemma SkipEmpty(donors: seq<Donor>, d: nat)
    requires d < |donors| && donors[d].avail == []
    ensures Offers(donors, d) == Offers(donors, d + 1)
  {
    assert Offer(donors[d]) == [];
    assert [] + Offers(donors, d + 1) == Offers(donors, d + 1);
  }

  /** One turn: a donor without slots is passed over, any other gives as much as is needed, or as it has. */
  method Donate(donors0: seq<Donor>, d0: nat, r: Receiver, moves0: seq<Move>, counts0: seq<int>,
                ghost initial: seq<int>, ghost surplus: seq<(nat, nat)>, ghost needs: seq<nat>, ghost demands: seq<nat>)
    returns (donors: seq<Donor>, d: nat, take: nat, moves: seq<Move>, counts: seq<int>)
    requires Underway(initial, surplus, needs, donors0, d0, moves0, counts0) && r.node < |initial|
    requires d0 < |donors0| && r.needed > 0 && needs[|moves0|..] == Demand(r) + demands
    ensures |donors| == |donors0| && (if take > 0 then d0 <= d && take <= r.needed else d == d0 + 1)
    ensures Underway(initial, surplus, needs, donors, d, moves, counts)
    ensures needs[|moves|..] == Demand(r.(needed := r.needed - take)) + demands
  {
    var donor := donors0[d0];
    if donor.avail == [] {
      SkipEmpty(donors0, d0);
      return donors0, d0 + 1, 0, moves0, counts0;
    }
    take := Least(r.needed, |donor.avail|);
    TakeStep(surplus, needs, |moves0|, donor, Offers(donors0, d0 + 1), r, demands, take);
    moves, counts := AppendMoves(moves0, counts0, initial, donor, r.node, take);
    var left := donor.(avail := donor.avail[take..]);
    donors, d := donors0[d0 := left], d0;
    assert |moves| == |moves0| + take;
    LeftUnderway(initial, surplus, needs, donors0, d0, left, moves, counts);
    if left.avail == [] {
      d := d + 1;
    }
  }

  /** What a donor has left is offered next. */
  lemma LeftUnderway(initial: seq<int>, surplus: seq<(nat, nat)>, needs: seq<nat>, donors: seq<Donor>, d: nat,
                     left: Donor, moves: seq<Move>, counts: seq<int>)
    requires d < |donors| && left.node < |initial| && forall i | 0 <= i < |donors| :: donors[i].node < |initial|
    requires |moves| <= |surplus| && |moves| <= |needs| && moves == Paired(surplus, needs, |moves|)
    requires Among(moves, |initial|) && counts == Changes(initial, moves)
    requires surplus[|moves|..] == Offer(left) + Offers(donors, d + 1)
    ensures Underway(initial, surplus, needs, donors[d := left], d, moves, counts)
    ensures left.avail == [] ==> Underway(initial, surplus, needs, donors[d := left], d + 1, moves, counts)
  {
    OffersFrom(donors, donors[d := left], d + 1);
    if left.avail == [] { SkipEmpty(donors[d := left], d); }
  }

  /** The loop for one receiver: until it has enough or nobody has any left. */
  method Serve(donors0: seq<Donor>, d0: nat, rec: Receiver, moves0: seq<Move>, counts0: seq<int>,
               ghost initial: seq<int>, ghost surplus: seq<(nat, nat)>, ghost needs: seq<nat>, ghost demands: seq<nat>)
    returns (donors: seq<Donor>, d: nat, moves: seq<Move>, counts: seq<int>)
    requires Underway(initial, surplus, needs, donors0, d0, moves0, counts0) && rec.node < |initial|
    requires d0 == |donors0| || needs[|moves0|..] == Demand(rec) + demands
    ensures |donors| == |donors0| && Underway(initial, surplus, needs, donors, d, moves, counts)
    ensures d == |donors| || needs[|moves|..] == demands
  {
    donors, d, moves, counts := donors0, d0, moves0, counts0;
    var r := rec;
    while r.needed > 0 && d < |donors|
      invariant |donors| == |donors0| && Underway(initial, surplus, needs, donors, d, moves, counts)
      invariant r.node == rec.node
      invariant d == |donors| || needs[|moves|..] == Demand(r) + demands
      decreases |donors| - d, r.needed
    {
      var take;
      donors, d, take, moves, counts := Donate(donors, d, r, moves, counts, initial, surplus, needs, demands);
      r := r.(needed := r.needed - take);
    }
    assert r.needed == 0 ==> Demand(r) + demands == demands;
  }

  /** The receivers are served in order, each from the first donor that has slots left. */
  method Match(donors0: seq<Donor>, receivers: seq<Receiver>, initial: seq<int>)
    returns (moves: seq<Move>, counts: seq<int>)
    requires forall i | 0 <= i < |donors0| :: donors0[i].node < |initial|
    requires forall i | 0 <= i < |receivers| :: receivers[i].node < |initial|
    ensures var surplus, needs := Offers(donors0, 0), Demands(receivers, 0);
      moves == Paired(surplus, needs, Least(|surplus|, |needs|))
    ensures Among(moves, |initial|) && counts == Changes(initial, moves)
  {
    ghost var surplus, needs := Offers(donors0, 0), Demands(receivers, 0);
    var donors: seq<Donor>, d: nat := donors0, 0;
    moves, counts := [], initial;
    for i := 0 to |receivers|
      invariant |donors| == |donors0| && Underway(initial, surplus, needs, donors, d, moves, counts)
      invariant d == |donors| || needs[|moves|..] == Demands(receivers, i)
    {
      donors, d, moves, counts := Serve(donors, d, receivers[i], moves, counts, initial, surplus, needs,
        Demands(receivers, i + 1));
    }
    assert d == |donors| ==> surplus[|moves|..] == [];
    assert d < |donors| ==> needs[|moves|..] == [];
  }

  // ---------------------------------------------------------------------------
  // Masters by name.
  // ---------------------------------------------------------------------------

  datatype MasterInfo = MasterInfo(id: string, slots: seq<nat>)

  datatype SlotMove = SlotMove(slot: nat, fromNodeID: string, toNodeID: string)

  datatype RebalancePlan = RebalancePlan(moves: seq<SlotMove>, initialCounts: map<string, int>,
                                         finalCounts: map<string, int>)

  ghost predicate InOrder(masters: seq<MasterInfo>) {
    forall i, j | 0 <= i < j < |masters| :: Ordering.Less(masters[i].id, masters[j].id)
  }

  ghost predicate DistinctIds(masters: seq<MasterInfo>) {
    forall i, j | 0 <= i < j < |masters| :: masters[i].id != masters[j].id
  }

  function Insert(sorted: seq<MasterInfo>, m: MasterInfo): seq<MasterInfo> {
    if sorted == [] || Ordering.Less(m.id, sorted[0].id) then [m] + sorted else [sorted[0]] + Insert(sorted[1..], m)
  }

  lemma {:induction false} InsertAdds(sorted: seq<MasterInfo>, m: MasterInfo)
    ensures multiset(Insert(sorted, m)) == multiset(sorted) + multiset{m} && |Insert(sorted, m)| == |sorted| + 1
  {
    if sorted != [] && !Ordering.Less(m.id, sorted[0].id) {
      InsertAdds(sorted[1..], m);
      assert sorted == [sorted[0]] + sorted[1..];
    }
  }

  lemma FirstIsLeast(sorted: seq<MasterInfo>, m: MasterInfo)
    requires InOrder(sorted) && sorted != [] && Ordering.Less(m.id, sorted[0].id)
    ensures InOrder([m] + sorted)
  {
    forall j | 0 <= j < |sorted| ensures Ordering.Less(m.id, sorted[j].id) {
      if j > 0 { Ordering.LessTransitive(m.id, sorted[0].id, sorted[j].id); }
    }
  }

  lemma {:induction false} InsertInOrder(sorted: seq<MasterInfo>, m: MasterInfo)
    requires InOrder(sorted) && forall i | 0 <= i < |sorted| :: sorted[i].id != m.id
    ensures InOrder(Insert(sorted, m))
    ensures (sorted != [] && !Ordering.Less(m.id, sorted[0].id) ==> Insert(sorted, m)[0] == sorted[0])
  {
    if sorted != [] {
      Ordering.LessTotal(m.id, sorted[0].id);
      if Ordering.Less(m.id, sorted[0].id) {
        FirstIsLeast(sorted, m);
      } else {
        InsertInOrder(sorted[1..], m);
        var rest := Insert(sorted[1..], m);
        if sorted[1..] != [] {
          Ordering.LessTotal(m.id, sorted[1].id);
        }
        FirstIsLeast(rest, sorted[0]);
      }
    }
  }

  lemma StillNew(masters: seq<MasterInfo>, sorted: seq<MasterInfo>, i: nat)
    requires DistinctIds(masters) && i < |masters| && multiset(sorted) == multiset(masters[..i])
    ensures forall k | 0 <= k < |sorted| :: sorted[k].id != masters[i].id
  {
    forall k | 0 <= k < |sorted| ensures sorted[k].id != masters[i].id {
      assert sorted[k] in multiset(sorted);
      var j :| 0 <= j < |masters[..i]| && masters[..i][j] == sorted[k];
      assert masters[j] == sorted[k];
    }
  }

  /** `sort.Slice` by ID. */
  method SortById(masters: seq<MasterInfo>) returns (sorted: seq<MasterInfo>)
    requires DistinctIds(masters)
    ensures InOrder(sorted) && multiset(sorted) == multiset(masters) && |sorted| == |masters|
  {
    sorted := [];
    for i := 0 to |masters|
      invariant InOrder(sorted) && multiset(sorted) == multiset(masters[..i]) && |sorted| == i
    {
      StillNew(masters, sorted, i);
      InsertInOrder(sorted, masters[i]);
      InsertAdds(sorted, masters[i]);
      assert masters[..i + 1] == masters[..i] + [masters[i]];
      sorted := Insert(sorted, masters[i]);
    }
    assert masters[..|masters|] == masters;
  }

  function Lists(masters: seq<MasterInfo>): (r: seq<seq<nat>>)
    ensures |r| == |masters| && forall i | 0 <= i < |r| :: r[i] == masters[i].slots
  {
    seq(|masters|, i requires 0 <= i < |masters| => masters[i].slots)
  }

  function Named(moves: seq<Move>, order: seq<MasterInfo>): (r: seq<SlotMove>)
    requires Among(moves, |order|)
    ensures |r| == |moves|
  {
    seq(|moves|, i requires 0 <= i < |moves| =>
      SlotMove(moves[i].slot, order[moves[i].from].id, order[moves[i].dest].id))
  }

  // ---------------------------------------------------------------------------
  // What the named moves do.
  // ---------------------------------------------------------------------------

  /** Every slot is in the list of exactly one master, once. */
  ghost predicate Shares(masters: seq<MasterInfo>) {
    && (forall m | m in masters :: NoDup(m.slots) && forall x | x in m.slots :: x < SLOTS)
    && (forall x: nat | x < SLOTS :: Listed(masters, x))
    && forall m, n, x | m in masters && n in masters && x in m.slots && x in n.slots :: m == n
  }

  ghost predicate Listed(masters: seq<MasterInfo>, x: nat) { exists m :: m in masters && x in m.slots }

  /** For every slot the ID of the master in whose list it is. */
  ghost predicate HeldBy(holders: map<nat, string>, masters: seq<MasterInfo>) {
    && (forall x: nat :: x in holders <==> x < SLOTS)
    && forall m, x | m in masters && x in m.slots && x in holders :: holders[x] == m.id
  }

  /** The holders after the first k moves. */
  function Carried(holders: map<nat, string>, moves: seq<SlotMove>, k: nat): map<nat, string>
    requires k <= |moves|
  {
    if k == 0 then holders else Carried(holders, moves, k - 1)[moves[k - 1].slot := moves[k - 1].toNodeID]
  }

  function HeldUnder(holders: map<nat, string>, id: string): set<nat> { set x | x in holders && holders[x] == id }

  /** Every move takes a slot from the node that holds it, and at the end every node holds as many as is said. */
  ghost predicate CarriesOut(holders: map<nat, string>, moves: seq<SlotMove>, final: map<string, int>) {
    && (forall k | 0 <= k < |moves| :: TakesFromHolder(holders, moves, k))
    && forall id | id in final :: |HeldUnder(Carried(holders, moves, |moves|), id)| == final[id]
  }

  ghost predicate TakesFromHolder(holders: map<nat, string>, moves: seq<SlotMove>, k: nat)
    requires k < |moves|
  {
    var now := Carried(holders, moves, k);
    moves[k].slot in now && now[moves[k].slot] == moves[k].fromNodeID
  }

  lemma {:induction false} FlatMembers(lists: seq<seq<nat>>, k: nat, x: nat)
    requires k <= |lists|
    ensures x in Flat(lists, k) <==> exists i :: 0 <= i < k && x in lists[i]
  {
    if k > 0 { FlatMembers(lists, k - 1, x); }
  }

  lemma {:induction false} FlatNoDup(lists: seq<seq<nat>>, k: nat)
    requires k <= |lists| && forall i | 0 <= i < k :: NoDup(lists[i])
    requires forall i, j, x | 0 <= i < j < k && x in lists[i] :: x !in lists[j]
    ensures NoDup(Flat(lists, k))
  {
    if k > 0 {
      FlatNoDup(lists, k - 1);
      var front, last := Flat(lists, k - 1), lists[k - 1];
      forall x | x in front ensures x !in last { FlatMembers(lists, k - 1, x); }
      forall i, j | 0 <= i < j < |front + last| ensures (front + last)[i] != (front + last)[j] {
        if i < |front| <= j { assert front[i] in front; }
      }
    }
  }

  lemma SharesIsPartition(order: seq<MasterInfo>)
    requires InOrder(order) && Shares(order)
    ensures Partition(Lists(order))
  {
    var lists, n := Lists(order), |order|;
    forall i, j, x | 0 <= i < j < n && x in lists[i] ensures x !in lists[j] {
      IdsDiffer(order, i, j);
      assert order[i] in order && order[j] in order;
    }
    forall i | 0 <= i < n ensures NoDup(lists[i]) { assert order[i] in order; }
    FlatNoDup(lists, n);
    forall x: nat ensures x in Flat(lists, n) <==> x < SLOTS {
      FlatMembers(lists, n, x);
      if x < SLOTS {
        assert Listed(order, x);
        var m :| m in order && x in m.slots;
        var i :| 0 <= i < n && order[i] == m;
        assert x in lists[i];
      }
      if i :| 0 <= i < n && x in lists[i] { assert order[i] in order; }
    }
  }

  lemma IdsDiffer(order: seq<MasterInfo>, i: nat, j: nat)
    requires InOrder(order) && i < |order| && j < |order| && i != j
    ensures order[i].id != order[j].id
  {
    Ordering.LessIrreflexive(order[i].id);
  }

  /** The place of the master in whose list a slot is. */
  ghost function PlaceOf(order: seq<MasterInfo>, x: nat): (i: nat)
    requires Shares(order) && x < SLOTS
    ensures i < |order| && x in order[i].slots
  {
    assert Listed(order, x);
    var m :| m in order && x in m.slots;
    var i :| 0 <= i < |order| && order[i] == m;
    i
  }

  ghost function PlacesOf(order: seq<MasterInfo>): (owners: Owners)
    requires Shares(order)
    ensures Owned(owners, Lists(order))
  {
    map x: nat | x < SLOTS :: PlaceOf(order, x)
  }

  /** The same owners, by ID. */
  ghost predicate Called(order: seq<MasterInfo>, owners: Owners, holders: map<nat, string>) {
    && owners.Keys == holders.Keys
    && forall x | x in owners :: owners[x] < |order| && holders[x] == order[owners[x]].id
  }

  lemma {:induction false} CarriedIsAfter(order: seq<MasterInfo>, owners: Owners, holders: map<nat, string>,
                                          moves: seq<Move>, k: nat)
    requires Called(order, owners, holders) && Among(moves, |order|) && k <= |moves|
    ensures Called(order, After(owners, moves, k), Carried(holders, Named(moves, order), k))
  {
    if k > 0 { CarriedIsAfter(order, owners, holders, moves, k - 1); }
  }

  lemma CalledHolding(order: seq<MasterInfo>, owners: Owners, holders: map<nat, string>, i: nat)
    requires InOrder(order) && Called(order, owners, holders) && i < |order|
    ensures HeldUnder(holders, order[i].id) == Holding(owners, i)
  {
    forall x | x in owners ensures holders[x] == order[i].id <==> owners[x] == i {
      if owners[x] != i { IdsDiffer(order, owners[x], i); }
    }
  }

  /** The named plan takes every slot from its holder. */
  lemma NamedPlanIsLegal(order: seq<MasterInfo>, holders: map<nat, string>, owners: Owners)
    requires order != [] && Partition(Lists(order)) && Owned(owners, Lists(order)) && Called(order, owners, holders)
    requires Among(Plan(Lists(order)), |order|)
    ensures var moves := Named(Plan(Lists(order)), order);
      forall k | 0 <= k < |moves| :: TakesFromHolder(holders, moves, k)
  {
    var moves := Plan(Lists(order));
    PlanIsLegal(Lists(order), owners);
    forall k | 0 <= k < |moves| ensures TakesFromHolder(holders, Named(moves, order), k) {
      assert LegalAt(owners, moves, k);
      CarriedIsAfter(order, owners, holders, moves, k);
    }
  }

  /** And leaves every master with its target. */
  lemma NamedPlanBalances(order: seq<MasterInfo>, holders: map<nat, string>, owners: Owners, i: nat)
    requires InOrder(order) && Partition(Lists(order)) && Owned(owners, Lists(order)) && Called(order, owners, holders)
    requires Among(Plan(Lists(order)), |order|) && i < |order|
    ensures var moves := Named(Plan(Lists(order)), order);
      |HeldUnder(Carried(holders, moves, |moves|), order[i].id)| == Target(|order|, i)
  {
    var moves := Plan(Lists(order));
    PlanBalances(Lists(order), owners, i);
    CarriedIsAfter(order, owners, holders, moves, |moves|);
    CalledHolding(order, After(owners, moves, |moves|), Carried(holders, Named(moves, order), |moves|), i);
  }

  lemma HoldersAreCalled(order: seq<MasterInfo>, holders: map<nat, string>)
    requires Shares(order) && HeldBy(holders, order)
    ensures Called(order, PlacesOf(order), holders)
  {
    var owners := PlacesOf(order);
    forall x | x in owners ensures holders[x] == order[owners[x]].id { assert order[owners[x]] in order; }
  }

  lemma FinalIsTarget(order: seq<MasterInfo>, final: map<string, int>)
    requires order != [] && InOrder(order) && Shares(order) && Among(Plan(Lists(order)), |order|)
    requires Tallies(final, order, Changes(Sizes(Lists(order), |order|), Plan(Lists(order))))
    ensures forall i | 0 <= i < |order| :: final[order[i].id] == Target(|order|, i)
  {
    SharesIsPartition(order);
    PartitionTotal(Lists(order));
    PlanReachesTargets(Lists(order));
  }

  lemma NamedPlanCarriesOut(order: seq<MasterInfo>, holders: map<nat, string>, final: map<string, int>)
    requires order != [] && InOrder(order) && Shares(order) && HeldBy(holders, order) && OnlyIds(final, order)
    requires Among(Plan(Lists(order)), |order|)
    requires Tallies(final, order, Changes(Sizes(Lists(order), |order|), Plan(Lists(order))))
    ensures CarriesOut(holders, Named(Plan(Lists(order)), order), final)
  {
    var owners, moves := PlacesOf(order), Named(Plan(Lists(order)), order);
    SharesIsPartition(order);
    HoldersAreCalled(order, holders);
    NamedPlanIsLegal(order, holders, owners);
    FinalIsTarget(order, final);
    forall id | id in final ensures |HeldUnder(Carried(holders, moves, |moves|), id)| == final[id] {
      assert IsId(order, id);
      var i :| 0 <= i < |order| && order[i].id == id;
      NamedPlanBalances(order, holders, owners, i);
    }
  }

  /** The counts under the masters' IDs. */
  ghost predicate Tallies(m: map<string, int>, order: seq<MasterInfo>, counts: seq<int>) {
    |order| == |counts| && forall i | 0 <= i < |order| :: order[i].id in m && m[order[i].id] == counts[i]
  }

  /** And under no others. */
  ghost predicate OnlyIds(m: map<string, int>, order: seq<MasterInfo>) { forall id | id in m :: IsId(order, id) }

  ghost predicate IsId(order: seq<MasterInfo>, id: string) { exists i :: 0 <= i < |order| && order[i].id == id }

  method Tally(order: seq<MasterInfo>, counts: seq<int>) returns (m: map<string, int>)
    requires |order| == |counts| && InOrder(order)
    ensures Tallies(m, order, counts) && OnlyIds(m, order)
  {
    m := map[];
    for i := 0 to |order|
      invariant Tallies(m, order[..i], counts[..i]) && OnlyIds(m, order)
    {
      forall j | 0 <= j < i ensures order[j].id != order[i].id { Ordering.LessIrreflexive(order[i].id); }
      m := m[order[i].id := counts[i]];
      assert IsId(order, order[i].id);
      assert forall j | 0 <= j < i :: order[..i][j] == order[j] && counts[..i][j] == counts[j];
    }
    assert order[..|order|] == order && counts[..|counts|] == counts;
  }

  /** The plan for masters given in any order: the greedy one for the masters in ID order, with exact counts. */
  method ComputeRebalancePlan(masters: seq<MasterInfo>)
    returns (plan: Option<RebalancePlan>, ghost order: seq<MasterInfo>)
    requires DistinctIds(masters)
    ensures plan.Some? <==> |masters| >= 2
    ensures plan.Some? ==> InOrder(order) && multiset(order) == multiset(masters)
    ensures plan.Some? ==> Among(Plan(Lists(order)), |order|) && plan.value.moves == Named(Plan(Lists(order)), order)
    ensures plan.Some? ==> Tallies(plan.value.initialCounts, order, Sizes(Lists(order), |order|))
    ensures plan.Some? ==>
      Tallies(plan.value.finalCounts, order, Changes(Sizes(Lists(order), |order|), Plan(Lists(order))))
    ensures plan.Some? && Shares(masters) ==>
      && (forall holders: map<nat, string> | HeldBy(holders, masters) ::
            CarriesOut(holders, plan.value.moves, plan.value.finalCounts))
      && forall i | 0 <= i < |order| :: plan.value.finalCounts[order[i].id] == Target(|order|, i)
  {
    order := [];
    if |masters| < 2 { return None, []; }
    var sorted := SortById(masters);
    order := sorted;
    var lists := Lists(sorted);
    var sizes := Sizes(lists, |lists|);
    var initial := Tally(sorted, sizes);
    var moves, counts := PlanMoves(lists);
    var final := Tally(sorted, counts);
    plan := Some(RebalancePlan(Named(moves, sorted), initial, final));
    if Shares(masters) {
      SameMasters(masters, sorted);
      FinalIsTarget(sorted, final);
      forall holders: map<nat, string> | HeldBy(holders, masters)
        ensures CarriesOut(holders, plan.value.moves, plan.value.finalCounts)
      {
        NamedPlanCarriesOut(sorted, holders, final);
      }
    }
  }

  lemma SameMasters(masters: seq<MasterInfo>, order: seq<MasterInfo>)
    requires multiset(order) == multiset(masters) && InOrder(order) && Shares(masters)
    ensures Shares(order) && forall holders: map<nat, string> | HeldBy(holders, masters) :: HeldBy(holders, order)
  {
    forall m ensures m in order <==> m in masters {
      assert m in order <==> m in multiset(order);
      assert m in masters <==> m in multiset(masters);
    }
    forall x: nat | x < SLOTS ensures Listed(order, x) { assert Listed(masters, x); }
  }

  method PlanMoves(lists: seq<seq<nat>>) returns (moves: seq<Move>, counts: seq<int>)
    requires lists != []
    ensures moves == Plan(lists) && Among(moves, |lists|) && counts == Changes(Sizes(lists, |lists|), moves)
  {
    var donors, receivers := Classify(lists);
    moves, counts := Match(donors, receivers, Sizes(lists, |lists|));
  }

  // ---------------------------------------------------------------------------
  // A cluster that is laid out evenly from the start.
  // ---------------------------------------------------------------------------

  function RunFrom(start: nat, count: nat): (r: seq<nat>)
    ensures |r| == count
  {
    seq(count, j => start + j)
  }

  /** Consecutive runs of slots, as many per master as its target; no masters, no layout. */
  method PartitionSlots(mastersCount: int) returns (lists: Option<seq<seq<nat>>>)
    ensures lists.Some? <==> mastersCount > 0
    ensures lists.Some? ==> |lists.value| == mastersCount && Partition(lists.value)
    ensures lists.Some? ==> forall i | 0 <= i < mastersCount :: |lists.value[i]| == Target(mastersCount, i)
  {
    if mastersCount <= 0 { return None; }
    var result: seq<seq<nat>>, current: nat := [], 0;
    for i := 0 to mastersCount
      invariant |result| == i && (forall j | 0 <= j < i :: |result[j]| == Target(mastersCount, j))
      invariant current == Sum(Targets(mastersCount, i)) && Flat(result, i) == RunFrom(0, current)
    {
      var count := Target(mastersCount, i);
      var slots: seq<nat> := [];
      for j := 0 to count
        invariant slots == RunFrom(current, j)
      {
        slots := slots + [current + j];
      }
      FlatGrows(result, i, slots);
      assert Targets(mastersCount, i + 1)[..i] == Targets(mastersCount, i);
      assert RunFrom(0, current) + RunFrom(current, count) == RunFrom(0, current + count);
      result, current := result + [slots], current + count;
    }
    TargetsAddUp(mastersCount);
    AllSlotsOnce();
    assert RunFrom(0, SLOTS) == AllSlots();
    lists := Some(result);
  }

  lemma {:induction false} FlatGrows(lists: seq<seq<nat>>, k: nat, more: seq<nat>)
    requires k <= |lists|
    ensures Flat(lists + [more], k) == Flat(lists, k)
  {
    if k > 0 { FlatGrows(lists, k - 1, more); }
  }

  /** Such a layout needs no moves. */
  lemma EvenNeedsNoMoves(lists: seq<seq<nat>>)
    requires forall i | 0 <= i < |lists| :: |lists[i]| == Target(|lists|, i)
    ensures Plan(lists) == []
  {
    NothingExceeds(lists, |lists|);
  }

  lemma {:induction false} NothingExceeds(lists: seq<seq<nat>>, k: nat)
    requires k <= |lists| && forall i | 0 <= i < |lists| :: |lists[i]| == Target(|lists|, i)
    ensures Excess(lists, k) == []
  {
    if k > 0 {
      NothingExceeds(lists, k - 1);
      assert ExcessAt(lists, k - 1) == [];
    }
  }
}


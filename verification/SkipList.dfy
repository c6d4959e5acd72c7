/**
 The span-indexed skip list behind sorted sets.

 The concrete state is the linked structure of the source: nodes with a tower of
 (forward, span) pairs, a backward pointer, a tail pointer and a member-to-score
 dictionary.  The ghost field `nodes` lists the header followed by the bottom-level
 chain; `Valid()` ties every pointer and every span to positions in that list.
 */
module SkipLists {
  import opened Ordering

  const MAX_LEVEL := 32

  datatype ScoredMember = ScoredMember(member: string, score: real)

  /** The order of a sorted set: by score, then by member. */
  predicate Before(a: ScoredMember, b: ScoredMember) {
    a.score < b.score || (a.score == b.score && Less(a.member, b.member))
  }

  lemma BeforeIsStrictTotalOrder(a: ScoredMember, b: ScoredMember, c: ScoredMember)
    ensures !Before(a, a)
    ensures Before(a, b) && Before(b, c) ==> Before(a, c)
    ensures Before(a, b) || a == b || Before(b, a)
  {
    LessIrreflexive(a.member);
    LessTotal(a.member, b.member);
    if Less(a.member, b.member) && Less(b.member, c.member) {
      LessTransitive(a.member, b.member, c.member);
    }
  }

  ghost predicate StrictlySorted(es: seq<ScoredMember>) {
    forall p, q | 0 <= p < q < |es| :: Before(es[p], es[q])
  }

  datatype SkipListLevel = SkipListLevel(forward: SkipListNode?, span: int)

  class SkipListNode {
    const member: string
    const score: real
    var backward: SkipListNode?
    var level: seq<SkipListLevel>

    constructor (member: string, score: real, height: nat)
      ensures this.member == member && this.score == score
      ensures backward == null && level == seq(height, _ => SkipListLevel(null, 0))
    {
      this.member, this.score := member, score;
      backward := null;
      level := seq(height, _ => SkipListLevel(null, 0));
    }

    function Item(): ScoredMember { ScoredMember(member, score) }
  }

  // ---------------------------------------------------------------------------
  // Towers as plain sequences.  h[p] is the number of levels of the p-th node.
  // ---------------------------------------------------------------------------

  /** q is the first position after p whose tower is higher than level i, or the end. */
  ghost predicate Reaches(h: seq<int>, p: int, i: int, q: int) {
    && 0 <= p < q <= |h|
    && (q < |h| ==> h[q] > i)
    && forall r | p < r < q :: h[r] <= i
  }

  /** The link lv leaves position p on level i and lands where Reaches says. */
  ghost predicate Linked(nodes: seq<SkipListNode>, h: seq<int>, p: int, i: int, lv: SkipListLevel)
    requires |nodes| == |h|
  {
    if lv.forward == null then
      Reaches(h, p, i, |h|) && lv.span == |h| - 1 - p
    else
      0 <= p < p + lv.span < |h| && lv.forward == nodes[p + lv.span] && Reaches(h, p, i, p + lv.span)
  }

  /** The position a link lands on (the end of the list when it is nil). */
  ghost function Landing(h: seq<int>, p: int, lv: SkipListLevel): int {
    if lv.forward == null then |h| else p + lv.span
  }

  function InsertAt<T>(s: seq<T>, k: int, x: T): (r: seq<T>)
    requires 0 <= k <= |s|
    ensures |r| == |s| + 1
    ensures forall p | 0 <= p < |r| :: r[p] == if p < k then s[p] else if p == k then x else s[p - 1]
  {
    s[..k] + [x] + s[k..]
  }

  function RemoveAt<T>(s: seq<T>, k: int): (r: seq<T>)
    requires 0 <= k < |s|
    ensures |r| == |s| - 1
    ensures forall p | 0 <= p < |r| :: r[p] == if p < k then s[p] else s[p + 1]
  {
    s[..k] + s[k + 1..]
  }

  lemma RemoveWithin<T>(s: seq<T>, k: int)
    requires 0 <= k < |s|
    ensures forall p | 0 <= p < |RemoveAt(s, k)| :: RemoveAt(s, k)[p] in s
  {
  }

  lemma InsertWithin<T>(s: seq<T>, k: int, x: T)
    requires 0 <= k <= |s|
    ensures x in InsertAt(s, k, x)
    ensures forall p | 0 <= p < |InsertAt(s, k, x)| :: InsertAt(s, k, x)[p] in s || InsertAt(s, k, x)[p] == x
  {
    assert InsertAt(s, k, x)[k] == x;
  }

  ghost predicate Distinct<T>(s: seq<T>) {
    forall p, q | 0 <= p < q < |s| :: s[p] != s[q]
  }

  lemma InsertKeepsDistinct<T>(s: seq<T>, k: int, x: T)
    requires 0 <= k <= |s| && Distinct(s) && x !in s
    ensures Distinct(InsertAt(s, k, x))
  {
  }

  // How each kind of link changes when a tower of height t is inserted at position k.

  /** A link that stops before k, or starts at k or later, keeps its span. */
  lemma InsertKeepsLink(nodes: seq<SkipListNode>, h: seq<int>, k: int, n: SkipListNode, t: int,
                        p: int, i: int, lv: SkipListLevel)
    requires |nodes| == |h| && 0 <= k <= |h| && Linked(nodes, h, p, i, lv)
    requires p >= k || Landing(h, p, lv) < k
    ensures Linked(InsertAt(nodes, k, n), InsertAt(h, k, t), if p < k then p else p + 1, i, lv)
  {
  }

  /** A link that passes over k on a level the new tower does not reach grows by one. */
  lemma InsertStretchesLink(nodes: seq<SkipListNode>, h: seq<int>, k: int, n: SkipListNode, t: int,
                            p: int, i: int, lv: SkipListLevel)
    requires |nodes| == |h| && 0 <= k <= |h| && Linked(nodes, h, p, i, lv)
    requires p < k <= Landing(h, p, lv) && t <= i
    ensures Linked(InsertAt(nodes, k, n), InsertAt(h, k, t), p, i, lv.(span := lv.span + 1))
  {
  }

  /** A link that passes over k on a level of the new tower is split in two. */
  lemma InsertSplitsLink(nodes: seq<SkipListNode>, h: seq<int>, k: int, n: SkipListNode, t: int,
                         p: int, i: int, lv: SkipListLevel)
    requires |nodes| == |h| && 0 <= k <= |h| && Linked(nodes, h, p, i, lv)
    requires p < k <= Landing(h, p, lv) && i < t
    ensures Linked(InsertAt(nodes, k, n), InsertAt(h, k, t), p, i, SkipListLevel(n, k - p))
    ensures Linked(InsertAt(nodes, k, n), InsertAt(h, k, t), k, i,
                   SkipListLevel(lv.forward, lv.span - (k - 1 - p)))
  {
  }

  // The same for a removal at position k.

  lemma RemoveKeepsLink(nodes: seq<SkipListNode>, h: seq<int>, k: int, p: int, i: int, lv: SkipListLevel)
    requires |nodes| == |h| && 0 <= k < |h| && Linked(nodes, h, p, i, lv)
    requires p > k || Landing(h, p, lv) < k
    ensures Linked(RemoveAt(nodes, k), RemoveAt(h, k), if p < k then p else p - 1, i, lv)
  {
  }

  lemma RemoveShrinksLink(nodes: seq<SkipListNode>, h: seq<int>, k: int, p: int, i: int, lv: SkipListLevel)
    requires |nodes| == |h| && 0 <= k < |h| && Linked(nodes, h, p, i, lv)
    requires p < k < Landing(h, p, lv)
    ensures Linked(RemoveAt(nodes, k), RemoveAt(h, k), p, i, lv.(span := lv.span - 1))
  {
  }

  lemma RemoveJoinsLinks(nodes: seq<SkipListNode>, h: seq<int>, k: int, p: int, i: int,
                         lv: SkipListLevel, next: SkipListLevel)
    requires |nodes| == |h| && 0 <= k < |h| && Linked(nodes, h, p, i, lv) && Linked(nodes, h, k, i, next)
    requires p < k == Landing(h, p, lv)
    ensures Linked(RemoveAt(nodes, k), RemoveAt(h, k), p, i,
                   SkipListLevel(next.forward, lv.span + next.span - 1))
  {
  }

  /** On one level at most one link passes over (or lands on) position k. */
  lemma OneLinkCrosses(nodes: seq<SkipListNode>, h: seq<int>, k: int, i: int,
                       u: int, lu: SkipListLevel, p: int, lp: SkipListLevel)
    requires |nodes| == |h|
    requires Linked(nodes, h, u, i, lu) && u < k <= Landing(h, u, lu) && h[u] > i
    requires Linked(nodes, h, p, i, lp) && p < k && p != u && h[p] > i
    ensures Landing(h, p, lp) < k
  {
  }

  // ---------------------------------------------------------------------------
  // A whole list of towers, as values: towers[p][i] is the link of position p on
  // level i, and rank[i] is the position where the level-i link over k starts.
  // ---------------------------------------------------------------------------

  /** Every link on every level lands on the next node of that level, with an exact span. */
  ghost predicate AllLinked(nodes: seq<SkipListNode>, h: seq<int>, towers: seq<seq<SkipListLevel>>) {
    && |nodes| == |h| == |towers|
    && (forall p | 0 <= p < |h| :: h[p] <= |towers[p]|)
    && forall p, i {:trigger LinkedAt(nodes, h, towers, p, i)} ::
      0 <= p < |h| && 0 <= i < h[p] ==> LinkedAt(nodes, h, towers, p, i)
  }

  /** The link of position p on level i is right. */
  ghost predicate LinkedAt(nodes: seq<SkipListNode>, h: seq<int>, towers: seq<seq<SkipListLevel>>, p: int, i: int) {
    |nodes| == |h| == |towers| && 0 <= p < |h| && 0 <= i < |towers[p]| && Linked(nodes, h, p, i, towers[p][i])
  }

  /** The header's tower has MAX_LEVEL links of which `h[0]` are in use; no tower is higher than that. */
  ghost predicate WellFormed(nodes: seq<SkipListNode>, h: seq<int>, towers: seq<seq<SkipListLevel>>) {
    && AllLinked(nodes, h, towers)
    && |h| >= 1 && 1 <= h[0] <= MAX_LEVEL == |towers[0]|
    && (forall p | 1 <= p < |h| :: 1 <= h[p] == |towers[p]| <= h[0])
    && (forall i | h[0] <= i < MAX_LEVEL :: towers[0][i].forward == null)
  }

  ghost predicate AllCross(h: seq<int>, towers: seq<seq<SkipListLevel>>, rank: seq<int>, k: int) {
    && 1 <= |h| == |towers| && 1 <= k <= |h| && h[0] <= |rank|
    && forall j {:trigger Crosses(h, towers, rank[j], j, k)} ::
      0 <= j < h[0] ==> Crosses(h, towers, rank[j], j, k)
  }

  /** The level-j link that leaves position r passes over (or lands on) position k. */
  ghost predicate Crosses(h: seq<int>, towers: seq<seq<SkipListLevel>>, r: int, j: int, k: int) {
    && 0 <= r < k <= |h| == |towers| && 0 <= j < h[r] <= |towers[r]|
    && Landing(h, r, towers[r][j]) >= k
  }

  /** Overwrites one link. */
  function Put(towers: seq<seq<SkipListLevel>>, r: int, j: int, lv: SkipListLevel): seq<seq<SkipListLevel>> {
    if 0 <= r < |towers| && 0 <= j < |towers[r]| then towers[r := towers[r][j := lv]] else towers
  }

  /** The towers once the predecessors' links below level n point at `node`. */
  ghost function LinkedBelow(towers: seq<seq<SkipListLevel>>, rank: seq<int>, node: SkipListNode, n: int)
    : (r: seq<seq<SkipListLevel>>)
    requires 0 <= n <= |rank|
  {
    if n == 0 then towers
    else Put(LinkedBelow(towers, rank, node, n - 1), rank[n - 1], n - 1,
             SkipListLevel(node, rank[0] - rank[n - 1] + 1))
  }

  /** The level-j link of a node placed right after position rank[0]. */
  ghost function NewLink(towers: seq<seq<SkipListLevel>>, rank: seq<int>, j: int): SkipListLevel
    requires 0 <= j < |rank|
  {
    if 0 <= rank[j] < |towers| && j < |towers[rank[j]]| then
      SkipListLevel(towers[rank[j]][j].forward, towers[rank[j]][j].span - (rank[0] - rank[j]))
    else SkipListLevel(null, 0)
  }

  /** The towers once the predecessors' links on levels from..n-1 have grown by one. */
  ghost function Stretched(towers: seq<seq<SkipListLevel>>, rank: seq<int>, from: int, n: int)
    : (r: seq<seq<SkipListLevel>>)
    requires 0 <= from <= n <= |rank|
    decreases n
  {
    if n == from then towers
    else
      var s := Stretched(towers, rank, from, n - 1);
      if 0 <= rank[n - 1] < |s| && n - 1 < |s[rank[n - 1]]| then
        var lv := s[rank[n - 1]][n - 1];
        Put(s, rank[n - 1], n - 1, SkipListLevel(lv.forward, lv.span + 1))
      else s
  }

  lemma {:induction false} LinkedBelowAt(towers: seq<seq<SkipListLevel>>, rank: seq<int>, node: SkipListNode, n: int,
                                         p: int)
    requires 0 <= n <= |rank| && 0 <= p < |towers|
    ensures var r := LinkedBelow(towers, rank, node, n);
      && |r| == |towers| && |r[p]| == |towers[p]|
      && forall j | 0 <= j < |towers[p]| ::
        r[p][j] == if j < n && rank[j] == p then SkipListLevel(node, rank[0] - p + 1) else towers[p][j]
  {
    if n > 0 { LinkedBelowAt(towers, rank, node, n - 1, p); }
  }

  lemma {:induction false} StretchedAt(towers: seq<seq<SkipListLevel>>, rank: seq<int>, from: int, n: int, p: int)
    requires 0 <= from <= n <= |rank| && 0 <= p < |towers|
    ensures var r := Stretched(towers, rank, from, n);
      && |r| == |towers| && |r[p]| == |towers[p]|
      && forall j | 0 <= j < |towers[p]| ::
        r[p][j] == if from <= j < n && rank[j] == p
                   then SkipListLevel(towers[p][j].forward, towers[p][j].span + 1) else towers[p][j]
    decreases n
  {
    if n > from { StretchedAt(towers, rank, from, n - 1, p); }
  }

  /** The old towers after both halves of a splice of `node`, t levels high, behind the predecessors. */
  ghost function SplicedTowers(towers: seq<seq<SkipListLevel>>, rank: seq<int>, node: SkipListNode, t: int, n: int)
    : seq<seq<SkipListLevel>>
    requires 0 <= t <= n <= |rank|
  {
    Stretched(LinkedBelow(towers, rank, node, t), rank, t, n)
  }

  lemma SplicedAt(towers: seq<seq<SkipListLevel>>, rank: seq<int>, node: SkipListNode, t: int, n: int, p: int)
    requires 0 <= t <= n <= |rank| && 0 <= p < |towers|
    ensures var r := SplicedTowers(towers, rank, node, t, n);
      && |r| == |towers| && |r[p]| == |towers[p]|
      && forall j | 0 <= j < |towers[p]| ::
        r[p][j] == if j < n && rank[j] == p then
                     if j < t then SkipListLevel(node, rank[0] - p + 1)
                     else SkipListLevel(towers[p][j].forward, towers[p][j].span + 1)
                   else towers[p][j]
  {
    LinkedBelowAt(towers, rank, node, t, p);
    StretchedAt(LinkedBelow(towers, rank, node, t), rank, t, n, p);
  }

  /** One link of the list after the splice. */
  lemma SpliceLinks(nodes: seq<SkipListNode>, h: seq<int>, towers: seq<seq<SkipListLevel>>, rank: seq<int>,
                    k: int, node: SkipListNode, t: int, p: int, j: int)
    requires WellFormed(nodes, h, towers) && AllCross(h, towers, rank, k) && rank[0] == k - 1
    requires 1 <= t <= h[0] && 0 <= p < |h| && 0 <= j < h[p]
    ensures |SplicedTowers(towers, rank, node, t, h[0])| == |h|
    ensures j < |SplicedTowers(towers, rank, node, t, h[0])[p]|
    ensures Linked(InsertAt(nodes, k, node), InsertAt(h, k, t), if p < k then p else p + 1, j,
                   SplicedTowers(towers, rank, node, t, h[0])[p][j])
  {
    var lv := towers[p][j];
    var u := rank[j];
    SplicedAt(towers, rank, node, t, h[0], p);
    assert Crosses(h, towers, u, j, k);
    assert LinkedAt(nodes, h, towers, u, j);
    assert LinkedAt(nodes, h, towers, p, j);
    if p == u {
      if j < t { InsertSplitsLink(nodes, h, k, node, t, p, j, lv); }
      else { InsertStretchesLink(nodes, h, k, node, t, p, j, lv); }
    } else {
      if p < k { OneLinkCrosses(nodes, h, k, j, u, towers[u][j], p, lv); }
      InsertKeepsLink(nodes, h, k, node, t, p, j, lv);
    }
  }

  /** One link of the spliced-in node. */
  lemma SpliceNewLink(nodes: seq<SkipListNode>, h: seq<int>, towers: seq<seq<SkipListLevel>>, rank: seq<int>,
                      k: int, node: SkipListNode, t: int, j: int)
    requires WellFormed(nodes, h, towers) && AllCross(h, towers, rank, k) && rank[0] == k - 1
    requires 0 <= j < t <= h[0]
    ensures Linked(InsertAt(nodes, k, node), InsertAt(h, k, t), k, j, NewLink(towers, rank, j))
  {
    var u := rank[j];
    assert Crosses(h, towers, u, j, k);
    assert LinkedAt(nodes, h, towers, u, j);
    InsertSplitsLink(nodes, h, k, node, t, u, j, towers[u][j]);
  }

  lemma SpliceAllLinked(nodes: seq<SkipListNode>, h: seq<int>, towers: seq<seq<SkipListLevel>>, rank: seq<int>,
                        k: int, node: SkipListNode, tower: seq<SkipListLevel>, s: seq<seq<SkipListLevel>>)
    requires WellFormed(nodes, h, towers) && AllCross(h, towers, rank, k) && rank[0] == k - 1
    requires 1 <= |tower| <= h[0] && forall j | 0 <= j < |tower| :: tower[j] == NewLink(towers, rank, j)
    requires s == SplicedTowers(towers, rank, node, |tower|, h[0])
    requires |s| == |towers| && forall p | 0 <= p < |s| :: |s[p]| == |towers[p]|
    ensures AllLinked(InsertAt(nodes, k, node), InsertAt(h, k, |tower|), InsertAt(s, k, tower))
  {
    var nodes', h', s' := InsertAt(nodes, k, node), InsertAt(h, k, |tower|), InsertAt(s, k, tower);
    forall p, j | 0 <= p < |h'| && 0 <= j < h'[p] ensures LinkedAt(nodes', h', s', p, j) {
      if p == k {
        SpliceNewLink(nodes, h, towers, rank, k, node, |tower|, j);
      } else {
        SpliceLinks(nodes, h, towers, rank, k, node, |tower|, if p < k then p else p - 1, j);
      }
    }
  }

  lemma SpliceWellFormed(nodes: seq<SkipListNode>, h: seq<int>, towers: seq<seq<SkipListLevel>>, rank: seq<int>,
                         k: int, node: SkipListNode, tower: seq<SkipListLevel>)
    requires WellFormed(nodes, h, towers) && AllCross(h, towers, rank, k) && rank[0] == k - 1
    requires 1 <= |tower| <= h[0] && forall j | 0 <= j < |tower| :: tower[j] == NewLink(towers, rank, j)
    ensures |SplicedTowers(towers, rank, node, |tower|, h[0])| == |h|
    ensures WellFormed(InsertAt(nodes, k, node), InsertAt(h, k, |tower|),
                       InsertAt(SplicedTowers(towers, rank, node, |tower|, h[0]), k, tower))
  {
    var s := SplicedTowers(towers, rank, node, |tower|, h[0]);
    SplicedAt(towers, rank, node, |tower|, h[0], 0);
    forall p | 0 <= p < |h| ensures |s[p]| == |towers[p]| {
      SplicedAt(towers, rank, node, |tower|, h[0], p);
    }
    SpliceAllLinked(nodes, h, towers, rank, k, node, tower, s);
  }

  /** What a predecessor's link becomes when `target`, whose own link is `next`, is taken out. */
  ghost function Bypass(lv: SkipListLevel, target: SkipListNode, next: SkipListLevel): SkipListLevel {
    if lv.forward == target then SkipListLevel(next.forward, lv.span + next.span - 1)
    else SkipListLevel(lv.forward, lv.span - 1)
  }

  /** Level j of a tower, or an unused link above its top. */
  ghost function LinkOf(tower: seq<SkipListLevel>, j: int): SkipListLevel
    requires 0 <= j
  {
    if j < |tower| then tower[j] else SkipListLevel(null, 0)
  }

  /** The towers once the predecessors' links below level n bypass `target`. */
  ghost function Unlinked(towers: seq<seq<SkipListLevel>>, rank: seq<int>, target: SkipListNode,
                          tower: seq<SkipListLevel>, n: int): seq<seq<SkipListLevel>>
    requires 0 <= n <= |rank|
  {
    if n == 0 then towers
    else
      var s, r := Unlinked(towers, rank, target, tower, n - 1), rank[n - 1];
      if 0 <= r < |s| && n - 1 < |s[r]| then Put(s, r, n - 1, Bypass(s[r][n - 1], target, LinkOf(tower, n - 1)))
      else s
  }

  lemma {:induction false} UnlinkedAt(towers: seq<seq<SkipListLevel>>, rank: seq<int>, target: SkipListNode,
                                      tower: seq<SkipListLevel>, n: int, p: int)
    requires 0 <= n <= |rank| && 0 <= p < |towers|
    ensures var r := Unlinked(towers, rank, target, tower, n);
      && |r| == |towers| && |r[p]| == |towers[p]|
      && forall j | 0 <= j < |towers[p]| ::
        r[p][j] == if j < n && rank[j] == p then Bypass(towers[p][j], target, LinkOf(tower, j)) else towers[p][j]
  {
    if n > 0 { UnlinkedAt(towers, rank, target, tower, n - 1, p); }
  }

  /** The node that is taken out keeps its own links. */
  lemma UnlinkedTarget(h: seq<int>, towers: seq<seq<SkipListLevel>>, rank: seq<int>, target: SkipListNode, k: int)
    requires AllCross(h, towers, rank, k) && k < |h| && 0 <= h[0]
    ensures var s := Unlinked(towers, rank, target, towers[k], h[0]); |s| == |h| && s[k] == towers[k]
  {
    UnlinkedAt(towers, rank, target, towers[k], h[0], k);
    forall j | 0 <= j < h[0] ensures rank[j] < k {
      assert Crosses(h, towers, rank[j], j, k);
    }
  }

  lemma BypassLinked(nodes: seq<SkipListNode>, h: seq<int>, k: int, p: int, j: int, lv: SkipListLevel,
                     next: SkipListLevel)
    requires |nodes| == |h| && Distinct(nodes) && 0 <= p < k < |h| && Linked(nodes, h, p, j, lv)
    requires Landing(h, p, lv) >= k && (h[k] > j ==> Linked(nodes, h, k, j, next))
    ensures Linked(RemoveAt(nodes, k), RemoveAt(h, k), p, j, Bypass(lv, nodes[k], next))
  {
    if Landing(h, p, lv) == k {
      RemoveJoinsLinks(nodes, h, k, p, j, lv, next);
    } else {
      RemoveShrinksLink(nodes, h, k, p, j, lv);
    }
  }

  /** One link of the list after the node at position k is taken out. */
  lemma UnlinkLinks(nodes: seq<SkipListNode>, h: seq<int>, towers: seq<seq<SkipListLevel>>, rank: seq<int>,
                    k: int, p: int, j: int)
    requires WellFormed(nodes, h, towers) && Distinct(nodes) && AllCross(h, towers, rank, k) && k < |h|
    requires 0 <= p < |h| && p != k && 0 <= j < h[p]
    ensures var s := Unlinked(towers, rank, nodes[k], towers[k], h[0]);
      && |s| == |h| && j < |s[p]|
      && Linked(RemoveAt(nodes, k), RemoveAt(h, k), if p < k then p else p - 1, j, s[p][j])
  {
    var lv := towers[p][j];
    var u := rank[j];
    UnlinkedAt(towers, rank, nodes[k], towers[k], h[0], p);
    assert Crosses(h, towers, u, j, k);
    assert LinkedAt(nodes, h, towers, u, j);
    assert LinkedAt(nodes, h, towers, p, j);
    if p == u {
      if h[k] > j { assert LinkedAt(nodes, h, towers, k, j); }
      BypassLinked(nodes, h, k, p, j, lv, LinkOf(towers[k], j));
    } else {
      if p < k { OneLinkCrosses(nodes, h, k, j, u, towers[u][j], p, lv); }
      RemoveKeepsLink(nodes, h, k, p, j, lv);
    }
  }

  lemma UnlinkWellFormed(nodes: seq<SkipListNode>, h: seq<int>, towers: seq<seq<SkipListLevel>>, rank: seq<int>, k: int)
    requires WellFormed(nodes, h, towers) && Distinct(nodes) && AllCross(h, towers, rank, k) && k < |h|
    ensures var s := Unlinked(towers, rank, nodes[k], towers[k], h[0]);
      |s| == |h| && WellFormed(RemoveAt(nodes, k), RemoveAt(h, k), RemoveAt(s, k))
  {
    var s := Unlinked(towers, rank, nodes[k], towers[k], h[0]);
    UnlinkedAt(towers, rank, nodes[k], towers[k], h[0], 0);
    forall p | 0 <= p < |h| ensures |s[p]| == |towers[p]| {
      UnlinkedAt(towers, rank, nodes[k], towers[k], h[0], p);
    }
    UnlinkAllLinked(nodes, h, towers, rank, k, s);
  }

  lemma UnlinkAllLinked(nodes: seq<SkipListNode>, h: seq<int>, towers: seq<seq<SkipListLevel>>, rank: seq<int>,
                        k: int, s: seq<seq<SkipListLevel>>)
    requires WellFormed(nodes, h, towers) && Distinct(nodes) && AllCross(h, towers, rank, k) && k < |h|
    requires s == Unlinked(towers, rank, nodes[k], towers[k], h[0])
    requires |s| == |towers| && forall p | 0 <= p < |s| :: |s[p]| == |towers[p]|
    ensures AllLinked(RemoveAt(nodes, k), RemoveAt(h, k), RemoveAt(s, k))
  {
    var nodes', h', s' := RemoveAt(nodes, k), RemoveAt(h, k), RemoveAt(s, k);
    forall p, j | 0 <= p < |h'| && 0 <= j < h'[p] ensures LinkedAt(nodes', h', s', p, j) {
      UnlinkLinkedAt(nodes, h, towers, rank, k, s, p, j);
    }
  }

  lemma UnlinkLinkedAt(nodes: seq<SkipListNode>, h: seq<int>, towers: seq<seq<SkipListLevel>>, rank: seq<int>,
                       k: int, s: seq<seq<SkipListLevel>>, p: int, j: int)
    requires WellFormed(nodes, h, towers) && Distinct(nodes) && AllCross(h, towers, rank, k) && k < |h|
    requires s == Unlinked(towers, rank, nodes[k], towers[k], h[0]) && |s| == |towers|
    requires 0 <= p < |RemoveAt(h, k)| && 0 <= j < RemoveAt(h, k)[p]
    ensures LinkedAt(RemoveAt(nodes, k), RemoveAt(h, k), RemoveAt(s, k), p, j)
  {
    UnlinkLinks(nodes, h, towers, rank, k, if p < k then p else p + 1, j);
  }

  /** A predecessor's link that lands on the node at k does so on one of that node's levels. */
  lemma LandsOnLevel(nodes: seq<SkipListNode>, h: seq<int>, towers: seq<seq<SkipListLevel>>, rank: seq<int>, k: int,
                     j: int)
    requires WellFormed(nodes, h, towers) && Distinct(nodes) && AllCross(h, towers, rank, k) && k < |h| && 0 <= j < h[0]
    ensures 0 <= rank[j] < k && j < |towers[rank[j]]|
    ensures towers[rank[j]][j].forward == nodes[k] ==> j < |towers[k]|
  {
    assert Crosses(h, towers, rank[j], j, k) && LinkedAt(nodes, h, towers, rank[j], j);
  }

  /** An unused top level can be dropped. */
  lemma LowerWellFormed(nodes: seq<SkipListNode>, h: seq<int>, towers: seq<seq<SkipListLevel>>)
    requires WellFormed(nodes, h, towers) && h[0] > 1 && towers[0][h[0] - 1].forward == null
    ensures WellFormed(nodes, h[0 := h[0] - 1], towers)
  {
    assert LinkedAt(nodes, h, towers, 0, h[0] - 1);
    var h' := h[0 := h[0] - 1];
    forall p, j | 0 <= p < |h'| && 0 <= j < h'[p] ensures LinkedAt(nodes, h', towers, p, j) {
      assert LinkedAt(nodes, h, towers, p, j);
    }
  }

  /** Opening header links over the whole list keeps the structure. */
  lemma RaiseWellFormed(nodes: seq<SkipListNode>, h: seq<int>, towers: seq<seq<SkipListLevel>>,
                        top: seq<SkipListLevel>, to: int, length: int)
    requires WellFormed(nodes, h, towers) && h[0] < to <= MAX_LEVEL == |top| && length == |h| - 1
    requires forall j | 0 <= j < MAX_LEVEL ::
      top[j] == if h[0] <= j < to then SkipListLevel(null, length) else towers[0][j]
    ensures WellFormed(nodes, h[0 := to], towers[0 := top])
  {
    var h', towers' := h[0 := to], towers[0 := top];
    forall p, j | 0 <= p < |h| && 0 <= j < h'[p] ensures LinkedAt(nodes, h', towers', p, j) {
      if p > 0 || j < h[0] { assert LinkedAt(nodes, h, towers, p, j); }
    }
  }

  lemma RaiseCrosses(nodes: seq<SkipListNode>, h: seq<int>, towers: seq<seq<SkipListLevel>>,
                     top: seq<SkipListLevel>, to: int, rank0: seq<int>, rank: seq<int>, k: int, length: int)
    requires WellFormed(nodes, h, towers) && h[0] < to <= MAX_LEVEL == |top| == |rank| == |rank0|
    requires AllCross(h, towers, rank0, k)
    requires forall j | 0 <= j < MAX_LEVEL ::
      top[j] == if h[0] <= j < to then SkipListLevel(null, length) else towers[0][j]
    requires forall j | 0 <= j < MAX_LEVEL :: rank[j] == if h[0] <= j < to then 0 else rank0[j]
    ensures AllCross(h[0 := to], towers[0 := top], rank, k)
  {
    forall j | 0 <= j < to ensures Crosses(h[0 := to], towers[0 := top], rank[j], j, k) {
      if j < h[0] { assert Crosses(h, towers, rank0[j], j, k); }
    }
  }

  /** The level in use is exactly the height of the tallest tower (and at least one). */
  ghost predicate Tallest(h: seq<int>) {
    |h| >= 1 && (h[0] > 1 ==> exists p :: 1 <= p < |h| && h[p] == h[0])
  }

  lemma InsertTallest(h: seq<int>, k: int, t: int, to: int)
    requires Tallest(h) && 1 <= k <= |h| && 1 <= t && to == if t > h[0] then t else h[0]
    ensures Tallest(InsertAt(h[0 := to], k, t))
  {
    var h' := InsertAt(h[0 := to], k, t);
    if to == t {
      assert h'[k] == to;
    } else if h[0] > 1 {
      var p :| 1 <= p < |h| && h[p] == h[0];
      assert h'[if p < k then p else p + 1] == to;
    }
  }

  /** On the bottom level the new node points at the node it displaced. */
  lemma BottomNext(nodes: seq<SkipListNode>, h: seq<int>, towers: seq<seq<SkipListLevel>>, k: int)
    requires WellFormed(nodes, h, towers) && 1 <= k < |h|
    ensures |towers[k]| > 0 && towers[k][0].forward == if k + 1 < |h| then nodes[k + 1] else null
  {
    assert LinkedAt(nodes, h, towers, k, 0);
    assert k + 1 < |h| ==> h[k + 1] >= 1;
  }

  // ---------------------------------------------------------------------------
  // Backward pointers, as values.
  // ---------------------------------------------------------------------------

  /** The list node before position p; the header does not count. */
  ghost function Previous(nodes: seq<SkipListNode>, p: int): SkipListNode?
    requires 0 <= p <= |nodes|
  {
    if p <= 1 then null else nodes[p - 1]
  }

  ghost predicate Mirrors(nodes: seq<SkipListNode>, backs: seq<SkipListNode?>, tail: SkipListNode?) {
    && 1 <= |nodes| == |backs| && tail == Previous(nodes, |nodes|)
    && forall p {:trigger Previous(nodes, p)} :: 0 <= p < |nodes| ==> backs[p] == Previous(nodes, p)
  }

  lemma InsertMirrors(nodes: seq<SkipListNode>, backs: seq<SkipListNode?>, tail: SkipListNode?, k: int,
                      node: SkipListNode)
    requires Mirrors(nodes, backs, tail) && 1 <= k <= |nodes|
    ensures Mirrors(InsertAt(nodes, k, node),
                    InsertAt(if k < |nodes| then backs[k := node] else backs, k, Previous(nodes, k)),
                    if k < |nodes| then tail else node)
  {
    var ns := InsertAt(nodes, k, node);
    forall p | 0 <= p < |ns|
      ensures InsertAt(if k < |nodes| then backs[k := node] else backs, k, Previous(nodes, k))[p] == Previous(ns, p)
    {
      var q := if p <= k then p else p - 1;
      assert q < |nodes| ==> backs[q] == Previous(nodes, q);
    }
    assert tail == Previous(nodes, |nodes|);
  }

  lemma RemoveMirrors(nodes: seq<SkipListNode>, backs: seq<SkipListNode?>, tail: SkipListNode?, k: int)
    requires Mirrors(nodes, backs, tail) && 1 <= k < |nodes|
    ensures Mirrors(RemoveAt(nodes, k),
                    RemoveAt(if k + 1 < |nodes| then backs[k + 1 := backs[k]] else backs, k),
                    if k + 1 < |nodes| then tail else backs[k])
  {
    var ns := RemoveAt(nodes, k);
    forall p | 0 <= p < |ns|
      ensures RemoveAt(if k + 1 < |nodes| then backs[k + 1 := backs[k]] else backs, k)[p] == Previous(ns, p)
    {
      var q := if p <= k then p else p + 1;
      assert backs[q] == Previous(nodes, q);
    }
    assert backs[k] == Previous(nodes, k) && tail == Previous(nodes, |nodes|);
  }

  // ---------------------------------------------------------------------------
  // Order and dictionary.
  // ---------------------------------------------------------------------------

  /** What the nodes behind the header hold. */
  ghost function Items(nodes: seq<SkipListNode>): (es: seq<ScoredMember>)
    ensures |nodes| >= 1 ==> |es| == |nodes| - 1
    ensures forall p {:trigger es[p]} :: 0 <= p < |nodes| - 1 ==> es[p] == nodes[p + 1].Item()
  {
    if |nodes| <= 1 then [] else Items(nodes[..|nodes| - 1]) + [nodes[|nodes| - 1].Item()]
  }

  ghost predicate Sorted(nodes: seq<SkipListNode>) {
    forall p, q {:trigger nodes[p].Item(), nodes[q].Item()} ::
      1 <= p < q < |nodes| ==> Before(nodes[p].Item(), nodes[q].Item())
  }

  ghost predicate HasMember(nodes: seq<SkipListNode>, m: string) {
    exists p :: 1 <= p < |nodes| && nodes[p].member == m
  }

  ghost predicate Agrees(nodes: seq<SkipListNode>, dict: map<string, real>) {
    && (forall p | 1 <= p < |nodes| :: nodes[p].member in dict && dict[nodes[p].member] == nodes[p].score)
    && (forall m {:trigger HasMember(nodes, m)} :: m in dict ==> HasMember(nodes, m))
  }

  /** A member stands at one position only. */
  lemma MembersDiffer(nodes: seq<SkipListNode>, dict: map<string, real>, p: int, q: int)
    requires Sorted(nodes) && Agrees(nodes, dict) && 1 <= p < |nodes| && 1 <= q < |nodes| && p != q
    ensures nodes[p].member != nodes[q].member
  {
    var a, b := nodes[p].Item(), nodes[q].Item();
    assert Before(a, b) || Before(b, a);
    BeforeIsStrictTotalOrder(a, b, a);
  }

  lemma RemoveAgrees(nodes: seq<SkipListNode>, dict: map<string, real>, k: int)
    requires Sorted(nodes) && Agrees(nodes, dict) && 1 <= k < |nodes|
    ensures Sorted(RemoveAt(nodes, k)) && Agrees(RemoveAt(nodes, k), dict - {nodes[k].member})
  {
    var ns := RemoveAt(nodes, k);
    forall p | 1 <= p < |ns| ensures ns[p].member != nodes[k].member {
      MembersDiffer(nodes, dict, if p < k then p else p + 1, k);
    }
    forall m | m in dict && m != nodes[k].member ensures HasMember(ns, m) {
      assert HasMember(nodes, m);
      var p :| 1 <= p < |nodes| && nodes[p].member == m;
      assert ns[if p < k then p else p - 1].member == m;
    }
  }

  lemma InsertAgrees(nodes: seq<SkipListNode>, dict: map<string, real>, k: int, node: SkipListNode)
    requires Sorted(nodes) && Agrees(nodes, dict) && Splits(nodes, node.Item(), k) && node.member !in dict
    ensures Sorted(InsertAt(nodes, k, node)) && Agrees(InsertAt(nodes, k, node), dict[node.member := node.score])
  {
    var ns := InsertAt(nodes, k, node);
    forall p | k <= p < |nodes| ensures Before(node.Item(), nodes[p].Item()) {
      BeforeIsStrictTotalOrder(node.Item(), nodes[p].Item(), node.Item());
    }
    forall m | m in dict[node.member := node.score] ensures HasMember(ns, m) {
      if m == node.member {
        assert ns[k].member == m;
      } else {
        assert HasMember(nodes, m);
        var p :| 1 <= p < |nodes| && nodes[p].member == m;
        assert ns[if p < k then p else p + 1].member == m;
      }
    }
  }

  /** Everything before position k precedes e; nothing from k on does. */
  ghost predicate Splits(nodes: seq<SkipListNode>, e: ScoredMember, k: int) {
    && 1 <= k <= |nodes|
    && (forall p | 1 <= p < k :: Before(nodes[p].Item(), e))
    && (forall p | k <= p < |nodes| :: !Before(nodes[p].Item(), e))
  }

  lemma SplitExists(nodes: seq<SkipListNode>, e: ScoredMember) returns (k: int)
    requires Sorted(nodes) && |nodes| >= 1
    ensures Splits(nodes, e, k)
  {
    k := 1;
    while k < |nodes| && Before(nodes[k].Item(), e)
      invariant 1 <= k <= |nodes|
      invariant forall p | 1 <= p < k :: Before(nodes[p].Item(), e)
    {
      k := k + 1;
    }
    forall p | k <= p < |nodes| ensures !Before(nodes[p].Item(), e) {
      if p > k { BeforeIsStrictTotalOrder(nodes[k].Item(), nodes[p].Item(), e); }
    }
  }

  /** Positions up to k are exactly those whose item does not come after the item at k. */
  lemma NotAfter(nodes: seq<SkipListNode>, k: int, p: int)
    requires Sorted(nodes) && 1 <= k < |nodes| && 1 <= p < |nodes|
    ensures p <= k <==> nodes[p].Item() == nodes[k].Item() || Before(nodes[p].Item(), nodes[k].Item())
  {
    BeforeIsStrictTotalOrder(nodes[k].Item(), nodes[p].Item(), nodes[k].Item());
  }

  lemma SplitAtMember(nodes: seq<SkipListNode>, k: int)
    requires Sorted(nodes) && 1 <= k < |nodes|
    ensures Splits(nodes, nodes[k].Item(), k)
  {
    var e := nodes[k].Item();
    BeforeIsStrictTotalOrder(e, e, e);
    forall p | k < p < |nodes| ensures !Before(nodes[p].Item(), e) {
      BeforeIsStrictTotalOrder(e, nodes[p].Item(), e);
    }
  }

  // ---------------------------------------------------------------------------
  // The list itself.
  // ---------------------------------------------------------------------------

  class SkipList {
    const header: SkipListNode
    var tail: SkipListNode?
    var length: int
    var level: int
    var dict: map<string, real>

    ghost var nodes: seq<SkipListNode>            // the header, then the bottom-level chain
    ghost var towers: seq<seq<SkipListLevel>>     // the links of each of them
    ghost var backs: seq<SkipListNode?>           // their backward pointers
    ghost var heights: seq<int>                   // how many are in use (for the header, `level`)

    ghost predicate HasTowers()
      reads this, nodes
    {
      && |nodes| == |towers| >= 1 && nodes[0] == header && Distinct(nodes)
      && forall p | 0 <= p < |nodes| :: nodes[p].level == towers[p]
    }

    ghost predicate HasBacks()
      reads this, nodes
    {
      |backs| == |nodes| && forall p | 0 <= p < |nodes| :: nodes[p].backward == backs[p]
    }

    /** Backward pointers and `tail` run through the chain in reverse; `length` counts it. */
    ghost predicate Backs()
      reads this, nodes
    {
      HasBacks() && Mirrors(nodes, backs, tail) && length == |nodes| - 1
    }

    /** The linked structure, leaving aside the dictionary. */
    ghost predicate Chained()
      reads this, nodes
    {
      HasTowers() && WellFormed(nodes, heights, towers) && heights[0] == level && header.member == []
    }

    ghost predicate Valid()
      reads this, nodes
    {
      Chained() && Tallest(heights) && Backs() && Sorted(nodes) && Agrees(nodes, dict)
    }

    /** The sorted set as a plain sequence. */
    ghost function Elements(): (es: seq<ScoredMember>)
      reads this
    {
      Items(nodes)
    }

    constructor ()
      ensures Valid() && dict == map[] && fresh(nodes) && nodes == [header] && heights == [1]
    {
      header := new SkipListNode([], 0.0, MAX_LEVEL);
      tail := null;
      length := 0;
      level := 1;
      dict := map[];
      new;
      nodes, towers, backs, heights := [header], [header.level], [null], [1];
    }

    /** update[j] is the node at position rank[j] and has a link on level j, for the first n levels. */
    ghost predicate Locates(update: seq<SkipListNode>, rank: seq<int>, n: int)
      reads this
    {
      && |update| == |rank| == MAX_LEVEL && n <= MAX_LEVEL && |nodes| == |towers|
      && forall j | 0 <= j < n :: 0 <= rank[j] < |nodes| && update[j] == nodes[rank[j]] && j < |towers[rank[j]]|
    }

    /** The descent shared by insertion and deletion: the last node before e on every level. */
    method FindPredecessors(e: ScoredMember, ghost k: int) returns (update: seq<SkipListNode>, rank: seq<int>)
      requires Chained() && Splits(nodes, e, k)
      ensures Locates(update, rank, level) && AllCross(heights, towers, rank, k)
      ensures rank[0] == k - 1
    {
      update := seq(MAX_LEVEL, _ => header);
      rank := seq(MAX_LEVEL, _ => 0);
      var x := header;
      var i := level;
      while i > 0
        invariant 0 <= i <= level && |update| == |rank| == MAX_LEVEL
        invariant i == level ==> x == header
        invariant i < level ==> x == update[i]
        invariant forall j | i <= j < level :: Crosses(heights, towers, rank[j], j, k)
        invariant forall j | i <= j < level :: update[j] == nodes[rank[j]]
      {
        i := i - 1;
        var r := if i == level - 1 then 0 else rank[i + 1];
        while x.level[i].forward != null && Before(x.level[i].forward.Item(), e)
          invariant 0 <= r < k && heights[r] > i && x == nodes[r]
          decreases |nodes| - r
        {
          assert LinkedAt(nodes, heights, towers, r, i);
          r := r + x.level[i].span;
          x := x.level[i].forward;
        }
        assert LinkedAt(nodes, heights, towers, r, i);
        update, rank := update[i := x], rank[i := r];
      }
      assert Crosses(heights, towers, rank[0], 0, k) && LinkedAt(nodes, heights, towers, rank[0], 0);
      assert rank[0] + 1 < |heights| ==> heights[rank[0] + 1] >= 1;
    }

    /** Overwrites the level-i link of the node at position r. */
    method SetLink(u: SkipListNode, ghost r: int, i: int, lv: SkipListLevel)
      requires HasTowers() && 0 <= r < |nodes| && u == nodes[r] && 0 <= i < |u.level|
      modifies u`level, this`towers
      ensures HasTowers() && towers == Put(old(towers), r, i, lv)
    {
      u.level := u.level[i := lv];
      towers := Put(towers, r, i, lv);
    }

    /** Puts node between u (at position r) and u's successor on level i; node goes right after position r0. */
    method LinkLevel(node: SkipListNode, u: SkipListNode, r: int, r0: int, i: int)
      requires HasTowers() && 0 <= r < |nodes| && u == nodes[r] && node !in nodes
      requires 0 <= i < |u.level| && i < |node.level|
      modifies u`level, node`level, this`towers
      ensures HasTowers() && towers == Put(old(towers), r, i, SkipListLevel(node, r0 - r + 1))
      ensures node.level == old(node.level)[i := SkipListLevel(old(towers)[r][i].forward,
                                                               old(towers)[r][i].span - (r0 - r))]
    {
      node.level := node.level[i := SkipListLevel(u.level[i].forward, u.level[i].span - (r0 - r))];
      SetLink(u, r, i, SkipListLevel(node, r0 - r + 1));
    }

    /** First half of the splice: the levels the new tower reaches. */
    method LinkTower(node: SkipListNode, update: seq<SkipListNode>, rank: seq<int>)
      requires HasTowers() && node !in nodes && Locates(update, rank, |node.level|)
      modifies nodes`level, node`level, this`towers
      ensures HasTowers() && |node.level| == old(|node.level|)
      ensures forall j | 0 <= j < |node.level| :: node.level[j] == NewLink(old(towers), rank, j)
      ensures towers == LinkedBelow(old(towers), rank, node, |node.level|)
    {
      ghost var was := towers;
      var i := 0;
      while i < |node.level|
        invariant 0 <= i <= |node.level| == old(|node.level|) && HasTowers() && |towers| == |was|
        invariant towers == LinkedBelow(was, rank, node, i)
        invariant forall j | 0 <= j < i :: node.level[j] == NewLink(was, rank, j)
      {
        LinkedBelowAt(was, rank, node, i, rank[i]);
        LinkLevel(node, update[i], rank[i], rank[0], i);
        i := i + 1;
      }
    }

    /** Second half: links that pass over the new node grow by one. */
    method StretchSpans(from: int, update: seq<SkipListNode>, rank: seq<int>)
      requires HasTowers() && 0 <= from <= level && Locates(update, rank, level)
      modifies nodes`level, this`towers
      ensures HasTowers() && towers == Stretched(old(towers), rank, from, level)
    {
      ghost var was := towers;
      var i := from;
      while i < level
        invariant from <= i <= level && HasTowers() && |towers| == |was|
        invariant towers == Stretched(was, rank, from, i)
      {
        StretchedAt(was, rank, from, i, rank[i]);
        var u := update[i].level[i];
        SetLink(update[i], rank[i], i, SkipListLevel(u.forward, u.span + 1));
        i := i + 1;
      }
    }

    /** Opens the header's links up to level `to - 1`, if that is above `level`; they span the whole list. */
    method RaiseLevel(to: int, update0: seq<SkipListNode>, rank0: seq<int>, ghost k: int)
      returns (update: seq<SkipListNode>, rank: seq<int>)
      requires Chained() && Backs() && to <= MAX_LEVEL
      requires Locates(update0, rank0, level) && AllCross(heights, towers, rank0, k)
      modifies this`level, this`heights, this`towers, header`level
      ensures Chained() && Backs() && level == (if to > old(level) then to else old(level))
      ensures heights == old(heights)[0 := level]
      ensures Locates(update, rank, level) && AllCross(heights, towers, rank, k) && rank[0] == rank0[0]
    {
      update, rank := update0, rank0;
      if to > level {
        update, rank := OpenLevels(to, update, rank);
        level := to;
        heights := heights[0 := to];
        RaiseWellFormed(nodes, old(heights), old(towers), header.level, to, length);
        RaiseCrosses(nodes, old(heights), old(towers), header.level, to, rank0, rank, k, length);
      }
    }

    method OpenLevels(to: int, update0: seq<SkipListNode>, rank0: seq<int>)
      returns (update: seq<SkipListNode>, rank: seq<int>)
      requires HasTowers() && HasBacks() && |header.level| == |update0| == |rank0| == MAX_LEVEL
      requires 0 <= level <= to <= MAX_LEVEL
      modifies this`towers, header`level
      ensures HasTowers() && HasBacks() && towers == old(towers)[0 := header.level]
      ensures |header.level| == |update| == |rank| == MAX_LEVEL
      ensures forall j | 0 <= j < MAX_LEVEL ::
        header.level[j] == if level <= j < to then old(towers)[0][j].(span := length) else old(towers)[0][j]
      ensures forall j | 0 <= j < MAX_LEVEL :: rank[j] == if level <= j < to then 0 else rank0[j]
      ensures forall j | 0 <= j < MAX_LEVEL :: update[j] == if level <= j < to then header else update0[j]
    {
      update, rank := update0, rank0;
      var i := level;
      while i < to
        invariant level <= i <= to && HasTowers() && HasBacks()
        invariant |header.level| == |update| == |rank| == MAX_LEVEL && towers == old(towers)[0 := header.level]
        invariant forall j | 0 <= j < MAX_LEVEL ::
          header.level[j] == if level <= j < i then old(towers)[0][j].(span := length) else old(towers)[0][j]
        invariant forall j | 0 <= j < MAX_LEVEL :: rank[j] == if level <= j < i then 0 else rank0[j]
        invariant forall j | 0 <= j < MAX_LEVEL :: update[j] == if level <= j < i then header else update0[j]
      {
        rank := rank[i := 0];
        update := update[i := header];
        SetLink(header, 0, i, SkipListLevel(header.level[i].forward, length));
        i := i + 1;
      }
    }

    /** Both halves of the splice. */
    method Relink(node: SkipListNode, update: seq<SkipListNode>, rank: seq<int>)
      requires HasTowers() && node !in nodes && |node.level| <= level && Locates(update, rank, level)
      modifies nodes`level, node`level, this`towers
      ensures HasTowers() && |node.level| == old(|node.level|)
      ensures level <= |rank| && towers == SplicedTowers(old(towers), rank, node, |node.level|, level)
      ensures forall j | 0 <= j < |node.level| :: node.level[j] == NewLink(old(towers), rank, j)
    {
      ghost var was := towers;
      LinkTower(node, update, rank);
      forall j | 0 <= j < level ensures j < |towers[rank[j]]| {
        LinkedBelowAt(was, rank, node, |node.level|, rank[j]);
      }
      StretchSpans(|node.level|, update, rank);
    }

    /** Records a linked-in node at position k of the ghost view. */
    ghost method Adopt(node: SkipListNode, k: int, h: int)
      requires HasTowers() && HasBacks() && node !in nodes && 1 <= k <= |nodes| == |heights|
      modifies this`towers, this`nodes, this`heights, this`backs
      ensures HasTowers() && HasBacks() && backs == InsertAt(old(backs), k, node.backward)
      ensures nodes == InsertAt(old(nodes), k, node)
      ensures towers == InsertAt(old(towers), k, node.level) && heights == InsertAt(old(heights), k, h)
    {
      InsertKeepsDistinct(nodes, k, node);
      nodes := InsertAt(nodes, k, node);
      towers := InsertAt(towers, k, node.level);
      backs := InsertAt(backs, k, node.backward);
      heights := InsertAt(heights, k, h);
    }

    /** Links a new node in at position k on every level. */
    method Splice(node: SkipListNode, update: seq<SkipListNode>, rank: seq<int>, ghost k: int)
      requires Chained() && node !in nodes && 1 <= |node.level| <= level
      requires Locates(update, rank, level) && AllCross(heights, towers, rank, k) && rank[0] == k - 1 && HasBacks()
      modifies nodes`level, node`level, this`towers
      ensures HasTowers() && HasBacks() && |node.level| == old(|node.level|)
      ensures 1 <= k <= |nodes| == |heights| == |towers|
      ensures WellFormed(InsertAt(nodes, k, node), InsertAt(heights, k, |node.level|), InsertAt(towers, k, node.level))
      ensures node.level[0].forward == Next(k - 1)
    {
      ghost var was := towers;
      Relink(node, update, rank);
      SpliceWellFormed(nodes, heights, was, rank, k, node, node.level);
      BottomNext(InsertAt(nodes, k, node), InsertAt(heights, k, |node.level|), InsertAt(towers, k, node.level), k);
    }

    /** Takes the node at position k out of every level it is on. */
    method Unlink(target: SkipListNode, update: seq<SkipListNode>, rank: seq<int>, ghost k: int)
      requires Chained() && 1 <= k < |nodes| && target == nodes[k]
      requires Locates(update, rank, level) && AllCross(heights, towers, rank, k) && HasBacks()
      modifies nodes`level, this`towers
      ensures HasTowers() && HasBacks() && |heights| == |nodes| == |towers|
      ensures WellFormed(RemoveAt(nodes, k), RemoveAt(heights, k), RemoveAt(towers, k))
      ensures |target.level| > 0 && target.level[0].forward == Next(k)
    {
      assert LinkedAt(nodes, heights, towers, k, 0);
      UnlinkWellFormed(nodes, heights, towers, rank, k);
      UnlinkedTarget(heights, towers, rank, target, k);
      UnlinkLevels(target, update, rank, k);
    }

    method UnlinkLevels(target: SkipListNode, update: seq<SkipListNode>, rank: seq<int>, ghost k: int)
      requires Chained() && 1 <= k < |nodes| && target == nodes[k]
      requires Locates(update, rank, level) && AllCross(heights, towers, rank, k)
      modifies nodes`level, this`towers
      ensures HasTowers() && |rank| == MAX_LEVEL
      ensures towers == Unlinked(old(towers), rank, target, old(towers)[k], level)
    {
      ghost var was := towers;
      var i := 0;
      while i < level
        invariant 0 <= i <= level && HasTowers() && |towers| == |was| && target.level == was[k]
        invariant towers == Unlinked(was, rank, target, was[k], i)
      {
        UnlinkedAt(was, rank, target, was[k], i, rank[i]);
        LandsOnLevel(nodes, heights, was, rank, k, i);
        UnlinkLevel(target, update[i], rank[i], i, k);
        i := i + 1;
      }
    }

    method UnlinkLevel(target: SkipListNode, u: SkipListNode, ghost r: int, i: int, ghost k: int)
      requires HasTowers() && 0 <= r < k < |nodes| && u == nodes[r] && target == nodes[k]
      requires 0 <= i < |u.level| && (u.level[i].forward == target ==> i < |target.level|)
      modifies u`level, this`towers
      ensures HasTowers()
      ensures towers == Put(old(towers), r, i, Bypass(old(towers)[r][i], target, LinkOf(old(towers)[k], i)))
      ensures target.level == old(target.level)
    {
      if u.level[i].forward == target {
        SetLink(u, r, i, SkipListLevel(target.level[i].forward, u.level[i].span + target.level[i].span - 1));
      } else {
        SetLink(u, r, i, SkipListLevel(u.level[i].forward, u.level[i].span - 1));
      }
    }

    /** Drops position k from the ghost view. */
    ghost method Forget(k: int)
      requires HasTowers() && HasBacks() && 1 <= k < |nodes| == |heights|
      modifies this`towers, this`nodes, this`heights, this`backs
      ensures HasTowers() && HasBacks() && backs == RemoveAt(old(backs), k)
      ensures nodes == RemoveAt(old(nodes), k)
      ensures towers == RemoveAt(old(towers), k) && heights == RemoveAt(old(heights), k)
    {
      nodes := RemoveAt(nodes, k);
      towers := RemoveAt(towers, k);
      backs := RemoveAt(backs, k);
      heights := RemoveAt(heights, k);
    }

    /** Lowers `level` past levels that no node is on any more. */
    method LowerLevel()
      requires Chained() && Backs()
      modifies this`level, this`heights
      ensures Chained() && Backs() && Tallest(heights) && |heights| == old(|heights|)
      ensures heights[1..] == old(heights)[1..]
    {
      while level > 1 && header.level[level - 1].forward == null
        invariant Chained() && |heights| == old(|heights|) && heights[1..] == old(heights)[1..]
        decreases level
      {
        LowerWellFormed(nodes, heights, towers);
        level := level - 1;
        heights := heights[0 := level];
      }
      assert LinkedAt(nodes, heights, towers, 0, level - 1);
    }

    /** The node after position k on the bottom level. */
    ghost function Next(k: int): SkipListNode?
      requires 0 <= k < |nodes|
      reads this
    {
      if k + 1 < |nodes| then nodes[k + 1] else null
    }

    method SetBack(u: SkipListNode, ghost p: int, v: SkipListNode?)
      requires HasTowers() && HasBacks() && 0 <= p < |nodes| && u == nodes[p]
      modifies u`backward, this`backs
      ensures HasTowers() && HasBacks() && backs == old(backs)[p := v]
    {
      u.backward := v;
      backs := backs[p := v];
    }

    /** Backward pointers around the node that is about to leave position k. */
    method UnlinkBack(target: SkipListNode, ghost k: int)
      requires HasTowers() && HasBacks() && Mirrors(nodes, backs, tail) && 1 <= k < |nodes| && target == nodes[k]
      requires |target.level| > 0 && target.level[0].forward == Next(k)
      modifies this`tail, this`backs, nodes`backward
      ensures HasTowers() && HasBacks() && Mirrors(RemoveAt(nodes, k), RemoveAt(backs, k), tail)
    {
      RemoveMirrors(nodes, backs, tail, k);
      if target.level[0].forward != null {
        SetBack(target.level[0].forward, k + 1, target.backward);
      } else {
        tail := target.backward;
      }
    }

    /** Backward pointers around a node spliced in at position k. */
    method LinkBack(node: SkipListNode, pred: SkipListNode, ghost k: int)
      requires HasTowers() && HasBacks() && Mirrors(nodes, backs, tail)
      requires 1 <= k <= |nodes| && pred == nodes[k - 1] && node !in nodes
      requires |node.level| > 0 && node.level[0].forward == Next(k - 1)
      modifies this`tail, this`backs, nodes`backward, node`backward
      ensures HasTowers() && HasBacks()
      ensures Mirrors(InsertAt(nodes, k, node), InsertAt(backs, k, node.backward), tail)
    {
      InsertMirrors(nodes, backs, tail, k, node);
      node.backward := if pred == header then null else pred;
      assert node.backward == Previous(nodes, k) by { assert k > 1 ==> nodes[0] != nodes[k - 1]; }
      if node.level[0].forward != null {
        SetBack(node.level[0].forward, k, node);
      } else {
        tail := node;
      }
    }

    /** Backward pointers around the node that leaves position k, and the count. */
    method DropBack(target: SkipListNode, ghost k: int)
      requires HasTowers() && Backs() && 1 <= k < |nodes| == |heights| && target == nodes[k]
      requires |target.level| > 0 && target.level[0].forward == Next(k)
      modifies this`tail, this`length, this`backs, this`nodes, this`towers, this`heights, nodes`backward
      ensures HasTowers() && Backs() && k < |old(towers)|
      ensures nodes == RemoveAt(old(nodes), k) && towers == RemoveAt(old(towers), k)
      ensures heights == RemoveAt(old(heights), k)
    {
      UnlinkBack(target, k);
      Forget(k);
      length := length - 1;
    }

    /** Takes the node at position k out of the list; the dictionary is not touched. */
    method Detach(target: SkipListNode, update: seq<SkipListNode>, rank: seq<int>, ghost k: int)
      requires Chained() && Backs() && 1 <= k < |nodes| && target == nodes[k]
      requires Locates(update, rank, level) && AllCross(heights, towers, rank, k)
      modifies this`level, this`heights, this`tail, this`length, this`towers, this`nodes, this`backs, nodes
      ensures Chained() && Tallest(heights) && Backs() && k < old(|nodes|) && nodes == RemoveAt(old(nodes), k)
    {
      Unlink(target, update, rank, k);
      DropBack(target, k);
      LowerLevel();
    }

    /** Finds the node that holds e, at position k, and takes it out. */
    method Excise(e: ScoredMember, ghost k: int) returns (found: bool)
      requires Chained() && Backs() && Sorted(nodes) && 1 <= k < |nodes| && nodes[k].Item() == e
      modifies this`level, this`heights, this`tail, this`length, this`towers, this`nodes, this`backs, nodes
      ensures found && Chained() && Tallest(heights) && Backs() && k < old(|nodes|) && nodes == RemoveAt(old(nodes), k)
    {
      SplitAtMember(nodes, k);
      var update, rank := FindPredecessors(e, k);
      assert LinkedAt(nodes, heights, towers, k - 1, 0);
      var target := update[0].level[0].forward;
      found := target != null && target.Item() == e;
      if found {
        Detach(target, update, rank, k);
      }
    }

    /** Removes a member; false when it is not there. */
    method Delete(member: string) returns (found: bool)
      requires Valid()
      modifies this, nodes
      ensures Valid() && found == (member in old(dict)) && dict == old(dict) - {member}
      ensures forall p | 0 <= p < |nodes| :: nodes[p] in old(nodes)
    {
      if member !in dict {
        assert dict - {member} == dict;
        return false;
      }
      found := DeletePresent(member);
    }

    method DeletePresent(member: string) returns (found: bool)
      requires Valid() && member in dict
      modifies this, nodes
      ensures Valid() && found && dict == old(dict) - {member}
      ensures forall p | 0 <= p < |nodes| :: nodes[p] in old(nodes)
    {
      assert HasMember(nodes, member);
      ghost var k :| 1 <= k < |nodes| && nodes[k].member == member;
      RemoveWithin(nodes, k);
      found := DeleteAt(member, k);
    }

    method DeleteAt(member: string, ghost k: int) returns (found: bool)
      requires Valid() && 1 <= k < |nodes| && nodes[k].member == member && member in dict
      modifies this, nodes
      ensures Valid() && found && dict == old(dict) - {member}
      ensures k < |old(nodes)| && nodes == RemoveAt(old(nodes), k)
    {
      RemoveAgrees(nodes, dict, k);
      found := Excise(ScoredMember(member, dict[member]), k);
      if found {
        dict := dict - {member};
      }
    }

    /** Backward pointers around the node that arrives at position k, and the count. */
    method AddBack(node: SkipListNode, pred: SkipListNode, ghost k: int)
      requires HasTowers() && Backs() && 1 <= k <= |nodes| == |heights| && pred == nodes[k - 1] && node !in nodes
      requires |node.level| > 0 && node.level[0].forward == Next(k - 1)
      modifies this`tail, this`length, this`backs, this`nodes, this`towers, this`heights, nodes`backward, node`backward
      ensures HasTowers() && Backs() && node.level == old(node.level)
      ensures nodes == InsertAt(old(nodes), k, node) && k <= |old(towers)|
      ensures towers == InsertAt(old(towers), k, node.level) && heights == InsertAt(old(heights), k, |node.level|)
    {
      LinkBack(node, pred, k);
      Adopt(node, k, |node.level|);
      length := length + 1;
    }

    /** Puts a new node at position k; the dictionary is not touched. */
    method Attach(node: SkipListNode, update: seq<SkipListNode>, rank: seq<int>, ghost k: int)
      requires Chained() && Backs() && node !in nodes && 1 <= |node.level| <= level
      requires Locates(update, rank, level) && AllCross(heights, towers, rank, k) && rank[0] == k - 1
      modifies this`heights, this`tail, this`length, this`towers, this`nodes, this`backs, nodes, node
      ensures Chained() && Backs() && 1 <= k <= old(|nodes|) == old(|heights|) && nodes == InsertAt(old(nodes), k, node)
      ensures heights == InsertAt(old(heights), k, old(|node.level|)) && |node.level| == old(|node.level|)
    {
      Splice(node, update, rank, k);
      AddBack(node, update[0], k);
    }

    /** Finds the place of a member that is not in the list and puts a tower of lvl levels there. */
    method Place(e: ScoredMember, lvl: int, ghost k: int) returns (node: SkipListNode)
      requires Chained() && Tallest(heights) && Backs() && Splits(nodes, e, k) && 1 <= lvl <= MAX_LEVEL
      modifies this`level, this`heights, this`tail, this`length, this`towers, this`nodes, this`backs, nodes
      ensures Chained() && Tallest(heights) && Backs() && k <= old(|nodes|) && nodes == InsertAt(old(nodes), k, node)
      ensures fresh(node) && node.Item() == e && |node.level| == lvl
      ensures |old(heights)| == old(|nodes|) && heights == InsertAt(old(heights)[0 := level], k, lvl)
    {
      var update, rank := FindPredecessors(e, k);
      update, rank := RaiseLevel(lvl, update, rank, k);
      node := new SkipListNode(e.member, e.score, lvl);
      Attach(node, update, rank, k);
      InsertTallest(old(heights), k, lvl, level);
    }

    /** Insertion of a member that is not in the list. */
    method InsertNew(score: real, member: string, lvl: int) returns (node: SkipListNode, ghost k: int)
      requires Valid() && 1 <= lvl <= MAX_LEVEL && member !in dict
      modifies this, nodes
      ensures 1 <= k <= old(|nodes|) == old(|heights|) && nodes == InsertAt(old(nodes), k, node)
      ensures heights == InsertAt(old(heights)[0 := level], k, lvl)
      ensures Valid() && dict == old(dict)[member := score]
      ensures fresh(node) && node.Item() == ScoredMember(member, score) && |node.level| == lvl
    {
      k := SplitExists(nodes, ScoredMember(member, score));
      node := Place(ScoredMember(member, score), lvl, k);
      InsertAgrees(old(nodes), dict, k, node);
      dict := dict[member := score];
    }

    method InsertAbsent(score: real, member: string, lvl: int) returns (node: SkipListNode)
      requires Valid() && 1 <= lvl <= MAX_LEVEL && member !in dict
      modifies this, nodes
      ensures Valid() && dict == old(dict)[member := score]
      ensures fresh(node) && node in nodes && node.Item() == ScoredMember(member, score) && |node.level| == lvl
      ensures forall p | 0 <= p < |nodes| :: nodes[p] in old(nodes) || nodes[p] == node
    {
      ghost var k;
      node, k := InsertNew(score, member, lvl);
      InsertWithin(old(nodes), k, node);
    }

    /** Adds a member with a score, or moves it to a new score; lvl is the random tower height. */
    method Insert(score: real, member: string, lvl: int) returns (node: SkipListNode)
      requires Valid() && 1 <= lvl <= MAX_LEVEL
      modifies this, nodes
      ensures Valid() && dict == old(dict)[member := score]
      ensures fresh(node) && node in nodes && node.Item() == ScoredMember(member, score) && |node.level| == lvl
      ensures forall p | 0 <= p < |nodes| :: nodes[p] in old(nodes) || nodes[p] == node
    {
      if member in dict {
        var _ := Delete(member);
      }
      node := InsertAbsent(score, member, lvl);
    }

    /** The descent of GetRank on one level: as far as e, whose position is k. */
    method Advance(x0: SkipListNode, r0: int, i: int, e: ScoredMember, ghost k: int) returns (x: SkipListNode, r: int)
      requires Chained() && Sorted(nodes) && 1 <= k < |nodes| && nodes[k].Item() == e
      requires 0 <= r0 <= k && x0 == nodes[r0] && 0 <= i < heights[r0]
      ensures r0 <= r <= k && x == nodes[r] && i < heights[r] && i < |towers[r]|
      ensures Landing(heights, r, towers[r][i]) > k
      ensures r0 == 0 && i == level - 1 ==> (r == 0 <==> Landing(heights, 0, towers[0][i]) > k)
    {
      x, r := x0, r0;
      while x.level[i].forward != null &&
            (x.level[i].forward.Item() == e || Before(x.level[i].forward.Item(), e))
        invariant r0 <= r <= k && x == nodes[r] && i < heights[r]
        invariant r0 == 0 && i == level - 1 ==> (r == 0 || Landing(heights, 0, towers[0][i]) <= k)
        decreases |nodes| - r
      {
        assert LinkedAt(nodes, heights, towers, r, i);
        NotAfter(nodes, k, r + x.level[i].span);
        r := r + x.level[i].span;
        x := x.level[i].forward;
      }
      assert LinkedAt(nodes, heights, towers, r, i);
      if x.level[i].forward != null { NotAfter(nodes, k, r + x.level[i].span); }
    }

    /** The header's topmost link leads to an element that does not come after e. */
    ghost predicate TopLinkReaches(e: ScoredMember)
      requires Chained()
      reads this, nodes
    {
      var f := towers[0][level - 1].forward;
      f != null && (f.Item() == e || Before(f.Item(), e))
    }

    /**
     The 0-based rank of a member, or -1.  The descent stops as soon as the node it stands on carries
     the wanted member, and the header carries the empty one: for the empty member the answer is right
     exactly when the topmost level takes the descent off the header.
     */
    method GetRank(member: string) returns (rank: int)
      requires Valid()
      ensures member !in dict ==> rank == -1
      ensures member in dict ==>
        var e := ScoredMember(member, dict[member]);
        if member != [] || TopLinkReaches(e) then 0 <= rank < |Elements()| && Elements()[rank] == e
        else rank == -1
    {
      if member !in dict {
        return -1;
      }
      assert HasMember(nodes, member);
      ghost var k :| 1 <= k < |nodes| && nodes[k].member == member;
      var found, r := Descend(ScoredMember(member, dict[member]), k);
      rank := if found then r - 1 else -1;
    }

    /** The descent of GetRank for e, whose position is k: it stops on e's node, or on the header. */
    method Descend(e: ScoredMember, ghost k: int) returns (found: bool, r: int)
      requires Chained() && Sorted(nodes) && Agrees(nodes, dict)
      requires 1 <= k < |nodes| && nodes[k].Item() == e
      ensures found && r == if e.member != [] || TopLinkReaches(e) then k else 0
    {
      TopLink(e, k);
      var x, i := header, level;
      found, r := false, 0;
      while i > 0 && !found
        invariant 0 <= i <= level && 0 <= r <= k && x == nodes[r] && (!found ==> 0 < i <= heights[r])
        invariant i == level ==> r == 0
        invariant i < level && r == 0 ==> !TopLinkReaches(e)
        invariant found ==> r == if e.member != [] || TopLinkReaches(e) then k else 0
        invariant !found && i < level ==> e.member != [] || TopLinkReaches(e)
      {
        i := i - 1;
        x, r := Advance(x, r, i, e, k);
        if 0 < r < k { MembersDiffer(nodes, dict, r, k); }
        found := x.member == e.member;
        if i == 0 {
          assert LinkedAt(nodes, heights, towers, r, 0);
          assert r + 1 < |heights| ==> heights[r + 1] >= 1;
        }
      }
    }

    lemma TopLink(e: ScoredMember, k: int)
      requires Chained() && Sorted(nodes) && 1 <= k < |nodes| && nodes[k].Item() == e
      ensures TopLinkReaches(e) <==> Landing(heights, 0, towers[0][level - 1]) <= k
    {
      assert LinkedAt(nodes, heights, towers, 0, level - 1);
      var lv := towers[0][level - 1];
      if lv.forward != null { NotAfter(nodes, k, lv.span); }
    }

    /** The node at a 1-based rank; rank 0 is the header, and there is nothing beyond `length`. */
    method GetElementByRank(rank: nat) returns (x: SkipListNode?)
      requires Chained()
      ensures x == if rank < |nodes| then nodes[rank] else null
    {
      var traversed, i, found := 0, level, false;
      var n := header;
      while i > 0 && !found
        invariant 0 <= i <= level && 0 <= traversed <= rank && traversed < |nodes| && n == nodes[traversed]
        invariant !found ==> i <= heights[traversed]
        invariant found ==> traversed == rank
        invariant i == 0 && !found ==> rank >= |nodes|
      {
        i := i - 1;
        while n.level[i].forward != null && traversed + n.level[i].span <= rank
          invariant 0 <= traversed <= rank && traversed < |nodes| && n == nodes[traversed] && i < heights[traversed]
          decreases |nodes| - traversed
        {
          assert LinkedAt(nodes, heights, towers, traversed, i);
          traversed := traversed + n.level[i].span;
          n := n.level[i].forward;
        }
        found := traversed == rank;
        assert LinkedAt(nodes, heights, towers, traversed, i);
        assert traversed + 1 < |heights| ==> heights[traversed + 1] >= 1;
      }
      x := if found then n else null;
    }

    /** Looking a member up by its own rank finds its node. */
    method RankRoundTrip(member: string) returns (x: SkipListNode?)
      requires Valid() && member in dict && member != []
      ensures x != null && x in nodes && x.Item() == ScoredMember(member, dict[member])
    {
      var rank := GetRank(member);
      x := GetElementByRank(rank + 1);
      assert Elements()[rank] == nodes[rank + 1].Item();
    }

    /** Elements by rank interval, counted from either end; negative indexes count from the other end. */
    method Range(start: int, stop: int, reverse: bool) returns (results: seq<ScoredMember>)
      requires Valid()
      ensures results == RankInterval(if reverse then Reversed(Elements()) else Elements(), start, stop)
    {
      var lo, hi := Clamp(start, stop);
      if lo > hi {
        results := [];
      } else if !reverse {
        results := Collect(lo, hi);
      } else {
        results := CollectBack(lo, hi);
      }
      RankIntervalIsSlice(if reverse then Reversed(Elements()) else Elements(), start, stop, lo, hi);
    }

    /** The index interval in terms of 0..length-1; empty when lo > hi. */
    method Clamp(start: int, stop: int) returns (lo: int, hi: int)
      requires length >= 0
      ensures Clamped(length, start, stop, lo, hi)
    {
      if length == 0 {
        return 0, -1;
      }
      lo := if start < 0 then length + start else start;
      hi := if stop < 0 then length + stop else stop;
      if lo < 0 { lo := 0; }
      if hi >= length { hi := length - 1; }
      if lo > hi || lo >= length {
        return 0, -1;
      }
    }

    method Collect(start: int, stop: int) returns (results: seq<ScoredMember>)
      requires Chained() && 0 <= start <= stop < |Elements()|
      ensures results == Elements()[start..stop + 1]
    {
      results := [];
      var node := GetElementByRank(start + 1);
      var i := start;
      while i <= stop && node != null
        invariant start <= i <= stop + 1 && results == Elements()[start..i]
        invariant node == Next(i)
      {
        BottomNext(nodes, heights, towers, i + 1);
        assert node.Item() == Elements()[i];
        results := results + [node.Item()];
        node := node.level[0].forward;
        i := i + 1;
      }
    }

    method CollectBack(start: int, stop: int) returns (results: seq<ScoredMember>)
      requires Chained() && Backs() && 0 <= start <= stop < |Elements()|
      ensures results == Reversed(Elements())[start..stop + 1]
    {
      ghost var es := Reversed(Elements());
      results := [];
      var node := GetElementByRank(length - start);
      var i := start;
      while i <= stop && node != null
        invariant start <= i <= stop + 1 && results == es[start..i]
        invariant node == if i < length then nodes[length - i] else null
      {
        assert backs[length - i] == Previous(nodes, length - i);
        assert node.Item() == Elements()[length - 1 - i] == es[i];
        results := results + [node.Item()];
        node := node.backward;
        i := i + 1;
      }
    }

    /** The list is the one strictly sorted arrangement of the dictionary's pairs. */
    lemma ElementsAreDictInOrder()
      requires Valid()
      ensures StrictlySorted(Elements()) && |Elements()| == length
      ensures forall e :: e in Elements() <==> e.member in dict && dict[e.member] == e.score
      ensures forall p, q | 0 <= p < q < |Elements()| :: Elements()[p].score <= Elements()[q].score
      ensures forall p, q | 0 <= p < q < |Elements()| && Elements()[p].score == Elements()[q].score ::
        Less(Elements()[p].member, Elements()[q].member)
    {
      forall e: ScoredMember | e.member in dict && dict[e.member] == e.score ensures e in Elements() {
        assert HasMember(nodes, e.member);
        var p :| 1 <= p < |nodes| && nodes[p].member == e.member;
        assert Elements()[p - 1] == nodes[p].Item();
      }
      forall e | e in Elements() ensures e.member in dict && dict[e.member] == e.score {
        var p :| 0 <= p < |Elements()| && Elements()[p] == e;
        assert nodes[p + 1].Item() == e;
      }
      forall p, q | 0 <= p < q < |Elements()| ensures Before(Elements()[p], Elements()[q]) {
        assert Before(nodes[p + 1].Item(), nodes[q + 1].Item());
      }
    }

    /** Following the links of level i from the header visits exactly the towers higher than i, in order. */
    lemma LevelIsSublist(i: int)
      requires Valid() && 0 <= i < level
      ensures Walk(nodes, heights, towers, 0, i) == HigherThan(heights, 0, i)
    {
      WalkIsFilter(nodes, heights, towers, 0, i);
    }
  }

  /** The empty member, though present, is not found once a taller tower stands behind it. */
  method RankOfEmptyMemberFails() returns (sl: SkipList, rank: int)
    ensures sl.Valid() && sl.dict == map["" := 1.0, "x" := 2.0] && rank == -1
  {
    sl := new SkipList();
    var a, b;
    ghost var k, m;
    a, k := sl.InsertNew(1.0, [], 1);
    b, m := sl.InsertNew(2.0, "x", 2);
    assert sl.nodes[if m == 1 then 2 else 1] == a && sl.nodes[m] == b;
    assert sl.level == 2;
    assert LinkedAt(sl.nodes, sl.heights, sl.towers, 0, 1);
    rank := sl.GetRank([]);
  }

  // ---------------------------------------------------------------------------
  // The sorted sequence the list stands for.
  // ---------------------------------------------------------------------------

  /** A set of pairs has only one strictly sorted arrangement. */
  lemma {:induction false} SortedArrangementIsUnique(a: seq<ScoredMember>, b: seq<ScoredMember>)
    requires StrictlySorted(a) && StrictlySorted(b)
    requires forall e :: e in a <==> e in b
    ensures a == b
  {
    assert a != [] ==> a[0] in b;
    assert b != [] ==> b[0] in a;
    if a != [] && b != [] {
      var x, y := a[|a| - 1], b[|b| - 1];
      LastIsGreatest(a, y);
      LastIsGreatest(b, x);
      BeforeIsStrictTotalOrder(x, y, x);
      var a', b' := a[..|a| - 1], b[..|b| - 1];
      forall e ensures e in a' <==> e in b' {
        WithoutLast(a, e);
        WithoutLast(b, e);
      }
      SortedArrangementIsUnique(a', b');
      assert a == a' + [x] && b == b' + [y];
    }
  }

  lemma LastIsGreatest(a: seq<ScoredMember>, e: ScoredMember)
    requires StrictlySorted(a) && e in a
    ensures e == a[|a| - 1] || Before(e, a[|a| - 1])
  {
  }

  lemma WithoutLast(a: seq<ScoredMember>, e: ScoredMember)
    requires StrictlySorted(a) && a != []
    ensures e in a[..|a| - 1] <==> e in a && e != a[|a| - 1]
  {
    BeforeIsStrictTotalOrder(e, e, e);
    if e in a[..|a| - 1] {
      var p :| 0 <= p < |a| - 1 && a[p] == e;
      assert Before(a[p], a[|a| - 1]);
    }
  }

  /** The position of an element counts the elements that precede it. */
  lemma {:induction false} RankCountsSmaller(es: seq<ScoredMember>, r: int)
    requires StrictlySorted(es) && 0 <= r < |es|
    ensures |set e | e in es && Before(e, es[r])| == r
  {
    var smaller := set e | e in es && Before(e, es[r]);
    forall p | 0 <= p < |es| ensures es[p] in smaller <==> p < r {
      BeforeIsStrictTotalOrder(es[p], es[r], es[p]);
    }
    var prefix := set e | e in es[..r];
    assert forall e | e in smaller :: e in es[..r];
    assert smaller == prefix;
    DistinctCount(es[..r]);
  }

  lemma {:induction false} DistinctCount(s: seq<ScoredMember>)
    requires StrictlySorted(s)
    ensures |set e | e in s| == |s|
  {
    if s != [] {
      var s', x := s[..|s| - 1], s[|s| - 1];
      DistinctCount(s');
      WithoutLast(s, x);
      assert (set e | e in s) == (set e | e in s') + {x};
    }
  }

  // ---------------------------------------------------------------------------
  // Levels as sublists.
  // ---------------------------------------------------------------------------

  /** The positions met from p on when following level-i links. */
  ghost function Walk(nodes: seq<SkipListNode>, h: seq<int>, towers: seq<seq<SkipListLevel>>, p: int, i: int): seq<int>
    requires AllLinked(nodes, h, towers) && 0 <= p <= |h| && 0 <= i && (p < |h| ==> i < h[p])
    decreases |h| - p
  {
    if p == |h| then []
    else
      assert LinkedAt(nodes, h, towers, p, i);
      [p] + Walk(nodes, h, towers, Landing(h, p, towers[p][i]), i)
  }

  /** The positions from p on whose tower is higher than i. */
  ghost function HigherThan(h: seq<int>, p: int, i: int): seq<int>
    requires 0 <= p <= |h|
    decreases |h| - p
  {
    if p == |h| then [] else (if h[p] > i then [p] else []) + HigherThan(h, p + 1, i)
  }

  lemma {:induction false} SkipLower(h: seq<int>, p: int, q: int, i: int)
    requires 0 <= p <= q <= |h| && forall r | p <= r < q :: h[r] <= i
    ensures HigherThan(h, p, i) == HigherThan(h, q, i)
    decreases q - p
  {
    if p < q { SkipLower(h, p + 1, q, i); }
  }

  lemma {:induction false} WalkIsFilter(nodes: seq<SkipListNode>, h: seq<int>, towers: seq<seq<SkipListLevel>>, p: int,
                                        i: int)
    requires AllLinked(nodes, h, towers) && 0 <= p <= |h| && 0 <= i && (p < |h| ==> i < h[p])
    ensures Walk(nodes, h, towers, p, i) == HigherThan(h, p, i)
    decreases |h| - p
  {
    if p < |h| {
      assert LinkedAt(nodes, h, towers, p, i);
      var q := Landing(h, p, towers[p][i]);
      assert Walk(nodes, h, towers, p, i) == [p] + Walk(nodes, h, towers, q, i);
      WalkIsFilter(nodes, h, towers, q, i);
      SkipLower(h, p + 1, q, i);
      assert HigherThan(h, p, i) == [p] + HigherThan(h, p + 1, i);
    }
  }

  function Reversed<T>(s: seq<T>): (r: seq<T>)
    ensures |r| == |s| && forall i | 0 <= i < |s| :: r[i] == s[|s| - 1 - i]
  {
    seq(|s|, i requires 0 <= i < |s| => s[|s| - 1 - i])
  }

  /** A position counted from the end when it is negative. */
  function FromEnd(n: int, i: int): int {
    if i < 0 then i + n else i
  }

  function Max(a: int, b: int): int { if a >= b then a else b }

  function Min(a: int, b: int): int { if a <= b then a else b }

  /** The elements of s whose position p satisfies a <= p <= b. */
  function Between<T>(s: seq<T>, a: int, b: int): seq<T> {
    if s == [] then []
    else
      var p := |s| - 1;
      Between(s[..p], a, b) + if a <= p <= b then [s[p]] else []
  }

  lemma {:induction false} BetweenIsSlice<T>(s: seq<T>, a: int, b: int)
    ensures Between(s, a, b) ==
            var lo, hi := Max(a, 0), Min(b, |s| - 1); if lo <= hi then s[lo..hi + 1] else []
  {
    if s != [] { BetweenIsSlice(s[..|s| - 1], a, b); }
  }

  /** The elements between two positions, each counted from the end when it is negative. */
  function RankInterval<T>(s: seq<T>, start: int, stop: int): seq<T> {
    Between(s, FromEnd(|s|, start), FromEnd(|s|, stop))
  }

  /** lo..hi is the interval cut down to 0..n-1, or empty. */
  ghost predicate Clamped(n: int, start: int, stop: int, lo: int, hi: int) {
    var a, b := Max(FromEnd(n, start), 0), Min(FromEnd(n, stop), n - 1);
    if a <= b then lo == a && hi == b else lo > hi
  }

  lemma RankIntervalIsSlice<T>(s: seq<T>, start: int, stop: int, lo: int, hi: int)
    requires Clamped(|s|, start, stop, lo, hi)
    ensures RankInterval(s, start, stop) == if lo <= hi then s[lo..hi + 1] else []
  {
    BetweenIsSlice(s, FromEnd(|s|, start), FromEnd(|s|, stop));
  }
}

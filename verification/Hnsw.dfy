/**
 The HNSW graph index: best-first search of one layer with two heaps, greedy descent,
 insertion with pruning, deletion.  Distances are reals; the metric, the random level
 and the iteration order of Go maps are parameters or open choices.
 */
module Hnsw {
  import opened Sets

  type Vec = seq<real>

  datatype Node = Node(vec: Vec, level: int, neighbors: seq<seq<string>>)

  type Graph = map<string, Node>

  datatype DistItem = DistItem(id: string, dist: real)

  /** The neighbours of a live node on a layer; none above its top layer. */
  function NeighborsOf(g: Graph, id: string, level: nat): seq<string>
    requires id in g
  {
    if level < |g[id].neighbors| then g[id].neighbors[level] else []
  }

  /** A set of live nodes that no link to a live node leaves. */
  ghost predicate Closed(g: Graph, level: nat, s: set<string>) {
    && s <= g.Keys
    && forall id, n | id in s && n in NeighborsOf(g, id, level) && n in g :: n in s
  }

  // ---------------------------------------------------------------------------
  // Heaps and sorting, by what the Go library promises.
  // ---------------------------------------------------------------------------

  ghost predicate IsMin(h: set<DistItem>, x: DistItem) {
    x in h && forall y | y in h :: x.dist <= y.dist
  }

  ghost predicate IsMax(h: set<DistItem>, x: DistItem) {
    x in h && forall y | y in h :: y.dist <= x.dist
  }

  /** `heap.Pop` on the min-heap: some nearest item. */
  method PeekMin(h: set<DistItem>) returns (x: DistItem)
    requires h != {}
    ensures IsMin(h, x)
  {
    var best: DistItem :| best in h;
    var rest := h - {best};
    while rest != {}
      invariant best in h && rest <= h && forall y | y in h && y !in rest :: best.dist <= y.dist
    {
      var y :| y in rest;
      if y.dist < best.dist {
        best := y;
      }
      rest := rest - {y};
    }
    x := best;
  }

  /** The top of the max-heap: some farthest item. */
  method PeekMax(h: set<DistItem>) returns (x: DistItem)
    requires h != {}
    ensures IsMax(h, x)
  {
    var best: DistItem :| best in h;
    var rest := h - {best};
    while rest != {}
      invariant best in h && rest <= h && forall y | y in h && y !in rest :: best.dist >= y.dist
    {
      var y :| y in rest;
      if y.dist > best.dist {
        best := y;
      }
      rest := rest - {y};
    }
    x := best;
  }

  ghost predicate Ascending(s: seq<DistItem>) {
    forall i, j | 0 <= i < j < |s| :: s[i].dist <= s[j].dist
  }

  /** `sort.Slice` by distance over the items of a heap: in some order consistent with it, each item once. */
  method SortByDist(h: set<DistItem>) returns (s: seq<DistItem>)
    ensures Ascending(s) && |s| == |h| && (forall x :: x in s <==> x in h)
    ensures forall i, j | 0 <= i < j < |s| :: s[i] != s[j]
  {
    s := [];
    var rest := h;
    while rest != {}
      invariant rest <= h && |s| + |rest| == |h|
      invariant Ascending(s) && forall x | x in s, y | y in rest :: x.dist <= y.dist
      invariant forall x :: x in h <==> x in s || x in rest
      invariant forall x | x in s :: x !in rest
      invariant forall i, j | 0 <= i < j < |s| :: s[i] != s[j]
    {
      var x := PeekMin(rest);
      s := s + [x];
      rest := rest - {x};
    }
  }

  // ---------------------------------------------------------------------------
  // Search of one layer.
  // ---------------------------------------------------------------------------

  /** A node as a search item: its distance to the target. */
  function ItemOf(g: Graph, dist: Vec -> real, id: string): DistItem
    requires id in g
  {
    DistItem(id, dist(g[id].vec))
  }

  ghost predicate ItemsOf(g: Graph, dist: Vec -> real, seen: set<string>, items: set<DistItem>) {
    forall x | x in items :: x.id in seen && x.id in g && x == ItemOf(g, dist, x.id)
  }

  function Max(a: int, b: int): int { if a >= b then a else b }

  /** w holds the `width` nearest of the nodes seen: all of them, or `width` with none nearer left out. */
  ghost predicate Nearest(g: Graph, dist: Vec -> real, seen: set<string>, w: set<DistItem>, width: int) {
    && ItemsOf(g, dist, seen, w) && |w| <= width
    && forall id | id in seen && id in g && ItemOf(g, dist, id) !in w ::
      |w| == width && forall y | y in w :: y.dist <= dist(g[id].vec)
  }

  /** Every set closed on the layer that holds the entry point holds all of seen. */
  ghost predicate WithinClosed(g: Graph, level: nat, entry: string, seen: set<string>) {
    forall t: set<string> | Closed(g, level, t) && entry in t :: seen <= t
  }

  /** The neighbours of id have all been visited. */
  predicate Expanded(g: Graph, level: nat, visited: set<string>, id: string) {
    id in g ==> forall n | n in NeighborsOf(g, id, level) :: n in visited
  }

  /** One neighbour: it enters the heaps when it beats the worst result or there is room. */
  method Consider(g: Graph, dist: Vec -> real, n: string, ef: int, seen: set<string>,
                  v: set<DistItem>, w: set<DistItem>)
    returns (v': set<DistItem>, w': set<DistItem>)
    requires n in g && n !in seen && seen <= g.Keys && w != {}
    requires ItemsOf(g, dist, seen, v) && Nearest(g, dist, seen, w, Max(ef, 1))
    ensures ItemsOf(g, dist, seen + {n}, v') && Nearest(g, dist, seen + {n}, w', Max(ef, 1)) && w' != {}
    ensures v' == v || (v' == v + {ItemOf(g, dist, n)} && |v'| == |v| + 1)
    ensures |w| < Max(ef, 1) ==> v' == v + {ItemOf(g, dist, n)} && w' == w + {ItemOf(g, dist, n)}
    ensures w' <= w + v'
  {
    var x := ItemOf(g, dist, n);
    var worst := PeekMax(w);
    if x.dist < worst.dist || |w| < ef {
      v', w' := v + {x}, w + {x};
      assert x !in v && x !in w;
      if |w'| > ef {
        var top := PeekMax(w');
        w' := w' - {top};
      }
    } else {
      v', w' := v, w;
    }
  }

  /** The state of a layer search between two pops. */
  ghost predicate Searching(g: Graph, dist: Vec -> real, entry: string, ef: int, level: nat,
                            visited: set<string>, v: set<DistItem>, w: set<DistItem>)
  {
    && entry in visited && w != {}
    && ItemsOf(g, dist, visited * g.Keys, v) && Nearest(g, dist, visited * g.Keys, w, Max(ef, 1))
    && WithinClosed(g, level, entry, visited * g.Keys)
  }

  /** Every node visited since is in the queue. */
  ghost predicate Queued(g: Graph, dist: Vec -> real, visited: set<string>, v: set<DistItem>,
                         visited': set<string>, v': set<DistItem>)
  {
    forall id | id in visited' && id in g && ItemOf(g, dist, id) !in v' :: id in visited && ItemOf(g, dist, id) !in v
  }

  /** What a stretch of the search does to the visited nodes and the queue. */
  ghost predicate Grown(g: Graph, dist: Vec -> real, ef: int, visited: set<string>, v: set<DistItem>,
                        visited': set<string>, v': set<DistItem>)
  {
    && visited <= visited' && v <= v'
    && |g.Keys - visited'| + |v'| <= |g.Keys - visited| + |v|
    && (|visited' * g.Keys| <= Max(ef, 1) ==> Queued(g, dist, visited, v, visited', v'))
  }

  lemma GrownTransitive(g: Graph, dist: Vec -> real, ef: int, a: set<string>, va: set<DistItem>,
                        b: set<string>, vb: set<DistItem>, c: set<string>, vc: set<DistItem>)
    requires Grown(g, dist, ef, a, va, b, vb) && Grown(g, dist, ef, b, vb, c, vc)
    ensures Grown(g, dist, ef, a, va, c, vc)
  {
    SubsetSize(b * g.Keys, c * g.Keys);
  }

  /** There are at most as many items as nodes they stand for. */
  lemma {:induction false} ItemsBounded(g: Graph, dist: Vec -> real, seen: set<string>, items: set<DistItem>)
    requires ItemsOf(g, dist, seen, items)
    ensures |items| <= |seen|
    decreases items
  {
    if items != {} {
      var x :| x in items;
      ItemsBounded(g, dist, seen - {x.id}, items - {x});
    }
  }

  lemma WithinClosedStep(g: Graph, level: nat, entry: string, curr: string, n: string, seen: set<string>)
    requires WithinClosed(g, level, entry, seen) && curr in seen && curr in g && n in NeighborsOf(g, curr, level)
    requires n in g
    ensures WithinClosed(g, level, entry, seen + {n})
  {
  }

  /** One neighbour n of curr that has not been visited. */
  method VisitNeighbor(g: Graph, dist: Vec -> real, ghost entry: string, ef: int, level: nat, ghost curr: string,
                       n: string, visited: set<string>, v: set<DistItem>, w: set<DistItem>)
    returns (v': set<DistItem>, w': set<DistItem>)
    requires curr in g && curr in visited && n in NeighborsOf(g, curr, level) && n !in visited
    requires Searching(g, dist, entry, ef, level, visited, v, w)
    ensures Searching(g, dist, entry, ef, level, visited + {n}, v', w')
    ensures Grown(g, dist, ef, visited, v, visited + {n}, v') && w' <= w + v'
  {
    ghost var seen := visited * g.Keys;
    if n in g {
      ItemsBounded(g, dist, seen, w);
      WithinClosedStep(g, level, entry, curr, n, seen);
      assert (visited + {n}) * g.Keys == seen + {n};
      assert g.Keys - (visited + {n}) == (g.Keys - visited) - {n};
      v', w' := Consider(g, dist, n, ef, visited * g.Keys, v, w);
    } else {
      assert (visited + {n}) * g.Keys == seen;
      assert g.Keys - (visited + {n}) == g.Keys - visited;
      v', w' := v, w;
    }
  }

  /** All of one node's neighbours; curr has already left the queue. */
  method ExpandNode(g: Graph, dist: Vec -> real, ghost entry: string, ef: int, level: nat, curr: string,
                    visited: set<string>, v: set<DistItem>, w: set<DistItem>)
    returns (visited': set<string>, v': set<DistItem>, w': set<DistItem>)
    requires curr in g && curr in visited && Searching(g, dist, entry, ef, level, visited, v, w)
    ensures Searching(g, dist, entry, ef, level, visited', v', w')
    ensures Grown(g, dist, ef, visited, v, visited', v') && w' <= w + v' && Expanded(g, level, visited', curr)
  {
    visited', v', w' := visited, v, w;
    var list := NeighborsOf(g, curr, level);
    var i := 0;
    while i < |list|
      invariant 0 <= i <= |list| && curr in visited'
      invariant Searching(g, dist, entry, ef, level, visited', v', w')
      invariant Grown(g, dist, ef, visited, v, visited', v') && w' <= w + v'
      invariant FirstIn(list, i, visited')
    {
      var n := list[i];
      FirstInNext(list, i, visited');
      i := i + 1;
      if n !in visited' {
        visited', v', w' := VisitNext(g, dist, entry, ef, level, curr, n, visited', v', w', visited, v, w);
      }
    }
  }

  ghost predicate FirstIn(list: seq<string>, i: int, visited: set<string>) {
    0 <= i <= |list| && forall j | 0 <= j < i :: list[j] in visited
  }

  lemma FirstInNext(list: seq<string>, i: int, visited: set<string>)
    requires FirstIn(list, i, visited) && i < |list|
    ensures FirstIn(list, i + 1, visited + {list[i]})
  {
  }

  method VisitNext(g: Graph, dist: Vec -> real, ghost entry: string, ef: int, level: nat, ghost curr: string,
                   n: string, visited: set<string>, v: set<DistItem>, w: set<DistItem>,
                   ghost visited0: set<string>, ghost v0: set<DistItem>, ghost w0: set<DistItem>)
    returns (visited': set<string>, v': set<DistItem>, w': set<DistItem>)
    requires curr in g && curr in visited && n in NeighborsOf(g, curr, level) && n !in visited
    requires Searching(g, dist, entry, ef, level, visited, v, w) && Grown(g, dist, ef, visited0, v0, visited, v)
    requires w <= w0 + v
    ensures visited' == visited + {n} && Searching(g, dist, entry, ef, level, visited', v', w')
    ensures Grown(g, dist, ef, visited0, v0, visited', v') && w' <= w0 + v'
  {
    v', w' := VisitNeighbor(g, dist, entry, ef, level, curr, n, visited, v, w);
    visited' := visited + {n};
    GrownTransitive(g, dist, ef, visited0, v0, visited, v, visited', v');
  }

  /** While no more nodes were seen than fit, every node that has left the queue has had its neighbours visited. */
  ghost predicate Processed(g: Graph, dist: Vec -> real, ef: int, level: nat, visited: set<string>, v: set<DistItem>) {
    |visited * g.Keys| <= Max(ef, 1) ==>
      forall id | id in visited && id in g && ItemOf(g, dist, id) !in v :: Expanded(g, level, visited, id)
  }

  lemma ProcessedNext(g: Graph, dist: Vec -> real, ef: int, level: nat, visited: set<string>, v: set<DistItem>,
                      curr: DistItem, visited': set<string>, v': set<DistItem>)
    requires Processed(g, dist, ef, level, visited, v) && curr in v && ItemsOf(g, dist, visited * g.Keys, v)
    requires Grown(g, dist, ef, visited, v - {curr}, visited', v') && Expanded(g, level, visited', curr.id)
    ensures Processed(g, dist, ef, level, visited', v')
  {
    SubsetSize(visited * g.Keys, visited' * g.Keys);
    if |visited' * g.Keys| <= Max(ef, 1) {
      forall id | id in visited' && id in g && ItemOf(g, dist, id) !in v' ensures Expanded(g, level, visited', id) {
        if id != curr.id {
          assert id in visited && ItemOf(g, dist, id) !in v;
        }
      }
    }
  }

  /** Every result is still queued or has had its neighbours visited. */
  ghost predicate Frontier(g: Graph, level: nat, visited: set<string>, v: set<DistItem>, w: set<DistItem>) {
    forall x | x in w && x !in v :: Expanded(g, level, visited, x.id)
  }

  lemma FrontierNext(g: Graph, level: nat, visited: set<string>, v: set<DistItem>, w: set<DistItem>,
                     curr: DistItem, visited': set<string>, v': set<DistItem>, w': set<DistItem>)
    requires Frontier(g, level, visited, v, w) && visited <= visited' && v - {curr} <= v' && w' <= w + v'
    requires Expanded(g, level, visited', curr.id)
    ensures Frontier(g, level, visited', v', w')
  {
    forall x | x in w' && x !in v' ensures Expanded(g, level, visited', x.id) {
      if x != curr { assert Expanded(g, level, visited, x.id); }
    }
  }

  /** While no more nodes were seen than fit, they are all among the results. */
  lemma AllSeenKept(g: Graph, dist: Vec -> real, seen: set<string>, w: set<DistItem>, width: int, id: string)
    requires Nearest(g, dist, seen, w, width) && |seen| <= width && id in seen && id in g
    ensures ItemOf(g, dist, id) in w
  {
    if ItemOf(g, dist, id) !in w {
      ItemsBounded(g, dist, seen - {id}, w);
    }
  }

  ghost function ItemSet(s: seq<DistItem>): set<DistItem> {
    set x | x in s
  }

  /**
   What a layer search returns: the nearest of the nodes it saw, in order of distance.  It saw the
   neighbours of every result, only nodes that can be reached, and all of these when they fit.
   */
  ghost predicate LayerResult(g: Graph, dist: Vec -> real, entry: string, ef: int, level: nat,
                              seen: set<string>, res: seq<DistItem>)
  {
    && Ascending(res) && (forall i, j | 0 <= i < j < |res| :: res[i].id != res[j].id)
    && entry in seen && seen <= g.Keys
    && Nearest(g, dist, seen, ItemSet(res), Max(ef, 1)) && |ItemSet(res)| == |res| > 0
    && WithinClosed(g, level, entry, seen)
    && (forall x, n | x in res && x.id in g && n in NeighborsOf(g, x.id, level) && n in g :: n in seen)
    && (|seen| <= Max(ef, 1) ==> Closed(g, level, seen))
  }

  /** `seen` records the live nodes visited. */
  method SearchLayer(g: Graph, dist: Vec -> real, entry: string, ef: int, level: nat)
    returns (res: seq<DistItem>, ghost seen: set<string>)
    ensures entry !in g ==> res == []
    ensures entry in g ==> LayerResult(g, dist, entry, ef, level, seen, res)
  {
    if entry !in g {
      return [], {};
    }
    var visited, w;
    visited, w := Explore(g, dist, entry, ef, level);
    seen := visited * g.Keys;
    res := SortByDist(w);
    assert ItemSet(res) == w;
  }

  /** A search at least as wide as what can be reached from the entry returns exactly that. */
  lemma ReturnsReachable(g: Graph, dist: Vec -> real, entry: string, ef: int, level: nat,
                         seen: set<string>, res: seq<DistItem>, reachable: set<string>)
    requires LayerResult(g, dist, entry, ef, level, seen, res)
    requires Closed(g, level, reachable) && entry in reachable && WithinClosed(g, level, entry, reachable)
    requires |reachable| <= ef
    ensures forall id :: id in reachable <==> exists x :: x in res && x.id == id
  {
    SubsetSize(seen, reachable);
    assert seen == reachable;
    forall id ensures id in reachable <==> exists x :: x in res && x.id == id {
      if id in reachable {
        AllSeenKept(g, dist, seen, ItemSet(res), Max(ef, 1), id);
        assert ItemOf(g, dist, id) in res;
      }
      if x :| x in res && x.id == id {
        assert x in ItemSet(res);
      }
    }
  }

  method Explore(g: Graph, dist: Vec -> real, entry: string, ef: int, level: nat)
    returns (visited: set<string>, w: set<DistItem>)
    requires entry in g
    ensures Searching(g, dist, entry, ef, level, visited, {}, w) && Frontier(g, level, visited, {}, w)
    ensures |visited * g.Keys| <= Max(ef, 1) ==> Closed(g, level, visited * g.Keys)
  {
    var v := {ItemOf(g, dist, entry)};
    visited, w := {entry}, v;
    var stop := false;
    assert visited * g.Keys == {entry};
    while v != {} && !stop
      invariant Searching(g, dist, entry, ef, level, visited, v, w)
      invariant !stop ==> Processed(g, dist, ef, level, visited, v)
      invariant stop ==> |visited * g.Keys| > Max(ef, 1) && v !! w
      invariant Frontier(g, level, visited, v, w)
      decreases !stop, |g.Keys - visited| + |v|
    {
      var curr := PeekMin(v);
      var worst := PeekMax(w);
      if curr.dist > worst.dist {
        if |visited * g.Keys| <= Max(ef, 1) { AllSeenKept(g, dist, visited * g.Keys, w, Max(ef, 1), curr.id); }
        stop := true;
      } else {
        ghost var before, vb, wb := visited, v, w;
        v := v - {curr};
        visited, v, w := ExpandNode(g, dist, entry, ef, level, curr.id, visited, v, w);
        ProcessedNext(g, dist, ef, level, before, vb, curr, visited, v);
        FrontierNext(g, level, before, vb, wb, curr, visited, v, w);
      }
    }
  }

  // ---------------------------------------------------------------------------
  // Greedy descent.
  // ---------------------------------------------------------------------------

  /** The live nodes nearer than a bound; shrinks with every improvement, so the descent ends. */
  ghost function Nearer(g: Graph, dist: Vec -> real, bound: real): set<string> {
    set id | id in g && dist(g[id].vec) < bound
  }

  /** A node that can be reached on the layer, no farther than the start, and none of whose neighbours is nearer. */
  ghost predicate Settles(g: Graph, dist: Vec -> real, start: string, level: nat, curr: string) {
    && start in g && curr in g && dist(g[curr].vec) <= dist(g[start].vec) && WithinClosed(g, level, start, {curr})
    && forall n | n in NeighborsOf(g, curr, level) && n in g :: dist(g[curr].vec) <= dist(g[n].vec)
  }

  /** Walks on one layer to a node none of whose neighbours is nearer. */
  method GreedyLayer(g: Graph, dist: Vec -> real, start: string, level: nat) returns (curr: string)
    requires start in g
    ensures Settles(g, dist, start, level, curr)
  {
    curr := start;
    var changed := true;
    while changed
      invariant curr in g && dist(g[curr].vec) <= dist(g[start].vec) && WithinClosed(g, level, start, {curr})
      invariant !changed ==>
        forall n | n in NeighborsOf(g, curr, level) && n in g :: dist(g[curr].vec) <= dist(g[n].vec)
      decreases Nearer(g, dist, dist(g[curr].vec)), changed
    {
      var before := curr;
      curr := BestNeighbor(g, dist, before, NeighborsOf(g, before, level));
      if curr != before { WithinClosedStep(g, level, start, before, curr, {before}); }
      changed := dist(g[curr].vec) < dist(g[before].vec);
      if changed {
        assert curr in Nearer(g, dist, dist(g[before].vec)) && curr !in Nearer(g, dist, dist(g[curr].vec));
        assert Nearer(g, dist, dist(g[curr].vec)) <= Nearer(g, dist, dist(g[before].vec));
      }
    }
  }

  /** One pass over a neighbour list: the nearest of curr and the live neighbours, curr itself on a tie. */
  method BestNeighbor(g: Graph, dist: Vec -> real, start: string, list: seq<string>) returns (curr: string)
    requires start in g
    ensures curr in g && (curr == start || (curr in list && dist(g[curr].vec) < dist(g[start].vec)))
    ensures forall n | n in list && n in g :: dist(g[curr].vec) <= dist(g[n].vec)
  {
    curr := start;
    for i := 0 to |list|
      invariant curr in g && (curr == start || (curr in list && dist(g[curr].vec) < dist(g[start].vec)))
      invariant forall j | 0 <= j < i && list[j] in g :: dist(g[curr].vec) <= dist(g[list[j]].vec)
    {
      var n := list[i];
      if n in g && dist(g[n].vec) < dist(g[curr].vec) {
        curr := n;
      }
    }
  }

  /** A walk from layer to layer, settling on each of them from the top down to the one above `stop`. */
  ghost predicate Descends(g: Graph, dist: Vec -> real, start: string, top: int, stop: int, curr: string)
    requires -1 <= stop
    decreases top - stop
  {
    if top <= stop then curr == start
    else exists mid :: Settles(g, dist, start, top, mid) && Descends(g, dist, mid, top - 1, stop, curr)
  }

  lemma {:induction false} DescendsOn(g: Graph, dist: Vec -> real, start: string, top: int, l: int, mid: string,
                                      curr: string)
    requires 0 <= l <= top && Descends(g, dist, start, top, l, mid) && Settles(g, dist, mid, l, curr)
    ensures Descends(g, dist, start, top, l - 1, curr)
    decreases top
  {
    if top == l {
      assert Descends(g, dist, curr, l - 1, l - 1, curr);
    } else {
      var next :| Settles(g, dist, start, top, next) && Descends(g, dist, next, top - 1, l, mid);
      DescendsOn(g, dist, next, top - 1, l, mid, curr);
    }
  }

  lemma {:induction false} DescendsNearer(g: Graph, dist: Vec -> real, start: string, top: int, stop: int, curr: string)
    requires -1 <= stop && start in g && Descends(g, dist, start, top, stop, curr)
    ensures curr in g && dist(g[curr].vec) <= dist(g[start].vec)
    decreases top - stop
  {
    if top > stop {
      var mid :| Settles(g, dist, start, top, mid) && Descends(g, dist, mid, top - 1, stop, curr);
      DescendsNearer(g, dist, mid, top - 1, stop, curr);
    }
  }

  /** From the top layer down to the layer above `stop`. */
  method Descend(g: Graph, dist: Vec -> real, start: string, top: int, stop: int) returns (curr: string)
    requires start in g && -1 <= stop
    ensures curr in g && dist(g[curr].vec) <= dist(g[start].vec) && Descends(g, dist, start, top, stop, curr)
  {
    curr := start;
    var l := top;
    while l > stop
      invariant l <= top && (l < stop ==> l == top) && curr in g
      invariant Descends(g, dist, start, top, Max(l, stop), curr)
    {
      var mid := curr;
      curr := GreedyLayer(g, dist, mid, l);
      DescendsOn(g, dist, start, top, l, mid, curr);
      l := l - 1;
    }
    DescendsNearer(g, dist, start, top, stop, curr);
  }

  // ---------------------------------------------------------------------------
  // Brute force, as the reference for Search.
  // ---------------------------------------------------------------------------

  /** res lists the k nodes nearest to the target (all when there are fewer), in order; ties are free. */
  ghost predicate TopK(g: Graph, dist: Vec -> real, k: int, res: seq<DistItem>) {
    && Ascending(res) && (forall i, j | 0 <= i < j < |res| :: res[i].id != res[j].id)
    && (forall x | x in res :: x.id in g && x == ItemOf(g, dist, x.id))
    && |res| == (if k <= |g| then k else |g|)
    && forall id, x | id in g && ItemOf(g, dist, id) !in res && x in res :: x.dist <= dist(g[id].vec)
  }

  /** From any live node all live nodes can be reached on the layer. */
  ghost predicate StronglyConnected(g: Graph, level: nat) {
    forall s: set<string> | Closed(g, level, s) && s != {} :: s == g.Keys
  }

  /** A search as wide as a connected layer finds every node. */
  lemma FindsAll(g: Graph, dist: Vec -> real, entry: string, ef: int, seen: set<string>, cand: seq<DistItem>)
    requires LayerResult(g, dist, entry, ef, 0, seen, cand) && StronglyConnected(g, 0) && |g| <= ef
    ensures |cand| == |g| && forall id | id in g :: ItemOf(g, dist, id) in cand
  {
    SubsetSize(seen, g.Keys);
    assert seen == g.Keys;
    forall id | id in g ensures ItemOf(g, dist, id) in cand {
      AllSeenKept(g, dist, seen, ItemSet(cand), Max(ef, 1), id);
    }
    ItemsCover(g, dist, g.Keys, ItemSet(cand));
    ItemsBounded(g, dist, g.Keys, ItemSet(cand));
  }

  /** The front of all the items in order is a top K. */
  lemma FrontIsTopK(g: Graph, dist: Vec -> real, k: int, cand: seq<DistItem>, res: seq<DistItem>)
    requires Ascending(cand) && (forall i, j | 0 <= i < j < |cand| :: cand[i].id != cand[j].id)
    requires (forall x | x in cand :: x.id in g && x == ItemOf(g, dist, x.id))
    requires forall id | id in g :: ItemOf(g, dist, id) in cand
    requires |cand| == |g| && 1 <= k && |res| == (if |cand| > k then k else |cand|) && res == cand[..|res|]
    ensures TopK(g, dist, k, res)
  {
    forall x | x in res ensures x in cand {
    }
    forall id, x | id in g && ItemOf(g, dist, id) !in res && x in res ensures x.dist <= dist(g[id].vec) {
      BestFirst(cand, |res|, ItemOf(g, dist, id), x);
    }
  }

  lemma ResultIsTopK(g: Graph, dist: Vec -> real, entry: string, ef: int, k: int, seen: set<string>,
                     cand: seq<DistItem>)
    requires LayerResult(g, dist, entry, ef, 0, seen, cand)
    requires StronglyConnected(g, 0) && |g| <= ef && 1 <= k <= ef
    ensures TopK(g, dist, k, if |cand| > k then cand[..k] else cand)
  {
    FindsAll(g, dist, entry, ef, seen, cand);
    forall x | x in cand ensures x.id in g && x == ItemOf(g, dist, x.id) {
      assert x in ItemSet(cand);
    }
    var res := if |cand| > k then cand[..k] else cand;
    assert res == cand[..|res|];
    FrontIsTopK(g, dist, k, cand, res);
  }

  lemma BestFirst(cand: seq<DistItem>, n: nat, left: DistItem, kept: DistItem)
    requires n <= |cand| && Ascending(cand) && left in cand && left !in cand[..n] && kept in cand[..n]
    ensures kept.dist <= left.dist
  {
    var i :| 0 <= i < |cand| && cand[i] == left;
    var j :| 0 <= j < n && cand[..n][j] == kept;
    assert forall m | 0 <= m < n :: cand[..n][m] == cand[m] && cand[m] in cand[..n];
  }

  lemma {:induction false} ItemsCover(g: Graph, dist: Vec -> real, ids: set<string>, items: set<DistItem>)
    requires ids <= g.Keys && forall id | id in ids :: ItemOf(g, dist, id) in items
    ensures |ids| <= |items|
    decreases ids
  {
    if ids != {} {
      var id :| id in ids;
      ItemsCover(g, dist, ids - {id}, items - {ItemOf(g, dist, id)});
    }
  }

  // ---------------------------------------------------------------------------
  // The index.
  // ---------------------------------------------------------------------------

  const M := 16
  const M0 := 32
  const EF_CONSTRUCTION := 64

  /** The longest neighbour list allowed on a layer. */
  function Bound(level: int): int {
    if level == 0 then M0 else M
  }

  predicate NodeOk(n: Node) {
    && 0 <= n.level && |n.neighbors| == n.level + 1
    && forall l | 0 <= l < |n.neighbors| :: |n.neighbors[l]| <= Bound(l)
  }

  predicate GraphOk(g: Graph) {
    forall id | id in g :: NodeOk(g[id])
  }

  /** No node is above the level. */
  predicate Within(g: Graph, level: int) {
    forall id | id in g :: g[id].level <= level
  }

  /** Up to 32 neighbours on the base layer, and up to 16 above it. */
  lemma ListBounds(g: Graph, id: string, l: nat)
    requires GraphOk(g) && id in g
    ensures |NeighborsOf(g, id, l)| <= if l == 0 then 32 else 16
  {
    assert NodeOk(g[id]);
  }

  /** A node without links. */
  function Bare(vec: Vec, level: int): Node
    requires 0 <= level
  {
    Node(vec, level, seq(level + 1, _ => []))
  }

  /** Only neighbour lists differ. */
  predicate SameNodes(a: Graph, b: Graph) {
    a.Keys == b.Keys && forall id | id in a :: a[id].vec == b[id].vec && a[id].level == b[id].level
  }

  /** The items of the live nodes named in a list, in list order. */
  function LiveItems(g: Graph, dist: Vec -> real, list: seq<string>): seq<DistItem> {
    if list == [] then []
    else (if list[0] in g then [ItemOf(g, dist, list[0])] else []) + LiveItems(g, dist, list[1..])
  }

  function InsertByDist(x: DistItem, s: seq<DistItem>): seq<DistItem> {
    if s == [] || x.dist <= s[0].dist then [x] + s else [s[0]] + InsertByDist(x, s[1..])
  }

  lemma {:induction false} InsertByDistSame(x: DistItem, s: seq<DistItem>)
    ensures multiset(InsertByDist(x, s)) == multiset(s) + multiset{x}
  {
    if s != [] && x.dist > s[0].dist {
      InsertByDistSame(x, s[1..]);
      assert s == [s[0]] + s[1..];
    }
  }

  lemma {:induction false} InsertByDistSorted(x: DistItem, s: seq<DistItem>)
    requires Ascending(s)
    ensures Ascending(InsertByDist(x, s))
  {
    if s != [] && x.dist > s[0].dist {
      var t := InsertByDist(x, s[1..]);
      InsertByDistSorted(x, s[1..]);
      InsertByDistSame(x, s[1..]);
      forall j | 0 <= j < |t| ensures s[0].dist <= t[j].dist {
        assert t[j] in multiset(t);
        assert t[j] in s[1..] || t[j] == x;
      }
    }
  }

  /** `sort.Slice` by distance. */
  method SortItems(s: seq<DistItem>) returns (r: seq<DistItem>)
    ensures Ascending(r) && multiset(r) == multiset(s) && |r| == |s|
  {
    r := [];
    var i := |s|;
    while i > 0
      invariant 0 <= i <= |s| && Ascending(r) && multiset(r) == multiset(s[i..])
    {
      i := i - 1;
      InsertByDistSorted(s[i], r);
      InsertByDistSame(s[i], r);
      assert s[i..] == [s[i]] + s[i + 1..];
      r := InsertByDist(s[i], r);
    }
    assert s[0..] == s;
    assert |multiset(r)| == |multiset(s)|;
  }

  function Ids(s: seq<DistItem>): (r: seq<string>)
    ensures |r| == |s|
  {
    seq(|s|, i requires 0 <= i < |s| => s[i].id)
  }

  method CollectLive(g: Graph, dist: Vec -> real, list: seq<string>) returns (pairs: seq<DistItem>)
    ensures pairs == LiveItems(g, dist, list)
  {
    pairs := [];
    var i := 0;
    while i < |list|
      invariant 0 <= i <= |list| && LiveItems(g, dist, list) == pairs + LiveItems(g, dist, list[i..])
    {
      assert list[i..][1..] == list[i + 1..];
      ghost var rest := LiveItems(g, dist, list[i + 1..]);
      if list[i] in g {
        var x := ItemOf(g, dist, list[i]);
        assert pairs + ([x] + rest) == (pairs + [x]) + rest;
        pairs := pairs + [x];
      } else {
        assert [] + rest == rest;
      }
      i := i + 1;
    }
  }

  /** The m nearest of the live nodes in a list; `ranked` is the whole list in order. */
  method PruneNeighbors(g: Graph, dist: Vec -> real, list: seq<string>, m: int)
    returns (out: seq<string>, ghost ranked: seq<DistItem>)
    requires 0 <= m
    ensures Ascending(ranked) && multiset(ranked) == multiset(LiveItems(g, dist, list))
    ensures out == Ids(Shortened(ranked, m))
  {
    var pairs := CollectLive(g, dist, list);
    var sorted := SortItems(pairs);
    ranked := sorted;
    if |sorted| > m {
      sorted := sorted[..m];
    }
    out := Ids(sorted);
  }

  /** Replaces one neighbour list. */
  function SetNeighbors(g: Graph, id: string, level: nat, list: seq<string>): Graph
    requires id in g && level < |g[id].neighbors|
  {
    g[id := g[id].(neighbors := g[id].neighbors[level := list])]
  }

  lemma SetNeighborsOk(g: Graph, id: string, level: nat, list: seq<string>)
    requires GraphOk(g) && id in g && level < |g[id].neighbors| && |list| <= Bound(level)
    ensures GraphOk(SetNeighbors(g, id, level, list)) && SameNodes(g, SetNeighbors(g, id, level, list))
  {
  }

  /** The two graphs have the same lists on the layer. */
  ghost predicate SameLayer(a: Graph, b: Graph, level: nat) {
    a.Keys == b.Keys && forall n | n in a :: NeighborsOf(a, n, level) == NeighborsOf(b, n, level)
  }

  /** And on all layers but one. */
  ghost predicate OtherLayersSame(a: Graph, b: Graph, level: nat) {
    forall l: nat | l != level :: SameLayer(a, b, l)
  }

  lemma SetNeighborsElsewhere(g: Graph, id: string, level: nat, list: seq<string>)
    requires id in g && level < |g[id].neighbors|
    ensures OtherLayersSame(g, SetNeighbors(g, id, level, list), level)
  {
  }

  lemma OtherLayersTwice(a: Graph, b: Graph, c: Graph, level: nat)
    requires OtherLayersSame(a, b, level) && OtherLayersSame(b, c, level)
    ensures OtherLayersSame(a, c, level)
  {
    forall l: nat | l != level ensures SameLayer(a, c, l) { assert SameLayer(a, b, l) && SameLayer(b, c, l); }
  }

  /** Distances from a fixed vector. */
  function From(metric: (Vec, Vec) -> real, base: Vec): Vec -> real {
    v => metric(base, v)
  }

  /** list is what becomes of a neighbour list when id is linked in: appended, or cut to the nearest live ones. */
  ghost predicate LinkedIn(g: Graph, dist: Vec -> real, was: seq<string>, id: string, level: nat, list: seq<string>) {
    if |was| + 1 <= Bound(level) then list == was + [id]
    else exists ranked :: IsRanking(g, dist, was + [id], ranked) && list == Ids(Shortened(ranked, Bound(level)))
  }

  /** At most the first m. */
  function Shortened(s: seq<DistItem>, m: int): seq<DistItem>
    requires 0 <= m
  {
    if |s| <= m then s else s[..m]
  }

  /** The live nodes of a list, nearest first. */
  ghost predicate IsRanking(g: Graph, dist: Vec -> real, list: seq<string>, ranked: seq<DistItem>) {
    Ascending(ranked) && multiset(ranked) == multiset(LiveItems(g, dist, list))
  }

  lemma {:induction false} LiveItemsMembers(g: Graph, dist: Vec -> real, list: seq<string>, x: DistItem)
    ensures x in LiveItems(g, dist, list) <==> x.id in list && x.id in g && x == ItemOf(g, dist, x.id)
  {
    if list != [] {
      LiveItemsMembers(g, dist, list[1..], x);
      assert list == [list[0]] + list[1..];
    }
  }

  /** A list that a live node was linked into names it, or is full of live nodes no farther than it. */
  lemma LinkedInMeans(g: Graph, dist: Vec -> real, was: seq<string>, id: string, level: nat, list: seq<string>)
    requires LinkedIn(g, dist, was, id, level, list) && id in g
    ensures list != []
    ensures id in list ||
      (|list| == Bound(level) && forall n | n in list :: n in g && dist(g[n].vec) <= dist(g[id].vec))
  {
    if |was| + 1 > Bound(level) {
      var ranked :| IsRanking(g, dist, was + [id], ranked) && list == Ids(Shortened(ranked, Bound(level)));
      var mine := ItemOf(g, dist, id);
      RankedIs(g, dist, was + [id], ranked, mine);
      var p :| 0 <= p < |ranked| && ranked[p] == mine;
      if p < |list| {
        assert list[p] == id;
      } else {
        forall n | n in list ensures n in g && dist(g[n].vec) <= dist(g[id].vec) {
          var i :| 0 <= i < |list| && list[i] == n;
          RankedIs(g, dist, was + [id], ranked, ranked[i]);
        }
      }
    }
  }

  lemma RankedIs(g: Graph, dist: Vec -> real, list: seq<string>, ranked: seq<DistItem>, x: DistItem)
    requires IsRanking(g, dist, list, ranked)
    ensures x in ranked <==> x.id in list && x.id in g && x == ItemOf(g, dist, x.id)
  {
    LiveItemsMembers(g, dist, list, x);
    assert x in ranked <==> x in multiset(ranked);
    assert x in LiveItems(g, dist, list) <==> x in multiset(LiveItems(g, dist, list));
  }

  /** The link back from a selected neighbour, pruned when its list gets too long. */
  method LinkBack(g: Graph, metric: (Vec, Vec) -> real, nbr: string, id: string, level: nat)
    returns (g': Graph)
    requires GraphOk(g) && nbr in g
    ensures GraphOk(g') && SameNodes(g, g') && OtherLayersSame(g, g', level)
    ensures if level < |g[nbr].neighbors| then
        LinkedIn(g, From(metric, g[nbr].vec), g[nbr].neighbors[level], id, level, NeighborsOf(g', nbr, level)) &&
        g' == SetNeighbors(g, nbr, level, NeighborsOf(g', nbr, level))
      else g' == g
  {
    g' := g;
    if level < |g[nbr].neighbors| {
      var list := g[nbr].neighbors[level] + [id];
      if |list| > Bound(level) {
        ghost var ranked;
        list, ranked := PruneNeighbors(g, From(metric, g[nbr].vec), list, Bound(level));
      }
      SetNeighborsOk(g, nbr, level, list);
      SetNeighborsElsewhere(g, nbr, level, list);
      g' := SetNeighbors(g, nbr, level, list);
    }
  }

  /** The new node's list on the layer: the selected ones, or when it was found itself, these with it linked in. */
  ghost predicate OwnList(g: Graph, metric: (Vec, Vec) -> real, id: string, level: nat, selected: seq<DistItem>,
                          list: seq<string>)
    requires id in g
  {
    if id !in IdSet(selected) then list == Ids(selected)
    else LinkedIn(g, From(metric, g[id].vec), Ids(selected), id, level, list)
  }

  /** One layer after an insertion: the nearest candidates are linked both ways, and nothing else is. */
  ghost predicate LayerLinked(g: Graph, g': Graph, metric: (Vec, Vec) -> real, id: string, level: nat,
                              cand: seq<DistItem>)
  {
    var selected := Shortened(cand, Bound(level));
    && id in g && g.Keys == g'.Keys && (forall x | x in selected :: x.id in g)
    && OwnList(g, metric, id, level, selected, NeighborsOf(g', id, level))
    && (forall x | x in selected && x.id != id :: BackLinked(g, metric, x.id, id, level, g'))
    && forall n | n in g && n != id && n !in IdSet(selected) :: NeighborsOf(g', n, level) == NeighborsOf(g, n, level)
  }

  /** One layer of an insertion: link the new node to the nearest candidates, and these back to it. */
  method LinkLayer(g: Graph, metric: (Vec, Vec) -> real, id: string, cand: seq<DistItem>, level: nat)
    returns (g': Graph)
    requires GraphOk(g) && id in g && level < |g[id].neighbors|
    requires forall x | x in cand :: x.id in g
    requires forall i, j | 0 <= i < j < |cand| :: cand[i].id != cand[j].id
    ensures GraphOk(g') && SameNodes(g, g')
    ensures LayerLinked(g, g', metric, id, level, cand) && OtherLayersSame(g, g', level)
    ensures Untouched(g, g', IdSet(Shortened(cand, Bound(level))) + {id})
  {
    var selected := if |cand| <= Bound(level) then cand else cand[..Bound(level)];
    SetNeighborsOk(g, id, level, Ids(selected));
    SetNeighborsElsewhere(g, id, level, Ids(selected));
    var linked := SetNeighbors(g, id, level, Ids(selected));
    g' := LinkAllBack(linked, metric, id, selected, level);
    OtherLayersTwice(g, linked, g', level);
    LinksMade(g, metric, id, level, cand, g');
  }

  /** From the links written one by one to what the layer looks like. */
  lemma LinksMade(g: Graph, metric: (Vec, Vec) -> real, id: string, level: nat, cand: seq<DistItem>, g': Graph)
    requires id in g && level < |g[id].neighbors| && g.Keys == g'.Keys
    requires forall x | x in Shortened(cand, Bound(level)) :: x.id in g
    requires var selected := Shortened(cand, Bound(level));
      var linked := SetNeighbors(g, id, level, Ids(selected));
      && (forall i | 0 <= i < |selected| :: BackLinked(linked, metric, selected[i].id, id, level, g'))
      && Untouched(linked, g', IdSet(selected))
    ensures LayerLinked(g, g', metric, id, level, cand)
  {
    var selected := Shortened(cand, Bound(level));
    forall x | x in selected && x.id != id ensures BackLinked(g, metric, x.id, id, level, g') {
      var i :| 0 <= i < |selected| && selected[i] == x;
      BackLinkedBefore(g, metric, x.id, id, level, Ids(selected), g');
    }
    OwnListBefore(g, metric, id, level, selected, g');
  }

  lemma OwnListBefore(g: Graph, metric: (Vec, Vec) -> real, id: string, level: nat, selected: seq<DistItem>, g': Graph)
    requires id in g && level < |g[id].neighbors| && id in g'
    requires var linked := SetNeighbors(g, id, level, Ids(selected));
      && (forall i | 0 <= i < |selected| && selected[i].id == id :: BackLinked(linked, metric, id, id, level, g'))
      && Untouched(linked, g', IdSet(selected))
    ensures OwnList(g, metric, id, level, selected, NeighborsOf(g', id, level))
  {
    var linked := SetNeighbors(g, id, level, Ids(selected));
    if id in IdSet(selected) {
      var x :| x in selected && x.id == id;
      var i :| 0 <= i < |selected| && selected[i] == x;
      assert BackLinked(linked, metric, id, id, level, g');
      LinkedInSame(g, linked, From(metric, g[id].vec), Ids(selected), id, level, NeighborsOf(g', id, level));
    }
  }

  /** Writing id's own list does not change what another node makes of the link. */
  lemma BackLinkedBefore(g: Graph, metric: (Vec, Vec) -> real, n: string, id: string, level: nat, list: seq<string>,
                         g': Graph)
    requires id in g && level < |g[id].neighbors| && n in g && n in g' && n != id
    requires BackLinked(SetNeighbors(g, id, level, list), metric, n, id, level, g')
    ensures BackLinked(g, metric, n, id, level, g')
  {
    if level < |g[n].neighbors| {
      LinkedInSame(g, SetNeighbors(g, id, level, list), From(metric, g[n].vec), g[n].neighbors[level], id, level,
        NeighborsOf(g', n, level));
    }
  }

  ghost function IdSet(s: seq<DistItem>): set<string> {
    set x | x in s :: x.id
  }

  /** Nodes outside s are the same. */
  ghost predicate Untouched(a: Graph, b: Graph, s: set<string>) {
    a.Keys == b.Keys && forall n | n in a && n !in s :: a[n] == b[n]
  }

  /** Node n, which had a list on the layer, now lists id there (or was pruned). */
  ghost predicate BackLinked(g: Graph, metric: (Vec, Vec) -> real, n: string, id: string, level: nat, g': Graph)
    requires n in g && n in g'
  {
    level < |g[n].neighbors| ==>
      LinkedIn(g, From(metric, g[n].vec), g[n].neighbors[level], id, level, NeighborsOf(g', n, level))
  }

  lemma {:induction false} LiveItemsSame(g: Graph, h: Graph, dist: Vec -> real, list: seq<string>)
    requires SameNodes(g, h)
    ensures LiveItems(g, dist, list) == LiveItems(h, dist, list)
  {
    if list != [] { LiveItemsSame(g, h, dist, list[1..]); }
  }

  lemma LinkedInSame(g: Graph, h: Graph, dist: Vec -> real, was: seq<string>, id: string, level: nat, list: seq<string>)
    requires SameNodes(g, h) && LinkedIn(h, dist, was, id, level, list)
    ensures LinkedIn(g, dist, was, id, level, list)
  {
    LiveItemsSame(g, h, dist, was + [id]);
    if |was| + 1 > Bound(level) {
      var ranked :| IsRanking(h, dist, was + [id], ranked) && list == Ids(Shortened(ranked, Bound(level)));
      assert IsRanking(g, dist, was + [id], ranked);
    }
  }

  method LinkOneBack(ghost g0: Graph, g: Graph, metric: (Vec, Vec) -> real, n: string, id: string, level: nat)
    returns (g': Graph)
    requires GraphOk(g) && n in g && SameNodes(g0, g) && g[n] == g0[n]
    ensures GraphOk(g') && SameNodes(g0, g') && Untouched(g, g', {n}) && OtherLayersSame(g, g', level)
    ensures BackLinked(g0, metric, n, id, level, g')
  {
    g' := LinkBack(g, metric, n, id, level);
    if level < |g0[n].neighbors| {
      LinkedInSame(g0, g, From(metric, g[n].vec), g[n].neighbors[level], id, level, NeighborsOf(g', n, level));
    }
  }

  method LinkAllBack(g: Graph, metric: (Vec, Vec) -> real, id: string, selected: seq<DistItem>, level: nat)
    returns (g': Graph)
    requires GraphOk(g) && (forall x | x in selected :: x.id in g)
    requires forall i, j | 0 <= i < j < |selected| :: selected[i].id != selected[j].id
    ensures GraphOk(g') && SameNodes(g, g') && Untouched(g, g', IdSet(selected)) && OtherLayersSame(g, g', level)
    ensures forall i | 0 <= i < |selected| :: BackLinked(g, metric, selected[i].id, id, level, g')
  {
    g' := g;
    var i := 0;
    while i < |selected|
      invariant 0 <= i <= |selected| && GraphOk(g') && SameNodes(g, g') && OtherLayersSame(g, g', level)
      invariant FirstLinked(g, metric, selected, i, id, level, g')
    {
      var n := selected[i].id;
      assert selected[i] in selected && g'[n] == g[n];
      ghost var before := g';
      g' := LinkOneBack(g, g', metric, n, id, level);
      OtherLayersTwice(g, before, g', level);
      FirstLinkedNext(g, metric, selected, i, id, level, before, g');
      i := i + 1;
    }
    AllLinkedBack(g, metric, selected, id, level, g');
  }

  /** The first i selected nodes have their link, the others are as they were. */
  ghost predicate FirstLinked(g: Graph, metric: (Vec, Vec) -> real, selected: seq<DistItem>, i: int, id: string,
                              level: nat, g': Graph)
    requires forall x | x in selected :: x.id in g
  {
    && 0 <= i <= |selected| && SameNodes(g, g')
    && (forall n | n in g && (forall j | 0 <= j < i :: selected[j].id != n) :: g'[n] == g[n])
    && forall j | 0 <= j < i :: BackLinked(g, metric, selected[j].id, id, level, g')
  }

  lemma FirstLinkedNext(g: Graph, metric: (Vec, Vec) -> real, selected: seq<DistItem>, i: int, id: string,
                        level: nat, h: Graph, g': Graph)
    requires (forall x | x in selected :: x.id in g) && 0 <= i < |selected|
    requires forall i, j | 0 <= i < j < |selected| :: selected[i].id != selected[j].id
    requires FirstLinked(g, metric, selected, i, id, level, h)
    requires SameNodes(g, g') && Untouched(h, g', {selected[i].id})
    requires BackLinked(g, metric, selected[i].id, id, level, g')
    ensures FirstLinked(g, metric, selected, i + 1, id, level, g')
  {
    forall j | 0 <= j < i + 1 ensures BackLinked(g, metric, selected[j].id, id, level, g') {
      if j < i {
        assert BackLinked(g, metric, selected[j].id, id, level, h) && g'[selected[j].id] == h[selected[j].id];
      }
    }
    forall n | n in g && (forall j | 0 <= j < i + 1 :: selected[j].id != n) ensures g'[n] == g[n] {
      assert selected[i].id != n && h[n] == g[n];
    }
  }

  lemma AllLinkedBack(g: Graph, metric: (Vec, Vec) -> real, selected: seq<DistItem>, id: string, level: nat, g': Graph)
    requires forall x | x in selected :: x.id in g
    requires FirstLinked(g, metric, selected, |selected|, id, level, g')
    ensures Untouched(g, g', IdSet(selected))
  {
    forall n | n in g && n !in IdSet(selected) ensures g[n] == g'[n] {
      forall j | 0 <= j < |selected| ensures selected[j].id != n {
        assert selected[j] in selected && selected[j].id in IdSet(selected);
      }
    }
  }

  /** The nearest of what a search of the base layer finds from where the descent ends. */
  ghost predicate Answers(g: Graph, dist: Vec -> real, entry: string, maxLevel: int, ef: int, k: int,
                          results: seq<DistItem>)
    requires 0 <= k
  {
    exists curr, cand, seen ::
      && Descends(g, dist, entry, maxLevel, 0, curr) && LayerResult(g, dist, curr, ef, 0, seen, cand)
      && results == Shortened(cand, k)
  }

  /** The base layer search behind Search. */
  method SearchFrom(g: Graph, dist: Vec -> real, curr: string, k: int, ef: int) returns (results: seq<DistItem>)
    requires curr in g && 1 <= k <= ef
    ensures forall x | x in results :: x.id in g && x.dist == dist(g[x.id].vec)
    ensures Ascending(results) && 0 < |results| <= k
    ensures StronglyConnected(g, 0) && |g| <= ef ==> TopK(g, dist, k, results)
    ensures exists cand, seen :: LayerResult(g, dist, curr, ef, 0, seen, cand) && results == Shortened(cand, k)
  {
    var cand, seen := SearchLayer(g, dist, curr, ef, 0);
    if StronglyConnected(g, 0) && |g| <= ef {
      ResultIsTopK(g, dist, curr, ef, k, seen, cand);
    }
    assert forall x | x in cand :: x in ItemSet(cand);
    results := if |cand| > k then cand[..k] else cand;
  }

  datatype SearchOutcome = DimensionMismatch | Found(results: seq<DistItem>)

  /** When id is gone, a node without a name is among the highest, or the only highest one. */
  predicate UnnamedLeads(g: Graph, id: string) {
    [] in g && id != [] && forall n | n in g && n != id :: g[n].level <= g[[]].level
  }

  predicate UnnamedAlone(g: Graph, id: string) {
    [] in g && id != [] && forall n | n in g && n != id && n != [] :: g[n].level < g[[]].level
  }

  class HnswIndex {
    const metric: (Vec, Vec) -> real
    var dimension: int
    var nodes: Graph
    var entryPoint: string
    var maxLevel: int

    /** What every call keeps, whatever the names: lists within their bounds, and a named entry point is live. */
    ghost predicate Valid()
      reads this
    {
      GraphOk(nodes) && (entryPoint != [] ==> entryPoint in nodes && nodes[entryPoint].level == maxLevel)
    }

    /** The entry point is empty exactly when there are no nodes; otherwise it is live and on the highest level. */
    ghost predicate EntryOnTop()
      reads this
    {
      && (entryPoint == [] <==> nodes == map[]) && Within(nodes, maxLevel)
      && (entryPoint != [] ==> entryPoint in nodes && nodes[entryPoint].level == maxLevel)
    }

    constructor (dim: int, metric: (Vec, Vec) -> real)
      ensures Valid() && EntryOnTop() && nodes == map[] && maxLevel == -1
      ensures dimension == dim && this.metric == metric
    {
      this.metric, dimension := metric, dim;
      nodes, entryPoint, maxLevel := map[], [], -1;
    }

    /** Nearest neighbours of a query; k and ef as the source adjusts them. */
    method Search(query: Vec, topK: int, efSearch: int) returns (r: SearchOutcome)
      requires Valid()
      ensures r.DimensionMismatch? <==> dimension > 0 && |query| != dimension
      ensures r.Found? ==> forall x | x in r.results :: x.id in nodes && x.dist == metric(query, nodes[x.id].vec)
      ensures r.Found? ==> Ascending(r.results) && |r.results| <= Wanted(topK)
      ensures r.Found? ==> (r.results == [] <==> entryPoint == [])
      ensures r.Found? && EntryOnTop() && StronglyConnected(nodes, 0) && |nodes| <= Max(efSearch, Wanted(topK)) ==>
        TopK(nodes, From(metric, query), Wanted(topK), r.results)
      ensures r.Found? && entryPoint != [] ==>
        Answers(nodes, From(metric, query), entryPoint, maxLevel, Max(efSearch, Wanted(topK)), Wanted(topK), r.results)
    {
      if dimension > 0 && |query| != dimension {
        return DimensionMismatch;
      }
      if |nodes| == 0 || entryPoint == [] {
        return Found([]);
      }
      var k := if topK <= 0 then 10 else topK;
      var ef := if efSearch < k then k else efSearch;
      var curr := Descend(nodes, From(metric, query), entryPoint, maxLevel, 0);
      var results := SearchFrom(nodes, From(metric, query), curr, k, ef);
      r := Found(results);
    }

    /**
     Adds a node at a random level, or replaces the vector of a known one; false on a dimension mismatch.
     A node without a name that becomes the entry point is taken for a missing one.
     */
    method Insert(id: string, vec: Vec, nodeLevel: int) returns (ok: bool)
      requires Valid() && 0 <= nodeLevel
      modifies this
      ensures Valid() && ok == !(old(dimension) > 0 && |vec| != old(dimension))
      ensures dimension == if ok && old(dimension) == 0 then |vec| else old(dimension)
      ensures !ok ==> nodes == old(nodes) && entryPoint == old(entryPoint) && maxLevel == old(maxLevel)
      ensures ok && id in old(nodes) ==>
        && nodes == old(nodes)[id := old(nodes)[id].(vec := vec)]
        && entryPoint == old(entryPoint) && maxLevel == old(maxLevel)
      ensures ok && id !in old(nodes) ==>
        && nodes.Keys == old(nodes).Keys + {id} && nodes[id].vec == vec && nodes[id].level == nodeLevel
        && (forall n | n in old(nodes) :: nodes[n].vec == old(nodes)[n].vec && nodes[n].level == old(nodes)[n].level)
      ensures ok && id !in old(nodes) ==>
        if old(TakesOver(nodeLevel)) then entryPoint == id && maxLevel == nodeLevel
        else entryPoint == old(entryPoint) && maxLevel == old(maxLevel)
      ensures ok && id !in old(nodes) ==>
        if old(entryPoint) == [] then nodes == old(nodes)[id := Bare(vec, nodeLevel)]
        else Linked(old(nodes)[id := Bare(vec, nodeLevel)], nodes, metric, old(entryPoint), old(maxLevel), id)
      ensures ok && id !in old(nodes) && old(entryPoint) != [] ==> NeighborsOf(nodes, id, 0) != []
      ensures EntryOnTop() <==>
        if ok && id !in old(nodes) && old(TakesOver(nodeLevel)) then id != [] && Within(old(nodes), nodeLevel)
        else old(EntryOnTop())
      ensures old(EntryOnTop()) ==>
        (EntryOnTop() <==> !ok || id in old(nodes) || id != [] || (old(nodes) != map[] && nodeLevel <= old(maxLevel)))
    {
      if dimension > 0 && |vec| != dimension {
        return false;
      }
      ok := true;
      if dimension == 0 {
        dimension := |vec|;
      }
      if id in nodes {
        nodes := nodes[id := nodes[id].(vec := vec)];
        SameOnTop(old(nodes), nodes, maxLevel);
        return;
      }
      InsertNew(id, vec, nodeLevel);
    }

    /** A new node becomes the entry point when there is none, or when it is above it. */
    predicate TakesOver(nodeLevel: int)
      reads this
    {
      entryPoint == [] || nodeLevel > maxLevel
    }

    method InsertNew(id: string, vec: Vec, nodeLevel: int)
      requires Valid() && id !in nodes && 0 <= nodeLevel
      modifies this`nodes, this`entryPoint, this`maxLevel
      ensures Valid()
      ensures nodes.Keys == old(nodes).Keys + {id} && nodes[id].vec == vec && nodes[id].level == nodeLevel
      ensures forall n | n in old(nodes) :: nodes[n].vec == old(nodes)[n].vec && nodes[n].level == old(nodes)[n].level
      ensures if old(TakesOver(nodeLevel)) then entryPoint == id && maxLevel == nodeLevel
              else entryPoint == old(entryPoint) && maxLevel == old(maxLevel)
      ensures if old(entryPoint) == [] then nodes == old(nodes)[id := Bare(vec, nodeLevel)]
              else Linked(old(nodes)[id := Bare(vec, nodeLevel)], nodes, metric, old(entryPoint), old(maxLevel), id)
      ensures old(entryPoint) != [] ==> NeighborsOf(nodes, id, 0) != []
      ensures EntryOnTop() <==>
        if old(TakesOver(nodeLevel)) then id != [] && Within(old(nodes), nodeLevel) else old(EntryOnTop())
    {
      var g := nodes[id := Bare(vec, nodeLevel)];
      if entryPoint == [] {
        nodes, entryPoint, maxLevel := g, id, nodeLevel;
      } else {
        assert NodeOk(nodes[entryPoint]);
        nodes := InsertLinks(g, metric, entryPoint, maxLevel, id, vec, nodeLevel);
        NewNodeIsLinked(g, nodes, metric, entryPoint, maxLevel, id, 0);
        if nodeLevel > maxLevel {
          maxLevel := nodeLevel;
          entryPoint := id;
        }
      }
      OneMoreOnTop(old(nodes), id, nodes, maxLevel);
    }

    /** Removes a node and the links to it from the nodes it links to; false when it is not there. */
    method Delete(id: string) returns (found: bool)
      requires Valid()
      modifies this
      ensures Valid() && found == (id in old(nodes)) && dimension == old(dimension)
      ensures !found ==> nodes == old(nodes) && entryPoint == old(entryPoint) && maxLevel == old(maxLevel)
      ensures found ==> exists g :: Unreferenced(old(nodes), id, g) && nodes == g - {id}
      ensures found && id != old(entryPoint) ==> entryPoint == old(entryPoint) && maxLevel == old(maxLevel)
      ensures found && id != old(entryPoint) ==>
        (EntryOnTop() <==> if entryPoint == [] then old(nodes).Keys == {id} else Within(old(nodes) - {id}, maxLevel))
      ensures found && id == old(entryPoint) && !UnnamedLeads(old(nodes), id) ==> EntryOnTop()
      ensures found && id == old(entryPoint) && UnnamedAlone(old(nodes), id) ==> !EntryOnTop()
      ensures found && id == old(entryPoint) && nodes == map[] ==> maxLevel == -1
    {
      found := id in nodes;
      if !found {
        return;
      }
      var g := RemoveReferences(nodes, id);
      UnreferencedOk(nodes, id, g);
      nodes := g - {id};
      assert nodes.Keys == old(nodes).Keys - {id};
      assert nodes == map[] <==> nodes.Keys == {};
      if entryPoint == id {
        entryPoint, maxLevel := HighestNode(nodes);
        LeaderLeft(old(nodes), id, nodes, entryPoint);
      } else {
        SameOnTop(old(nodes) - {id}, nodes, maxLevel);
      }
    }
  }

  lemma SameOnTop(g: Graph, h: Graph, level: int)
    requires g.Keys == h.Keys && forall n | n in g :: h[n].level == g[n].level
    ensures Within(g, level) == Within(h, level)
  {
  }

  lemma OneMoreOnTop(g: Graph, id: string, h: Graph, level: int)
    requires h.Keys == g.Keys + {id} && id !in g && forall n | n in g :: h[n].level == g[n].level
    ensures Within(h, level) <==> Within(g, level) && h[id].level <= level
  {
    if Within(h, level) {
      forall n | n in g ensures g[n].level <= level { assert n in h; }
    }
  }

  /** Of the nodes left without id, one without a name can lead only when it is a highest, and must as the only one. */
  lemma LeaderLeft(g: Graph, id: string, h: Graph, leader: string)
    requires id in g && h.Keys == g.Keys - {id} && forall n | n in h :: h[n].level == g[n].level
    requires h == map[] || (leader in h && Within(h, h[leader].level))
    ensures h != map[] && leader == [] ==> UnnamedLeads(g, id)
    ensures UnnamedAlone(g, id) ==> h != map[] && leader == []
  {
    if UnnamedAlone(g, id) {
      assert [] in h && h[[]].level <= h[leader].level;
    }
    if h != map[] && leader == [] {
      forall n | n in g && n != id ensures g[n].level <= g[[]].level { assert n in h; }
    }
  }

  /**
   A vector without a name in an empty index is not found. The next vector replaces it as the entry point, below it
   and without a link.
   */
  method UnnamedEntry(metric: (Vec, Vec) -> real) returns (index: HnswIndex, r: SearchOutcome)
    ensures fresh(index) && r == Found([]) && index.nodes.Keys == {[], "a"} && index.entryPoint == "a"
    ensures index.nodes["a"].neighbors == [[]] && index.nodes[[]].level == 1 && index.maxLevel == 0
    ensures !index.EntryOnTop()
  {
    index := new HnswIndex(1, metric);
    var first := index.Insert([], [0.0], 1);
    assert !index.EntryOnTop();
    r := index.Search([0.0], 1, 1);
    var second := index.Insert("a", [0.0], 0);
    assert index.nodes["a"].neighbors == [[]];
  }

  /** Two vectors link to each other. */
  method LinkTwo(metric: (Vec, Vec) -> real) returns (index: HnswIndex)
    ensures fresh(index) && index.Valid() && index.EntryOnTop() && index.dimension == 1 && index.metric == metric
    ensures index.nodes.Keys == {"a", "b"}
    ensures index.nodes["a"].neighbors == [["b"]] && index.nodes["b"].neighbors == [["a"]]
  {
    index := new HnswIndex(1, metric);
    var first := index.Insert("a", [0.0], 0);
    assert index.nodes == map["a" := Bare([0.0], 0)];
    ghost var g0 := index.nodes["b" := Bare([1.0], 0)];
    var second := index.Insert("b", [1.0], 0);
    assert g0 == map["a" := Bare([0.0], 0), "b" := Bare([1.0], 0)];
    OneLink(g0, index.nodes, metric);
  }

  /** And a search finds both. */
  method TwoVectors(metric: (Vec, Vec) -> real) returns (r: SearchOutcome)
    ensures r.Found? && |r.results| == 2 && {r.results[0].id, r.results[1].id} == {"a", "b"}
  {
    var index := LinkTwo(metric);
    BothConnected(index.nodes);
    assert |index.nodes| == |index.nodes.Keys| == 2;
    r := index.Search([1.0], 2, 10);
    BothFound(index.nodes, From(metric, [1.0]), r.results);
  }

  lemma BothFound(g: Graph, dist: Vec -> real, res: seq<DistItem>)
    requires g.Keys == {"a", "b"} && TopK(g, dist, 2, res)
    ensures |res| == 2 && {res[0].id, res[1].id} == {"a", "b"}
  {
    assert |g.Keys| == 2;
    assert res[0] in res && res[1] in res;
  }

  lemma OneLink(g0: Graph, g: Graph, metric: (Vec, Vec) -> real)
    requires g0 == map["a" := Bare([0.0], 0), "b" := Bare([1.0], 0)] && GraphOk(g) && SameNodes(g0, g)
    requires Linked(g0, g, metric, "a", 0, "b")
    ensures g["a"].neighbors == [["b"]] && g["b"].neighbors == [["a"]]
  {
    var dist := From(metric, [1.0]);
    var starts, cands :| LinkedFrom(g0, g, metric, "a", 0, "b", 0, starts, cands);
    assert LinkedAt(g0, g, metric, "b", starts, cands, 0);
    var cand := cands[0];
    var seen :| LayerResult(g0, dist, "a", EF_CONSTRUCTION, 0, seen, cand);
    OnlyStart(g0, dist, seen, cand);
    assert Shortened(cand, Bound(0)) == cand && Ids(cand) == ["a"] && cand[0] in cand;
    assert BackLinked(g0, metric, "a", "b", 0, g);
    assert NodeOk(g["a"]) && NodeOk(g["b"]);
    assert [] + ["b"] == ["b"];
  }

  /** From a node without links a search finds that node alone. */
  lemma OnlyStart(g: Graph, dist: Vec -> real, seen: set<string>, cand: seq<DistItem>)
    requires "a" in g && NeighborsOf(g, "a", 0) == []
    requires LayerResult(g, dist, "a", EF_CONSTRUCTION, 0, seen, cand)
    ensures |cand| == 1 && cand[0].id == "a"
  {
    assert Closed(g, 0, {"a"});
    assert seen <= {"a"};
    ItemsBounded(g, dist, seen, ItemSet(cand));
    Sets.SubsetSize(seen, {"a"});
    assert cand[0] in ItemSet(cand);
  }

  lemma BothConnected(g: Graph)
    requires g.Keys == {"a", "b"} && g["a"].neighbors == [["b"]] && g["b"].neighbors == [["a"]]
    ensures StronglyConnected(g, 0)
  {
    forall s: set<string> | Closed(g, 0, s) && s != {} ensures s == g.Keys {
      assert "b" in NeighborsOf(g, "a", 0) && "a" in NeighborsOf(g, "b", 0);
      var x :| x in s;
      assert "a" in s <==> "b" in s;
    }
  }

  // ---------------------------------------------------------------------------
  // All layers of an insertion.
  // ---------------------------------------------------------------------------

  /** A search of the layer that finds the candidates. */
  ghost predicate FoundOn(g: Graph, dist: Vec -> real, start: string, level: nat, cand: seq<DistItem>) {
    exists seen :: LayerResult(g, dist, start, EF_CONSTRUCTION, level, seen, cand)
  }

  function Lesser(a: int, b: int): int { if a < b then a else b }

  /** Each search but the first begins at the nearest that was found on the layer above. */
  ghost predicate Follows(starts: map<int, string>, cands: map<int, seq<DistItem>>, l: int) {
    l in starts && l + 1 in cands && cands[l + 1] != [] && starts[l] == cands[l + 1][0].id
  }

  /** The first begins where the descent ends. */
  ghost predicate Chained(g0: Graph, dist: Vec -> real, entry: string, maxLevel: int, level: int, from: int,
                          starts: map<int, string>, cands: map<int, seq<DistItem>>)
    requires 0 <= level
  {
    var top := Lesser(maxLevel, level);
    && (from <= top ==> top in starts && Descends(g0, dist, entry, maxLevel, level, starts[top]))
    && forall l {:trigger Follows(starts, cands, l)} | from <= l < top :: Follows(starts, cands, l)
  }

  ghost predicate OutsideSame(g0: Graph, g: Graph, from: int, top: int) {
    forall l: nat | l < from || l > top :: SameLayer(g0, g, l)
  }

  ghost predicate LinkedAt(g0: Graph, g: Graph, metric: (Vec, Vec) -> real, id: string, starts: map<int, string>,
                           cands: map<int, seq<DistItem>>, l: int)
  {
    0 <= l && l in starts && l in cands && LinkedOn(g0, g, metric, id, l, starts[l], cands[l])
  }

  /**
   From the layer `from` up to the lower of the two top layers, the new node is linked to the nearest of what a search
   finds there. The layers outside are as they were.
   */
  ghost predicate LinkedFrom(g0: Graph, g: Graph, metric: (Vec, Vec) -> real, entry: string, maxLevel: int, id: string,
                             from: int, starts: map<int, string>, cands: map<int, seq<DistItem>>)
    requires id in g0 && 0 <= g0[id].level
  {
    var top := Lesser(maxLevel, g0[id].level);
    && Chained(g0, From(metric, g0[id].vec), entry, maxLevel, g0[id].level, from, starts, cands)
    && AllLinked(g0, g, metric, id, from, top, starts, cands) && OutsideSame(g0, g, from, top)
  }

  ghost predicate AllLinked(g0: Graph, g: Graph, metric: (Vec, Vec) -> real, id: string, from: int, top: int,
                            starts: map<int, string>, cands: map<int, seq<DistItem>>)
  {
    forall l {:trigger LinkedAt(g0, g, metric, id, starts, cands, l)} | from <= l <= top ::
      LinkedAt(g0, g, metric, id, starts, cands, l)
  }

  ghost predicate LinkedOn(g0: Graph, g: Graph, metric: (Vec, Vec) -> real, id: string, level: nat, start: string,
                           cand: seq<DistItem>)
  {
    id in g0 && FoundOn(g0, From(metric, g0[id].vec), start, level, cand)
    && LayerLinked(g0, g, metric, id, level, cand)
  }

  /** The whole insertion of a node, given the graph with the node in it but without links. */
  ghost predicate Linked(g0: Graph, g: Graph, metric: (Vec, Vec) -> real, entry: string, maxLevel: int, id: string)
    requires id in g0 && 0 <= g0[id].level
  {
    exists starts, cands :: LinkedFrom(g0, g, metric, entry, maxLevel, id, 0, starts, cands)
  }

  /** On every layer it shares with the graph a new node has a neighbour. */
  lemma NewNodeIsLinked(g0: Graph, g: Graph, metric: (Vec, Vec) -> real, entry: string, maxLevel: int, id: string,
                        l: nat)
    requires id in g0 && 0 <= g0[id].level && l <= Lesser(maxLevel, g0[id].level)
    requires Linked(g0, g, metric, entry, maxLevel, id)
    ensures id in g && NeighborsOf(g, id, l) != []
  {
    var starts, cands :| LinkedFrom(g0, g, metric, entry, maxLevel, id, 0, starts, cands);
    assert LinkedAt(g0, g, metric, id, starts, cands, l);
    var selected := Shortened(cands[l], Bound(l));
    var seen :| LayerResult(g0, From(metric, g0[id].vec), starts[l], EF_CONSTRUCTION, l, seen, cands[l]);
    if id in IdSet(selected) {
      LinkedInMeans(g0, From(metric, g0[id].vec), Ids(selected), id, l, NeighborsOf(g, id, l));
    }
  }

  /** What a search of a layer finds depends on that layer alone. */
  lemma LayerResultSame(a: Graph, b: Graph, dist: Vec -> real, entry: string, ef: int, level: nat, seen: set<string>,
                        res: seq<DistItem>)
    requires SameNodes(a, b) && SameLayer(a, b, level) && LayerResult(a, dist, entry, ef, level, seen, res)
    ensures LayerResult(b, dist, entry, ef, level, seen, res)
  {
    forall t: set<string> ensures Closed(a, level, t) <==> Closed(b, level, t) {
    }
    forall x, n | x in res && x.id in b && n in NeighborsOf(b, x.id, level) && n in b ensures n in seen {
      assert n in NeighborsOf(a, x.id, level);
    }
  }

  lemma LayerLinkedSame(a: Graph, b: Graph, g: Graph, g': Graph, metric: (Vec, Vec) -> real, id: string, level: nat,
                        cand: seq<DistItem>)
    requires GraphOk(a) && GraphOk(b) && SameNodes(a, b) && SameLayer(a, b, level) && SameLayer(g, g', level)
    requires LayerLinked(a, g, metric, id, level, cand)
    ensures LayerLinked(b, g', metric, id, level, cand)
  {
    var selected := Shortened(cand, Bound(level));
    if id in IdSet(selected) {
      LinkedInSame(b, a, From(metric, a[id].vec), Ids(selected), id, level, NeighborsOf(g, id, level));
    }
    forall x | x in selected && x.id != id ensures BackLinked(b, metric, x.id, id, level, g') {
      assert BackLinked(a, metric, x.id, id, level, g);
      assert NodeOk(a[x.id]) && NodeOk(b[x.id]);
      if level < |b[x.id].neighbors| {
        LinkedInSame(b, a, From(metric, a[x.id].vec), a[x.id].neighbors[level], id, level, NeighborsOf(g, x.id, level));
        assert NeighborsOf(a, x.id, level) == NeighborsOf(b, x.id, level);
      }
    }
  }

  /** Where the search of the next layer begins. */
  ghost predicate NextStart(g0: Graph, dist: Vec -> real, entry: string, maxLevel: int, level: int, l: int,
                            cands: map<int, seq<DistItem>>, curr: string)
    requires 0 <= level
  {
    if l == Lesser(maxLevel, level) then Descends(g0, dist, entry, maxLevel, level, curr)
    else l + 1 in cands && cands[l + 1] != [] && curr == cands[l + 1][0].id
  }

  lemma ChainedNext(g0: Graph, dist: Vec -> real, entry: string, maxLevel: int, level: int, l: int,
                    starts: map<int, string>, cands: map<int, seq<DistItem>>, curr: string, cand: seq<DistItem>)
    requires 0 <= level && 0 <= l <= Lesser(maxLevel, level)
    requires Chained(g0, dist, entry, maxLevel, level, l + 1, starts, cands)
    requires NextStart(g0, dist, entry, maxLevel, level, l, cands, curr)
    ensures Chained(g0, dist, entry, maxLevel, level, l, starts[l := curr], cands[l := cand])
  {
    var starts', cands' := starts[l := curr], cands[l := cand];
    forall j | l < j < Lesser(maxLevel, level) ensures Follows(starts', cands', j) {
      assert Follows(starts, cands, j);
    }
  }

  lemma OutsideSameNext(g0: Graph, g: Graph, g': Graph, l: int, top: int)
    requires 0 <= l <= top && OutsideSame(g0, g, l + 1, top) && OtherLayersSame(g, g', l)
    ensures OutsideSame(g0, g', l, top)
  {
    forall j: nat | j < l || j > top ensures SameLayer(g0, g', j) {
      assert SameLayer(g0, g, j) && SameLayer(g, g', j);
    }
  }

  /** Work on a lower layer leaves a layer linked. */
  lemma LinkedOnStays(g0: Graph, g: Graph, g': Graph, metric: (Vec, Vec) -> real, id: string, j: nat, start: string,
                      cand: seq<DistItem>)
    requires GraphOk(g0) && LinkedOn(g0, g, metric, id, j, start, cand) && SameLayer(g, g', j)
    ensures LinkedOn(g0, g', metric, id, j, start, cand)
  {
    LayerLinkedSame(g0, g0, g, g', metric, id, j, cand);
  }

  /** What was done on a layer of the graph at that time is right for the graph at the beginning. */
  lemma LinkedOnNow(g0: Graph, g: Graph, g': Graph, metric: (Vec, Vec) -> real, id: string, l: nat, curr: string,
                    seen: set<string>, cand: seq<DistItem>)
    requires GraphOk(g0) && GraphOk(g) && SameNodes(g0, g) && id in g0 && SameLayer(g0, g, l) && g.Keys == g'.Keys
    requires LayerResult(g, From(metric, g0[id].vec), curr, EF_CONSTRUCTION, l, seen, cand)
    requires LayerLinked(g, g', metric, id, l, cand)
    ensures LinkedOn(g0, g', metric, id, l, curr, cand)
  {
    LayerResultSame(g, g0, From(metric, g0[id].vec), curr, EF_CONSTRUCTION, l, seen, cand);
    LayerLinkedSame(g, g0, g', g', metric, id, l, cand);
  }

  /** One layer: a search, and the links to the nearest found. */
  method LinkNext(ghost g0: Graph, g: Graph, metric: (Vec, Vec) -> real, ghost entry: string, ghost maxLevel: int,
                  id: string, vec: Vec, l: nat, curr: string, ghost starts: map<int, string>,
                  ghost cands: map<int, seq<DistItem>>)
    returns (g': Graph, cand: seq<DistItem>)
    requires GraphOk(g0) && GraphOk(g) && SameNodes(g0, g) && id in g0 && g0[id].vec == vec && curr in g
    requires l <= Lesser(maxLevel, g0[id].level)
    requires LinkedFrom(g0, g, metric, entry, maxLevel, id, l + 1, starts, cands)
    requires NextStart(g0, From(metric, vec), entry, maxLevel, g0[id].level, l, cands, curr)
    ensures GraphOk(g') && SameNodes(g0, g') && cand != [] && cand[0].id in g'
    ensures LinkedFrom(g0, g', metric, entry, maxLevel, id, l, starts[l := curr], cands[l := cand])
  {
    assert NodeOk(g[id]) && NodeOk(g0[id]);
    ghost var top := Lesser(maxLevel, g0[id].level);
    ghost var seen;
    cand, seen := SearchLayer(g, From(metric, vec), curr, EF_CONSTRUCTION, l);
    assert forall x | x in cand :: x in ItemSet(cand);
    g' := LinkLayer(g, metric, id, cand, l);
    assert SameLayer(g0, g, l);
    LinkedOnNow(g0, g, g', metric, id, l, curr, seen, cand);
    LinkedFromNext(g0, g, g', metric, entry, maxLevel, id, l, starts, cands, curr, cand);
  }

  lemma LinkedFromNext(g0: Graph, g: Graph, g': Graph, metric: (Vec, Vec) -> real, entry: string, maxLevel: int,
                       id: string, l: nat, starts: map<int, string>, cands: map<int, seq<DistItem>>, curr: string,
                       cand: seq<DistItem>)
    requires GraphOk(g0) && id in g0 && 0 <= g0[id].level && l <= Lesser(maxLevel, g0[id].level)
    requires LinkedFrom(g0, g, metric, entry, maxLevel, id, l + 1, starts, cands)
    requires NextStart(g0, From(metric, g0[id].vec), entry, maxLevel, g0[id].level, l, cands, curr)
    requires LinkedOn(g0, g', metric, id, l, curr, cand) && OtherLayersSame(g, g', l)
    ensures LinkedFrom(g0, g', metric, entry, maxLevel, id, l, starts[l := curr], cands[l := cand])
  {
    var top := Lesser(maxLevel, g0[id].level);
    ChainedNext(g0, From(metric, g0[id].vec), entry, maxLevel, g0[id].level, l, starts, cands, curr, cand);
    OutsideSameNext(g0, g, g', l, top);
    assert LinkedAt(g0, g', metric, id, starts[l := curr], cands[l := cand], l);
    AllLinkedNext(g0, g, g', metric, id, l, top, starts, cands, curr, cand);
  }

  lemma AllLinkedNext(g0: Graph, g: Graph, g': Graph, metric: (Vec, Vec) -> real, id: string, l: nat, top: int,
                      starts: map<int, string>, cands: map<int, seq<DistItem>>, curr: string, cand: seq<DistItem>)
    requires GraphOk(g0) && AllLinked(g0, g, metric, id, l + 1, top, starts, cands) && OtherLayersSame(g, g', l)
    requires LinkedAt(g0, g', metric, id, starts[l := curr], cands[l := cand], l)
    ensures AllLinked(g0, g', metric, id, l, top, starts[l := curr], cands[l := cand])
  {
    var starts', cands' := starts[l := curr], cands[l := cand];
    forall j | l < j <= top ensures LinkedAt(g0, g', metric, id, starts', cands', j) {
      assert SameLayer(g, g', j);
      LinkedAtStays(g0, g, g', metric, id, l, starts, cands, curr, cand, j);
    }
  }

  lemma LinkedAtStays(g0: Graph, g: Graph, g': Graph, metric: (Vec, Vec) -> real, id: string, l: nat,
                      starts: map<int, string>, cands: map<int, seq<DistItem>>, curr: string, cand: seq<DistItem>,
                      j: int)
    requires GraphOk(g0) && l < j && LinkedAt(g0, g, metric, id, starts, cands, j) && SameLayer(g, g', j)
    ensures LinkedAt(g0, g', metric, id, starts[l := curr], cands[l := cand], j)
  {
    LinkedOnStays(g0, g, g', metric, id, j, starts[j], cands[j]);
  }

  /** Links a new node, already in the graph with empty lists, on all layers it shares with the graph. */
  method InsertLinks(g0: Graph, metric: (Vec, Vec) -> real, entry: string, maxLevel: int, id: string, vec: Vec,
                     nodeLevel: int)
    returns (g: Graph)
    requires entry in g0 && id in g0 && g0[id].level == nodeLevel >= 0 && g0[id].vec == vec && GraphOk(g0)
    requires 0 <= maxLevel
    ensures GraphOk(g) && SameNodes(g0, g) && Linked(g0, g, metric, entry, maxLevel, id)
  {
    g := g0;
    var curr := Descend(g, From(metric, vec), entry, maxLevel, nodeLevel);
    var l := if maxLevel < nodeLevel then maxLevel else nodeLevel;
    ghost var starts: map<int, string>, cands: map<int, seq<DistItem>> := map[], map[];
    while l >= 0
      invariant -1 <= l <= Lesser(maxLevel, nodeLevel)
      invariant GraphOk(g) && SameNodes(g0, g) && curr in g
      invariant LinkedFrom(g0, g, metric, entry, maxLevel, id, l + 1, starts, cands)
      invariant NextStart(g0, From(metric, vec), entry, maxLevel, nodeLevel, l, cands, curr)
    {
      var cand;
      g, cand := LinkNext(g0, g, metric, entry, maxLevel, id, vec, l, curr, starts, cands);
      starts, cands := starts[l := curr], cands[l := cand];
      if |cand| > 0 {
        curr := cand[0].id;
      }
      l := l - 1;
    }
  }

  function Without(list: seq<string>, id: string): (r: seq<string>)
    ensures |r| <= |list| && id !in r
  {
    if list == [] then [] else (if list[0] != id then [list[0]] else []) + Without(list[1..], id)
  }

  lemma {:induction false} WithoutTwice(list: seq<string>, id: string)
    ensures Without(Without(list, id), id) == Without(list, id)
  {
    if list != [] {
      WithoutTwice(list[1..], id);
      var r := Without(list, id);
      if list[0] != id {
        assert r[0] == list[0] && r[1..] == Without(list[1..], id);
      } else {
        assert r == Without(list[1..], id);
      }
    }
  }

  /** A neighbour list after the deletion of id: cleaned on the layers where id linked to its owner. */
  ghost predicate Unreferenced(g: Graph, id: string, g': Graph)
    requires id in g
  {
    && SameNodes(g, g')
    && (forall n | n in g :: |g'[n].neighbors| == |g[n].neighbors|)
    && forall n, l | n in g && 0 <= l < |g[n].neighbors| :: g'[n].neighbors[l] == Cleaned(g, id, n, l)
  }

  ghost function Cleaned(g: Graph, id: string, n: string, l: int): seq<string>
    requires id in g && n in g && 0 <= l < |g[n].neighbors|
  {
    if n in NeighborsOf(g, id, l) then Without(g[n].neighbors[l], id) else g[n].neighbors[l]
  }

  lemma UnreferencedOk(g: Graph, id: string, g': Graph)
    requires id in g && Unreferenced(g, id, g') && GraphOk(g)
    ensures GraphOk(g')
  {
    forall n | n in g' ensures NodeOk(g'[n]) {
      assert NodeOk(g[n]);
      forall l | 0 <= l < |g'[n].neighbors| ensures |g'[n].neighbors[l]| <= Bound(l) {
        assert |g'[n].neighbors[l]| <= |g[n].neighbors[l]|;
      }
    }
  }

  method RemoveReferences(g: Graph, id: string) returns (g': Graph)
    requires id in g
    ensures Unreferenced(g, id, g')
  {
    g' := g;
    var l := 0;
    while l < |g[id].neighbors|
      invariant 0 <= l <= |g[id].neighbors| && CleanedBelow(g, id, g', l)
    {
      g' := CleanLayer(g, g', id, l);
      l := l + 1;
    }
    AllCleaned(g, id, g', l);
  }

  lemma AllCleaned(g: Graph, id: string, g': Graph, k: int)
    requires id in g && k == |g[id].neighbors| && CleanedBelow(g, id, g', k)
    ensures Unreferenced(g, id, g')
  {
    forall n | n in g ensures |g'[n].neighbors| == |g[n].neighbors| {
      assert CleanedNode(g, id, g'[n], k, false, n);
    }
    forall n, l | n in g && 0 <= l < |g[n].neighbors| ensures g'[n].neighbors[l] == Cleaned(g, id, n, l) {
      assert CleanedNode(g, id, g'[n], k, false, n);
    }
  }

  /** Layers below k are done, the others are as they were. */
  ghost predicate CleanedBelow(g: Graph, id: string, g': Graph, k: int)
    requires id in g
  {
    CleanedPart(g, id, g', k, {})
  }

  /** Layers below k are done, and on layer k the nodes in `done`. */
  ghost predicate CleanedPart(g: Graph, id: string, g': Graph, k: int, done: set<string>)
    requires id in g
  {
    SameNodes(g, g') && forall n | n in g :: CleanedNode(g, id, g'[n], k, n in done, n)
  }

  ghost predicate CleanedNode(g: Graph, id: string, node: Node, k: int, done: bool, n: string)
    requires id in g && n in g
  {
    && |node.neighbors| == |g[n].neighbors|
    && forall l | 0 <= l < |node.neighbors| ::
      node.neighbors[l] == if l < k || (l == k && done) then Cleaned(g, id, n, l) else g[n].neighbors[l]
  }

  lemma CleanNodeOnce(g: Graph, id: string, node: Node, k: int, done: bool, n: string)
    requires id in g && n in g && 0 <= k < |g[n].neighbors| && CleanedNode(g, id, node, k, done, n)
    requires n in NeighborsOf(g, id, k)
    ensures CleanedNode(g, id, node.(neighbors := node.neighbors[k := Without(node.neighbors[k], id)]), k, true, n)
  {
    WithoutTwice(g[n].neighbors[k], id);
  }

  lemma CleanOne(g: Graph, id: string, g': Graph, k: int, done: set<string>, n: string)
    requires id in g && n in g && 0 <= k < |g[n].neighbors| && CleanedPart(g, id, g', k, done)
    requires n in NeighborsOf(g, id, k)
    ensures k < |g'[n].neighbors|
    ensures CleanedPart(g, id, SetNeighbors(g', n, k, Without(g'[n].neighbors[k], id)), k, done + {n})
  {
    assert CleanedNode(g, id, g'[n], k, n in done, n);
    CleanNodeOnce(g, id, g'[n], k, n in done, n);
    var h := SetNeighbors(g', n, k, Without(g'[n].neighbors[k], id));
    forall m | m in g ensures CleanedNode(g, id, h[m], k, m in done + {n}, m) {
      assert CleanedNode(g, id, g'[m], k, m in done, m);
    }
  }

  lemma CleanNone(g: Graph, id: string, g': Graph, k: int, done: set<string>, n: string)
    requires id in g && 0 <= k && CleanedPart(g, id, g', k, done) && (n in g ==> k >= |g[n].neighbors|)
    ensures CleanedPart(g, id, g', k, done + {n})
  {
    forall m | m in g ensures CleanedNode(g, id, g'[m], k, m in done + {n}, m) {
      assert CleanedNode(g, id, g'[m], k, m in done, m);
    }
  }

  lemma LayerCleaned(g: Graph, id: string, g': Graph, k: int, done: set<string>)
    requires id in g && 0 <= k && CleanedPart(g, id, g', k, done) && done == set n | n in NeighborsOf(g, id, k)
    ensures CleanedBelow(g, id, g', k + 1)
  {
    forall n | n in g ensures CleanedNode(g, id, g'[n], k + 1, false, n) {
      assert CleanedNode(g, id, g'[n], k, n in done, n);
    }
  }

  method CleanLayer(g: Graph, g0: Graph, id: string, k: int) returns (g': Graph)
    requires id in g && 0 <= k < |g[id].neighbors| && CleanedBelow(g, id, g0, k)
    ensures CleanedBelow(g, id, g', k + 1)
  {
    g' := g0;
    var list := g[id].neighbors[k];
    ghost var done: set<string> := {};
    var i := 0;
    while i < |list|
      invariant 0 <= i <= |list| && CleanedPart(g, id, g', k, done) && done == set n | n in list[..i]
    {
      var n := list[i];
      assert list[..i + 1] == list[..i] + [n];
      i := i + 1;
      if n in g && k < |g[n].neighbors| {
        CleanOne(g, id, g', k, done, n);
        g' := SetNeighbors(g', n, k, Without(g'[n].neighbors[k], id));
      } else {
        CleanNone(g, id, g', k, done, n);
      }
      done := done + {n};
    }
    assert list[..i] == list;
    LayerCleaned(g, id, g', k, done);
  }

  /** A node on the highest layer, and that layer; Go's map order decides between several. */
  method HighestNode(g: Graph) returns (id: string, level: int)
    requires forall n | n in g :: g[n].level >= 0
    ensures g == map[] ==> id == [] && level == -1
    ensures g != map[] ==> id in g && g[id].level == level && forall n | n in g :: g[n].level <= level
  {
    id, level := [], -1;
    var rest := g.Keys;
    while rest != {}
      invariant rest <= g.Keys
      invariant rest == g.Keys ==> id == [] && level == -1
      invariant rest != g.Keys ==> id in g && g[id].level == level
      invariant forall n | n in g && n !in rest :: g[n].level <= level
    {
      var n :| n in rest;
      if g[n].level > level {
        level := g[n].level;
        id := n;
      }
      rest := rest - {n};
    }
    assert g != map[] ==> g.Keys != {};
  }

  function Wanted(topK: int): int {
    if topK <= 0 then 10 else topK
  }
}


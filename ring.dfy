/** Bounded breadth-first rings over a mesh's vertex adjacency: the `n_ring` generator of
    utils.py, which lists the vertices around a start vertex nearest first. */
module Ring {

  /** nbrs[u] lists the other ends of u's edges, in the mesh's link order. */
  ghost predicate ValidGraph(nbrs: seq<seq<nat>>) {
    forall u, e :: 0 <= u < |nbrs| && 0 <= e < |nbrs[u]| ==> nbrs[u][e] < |nbrs|
  }

  predicate Adjacent(nbrs: seq<seq<nat>>, u: nat, w: nat) {
    u < |nbrs| && w in nbrs[u]
  }

  /** w is a walk: each vertex on it is adjacent to the next. */
  ghost predicate IsWalk(nbrs: seq<seq<nat>>, w: seq<nat>) {
    forall i :: 0 <= i < |w| - 1 ==> Adjacent(nbrs, w[i], w[i + 1])
  }

  /** u lies at graph distance at most k from v: some walk of at most k edges leads there. */
  ghost predicate Reach(nbrs: seq<seq<nat>>, v: nat, u: nat, k: nat) {
    exists w :: 1 <= |w| <= k + 1 && w[0] == v && w[|w| - 1] == u && IsWalk(nbrs, w)
  }

  // ---------------------------------------------------------------------------------------
  // What a ring is: the properties n_ring's output has, for a start vertex v and a bound n.
  // ---------------------------------------------------------------------------------------

  /** The start vertex is never listed (the seen-set starts as {v}). */
  ghost predicate ExcludesStart(v: nat, out: seq<nat>) {
    v !in out
  }

  /** No vertex is listed twice. */
  ghost predicate Distinct(out: seq<nat>) {
    forall i, j :: 0 <= i < j < |out| ==> out[i] != out[j]
  }

  /** At most n vertices are listed; with n <= 0 the generator still yields one before stopping. */
  ghost predicate Bounded(n: int, out: seq<nat>) {
    |out| <= if n >= 1 then n else 1
  }

  /** Every listed vertex is a neighbour of the start or of a vertex listed before it. */
  ghost predicate Connected(nbrs: seq<seq<nat>>, v: nat, out: seq<nat>) {
    forall i :: 0 <= i < |out| ==>
      Adjacent(nbrs, v, out[i]) || exists j :: 0 <= j < i && Adjacent(nbrs, out[j], out[i])
  }

  /** Graph distances from v never decrease along the list: whatever lies within k edges of v
      is preceded only by vertices that also lie within k edges of v. */
  ghost predicate NearestFirst(nbrs: seq<seq<nat>>, v: nat, out: seq<nat>) {
    forall i, j, k: nat :: 0 <= i < j < |out| && Reach(nbrs, v, out[j], k) ==> Reach(nbrs, v, out[i], k)
  }

  /** u occurs in the scan "neighbours of nodes[0], then of nodes[1], ..." strictly before
      position e of the neighbour list of nodes[q]. */
  ghost predicate ScannedBefore(nbrs: seq<seq<nat>>, nodes: seq<nat>, u: nat, q: int, e: int) {
    exists q0, e0 :: 0 <= q0 < |nodes| && nodes[q0] < |nbrs| && 0 <= e0 < |nbrs[nodes[q0]]|
      && (q0 < q || (q0 == q && e0 < e)) && nbrs[nodes[q0]][e0] == u
  }

  /** Listing order is first-discovery order of the scan over [v] + out, parents in list
      order and each parent's edges in link order: any occurrence in that scan of a later
      vertex comes after an occurrence of every earlier one. */
  ghost predicate ScanOrder(nbrs: seq<seq<nat>>, v: nat, out: seq<nat>) {
    var nodes := [v] + out;
    forall i, j, q, e ::
      (0 <= i < j < |out| && 0 <= q < |nodes| && nodes[q] < |nbrs|
       && 0 <= e < |nbrs[nodes[q]]| && nbrs[nodes[q]][e] == out[j]) ==>
      ScannedBefore(nbrs, nodes, out[i], q, e)
  }

  /** Unless the bound cut it short, every vertex reachable from v (other than v) is listed. */
  ghost predicate Complete(nbrs: seq<seq<nat>>, v: nat, n: int, out: seq<nat>) {
    |out| == 0 || |out| < n ==>
      forall u, k: nat :: Reach(nbrs, v, u, k) && u != v ==> u in out
  }

  /** out is what the scan (Run, below) has listed at a point where n_ring returns: the scan
      has run out of parents, or the n-th vertex (the first, when n <= 0) has just been
      listed. Together with Bounded this fixes out completely (RingDeterminate). */
  ghost predicate Halted(nbrs: seq<seq<nat>>, v: nat, n: int, out: seq<nat>) {
    exists t: nat :: Run(nbrs, v, t).nodes == [v] + out
      && (Run(nbrs, v, t).p == |Run(nbrs, v, t).nodes| || (|out| >= 1 && |out| >= n))
  }

  ghost predicate IsRing(nbrs: seq<seq<nat>>, v: nat, n: int, out: seq<nat>) {
    && Halted(nbrs, v, n, out)
    && ExcludesStart(v, out)
    && Distinct(out)
    && Bounded(n, out)
    && Connected(nbrs, v, out)
    && NearestFirst(nbrs, v, out)
    && ScanOrder(nbrs, v, out)
    && Complete(nbrs, v, n, out)
  }


  // ---------------------------------------------------------------------------------------
  // The scan n_ring performs, one step at a time: the listed vertices with the position
  // (parent index, edge index) and distance of each discovery, and the next position p, e.
  // ---------------------------------------------------------------------------------------

  datatype Scan = Scan(nodes: seq<nat>, seen: set<nat>, par: seq<nat>, eidx: seq<nat>,
                       lv: seq<nat>, p: nat, e: nat)

  /** Lexicographic order on scan positions (parent index, edge index). */
  predicate Before(q: nat, f: nat, p: nat, e: nat) {
    q < p || (q == p && f < e)
  }

  function Start(v: nat): Scan {
    Scan([v], {v}, [], [], [0], 0, 0)
  }

  /** The state after discovering w at the current position. */
  function Grow(s: Scan, w: nat): Scan {
    Scan(s.nodes + [w], s.seen + {w}, s.par + [s.p], s.eidx + [s.e],
         s.lv + [if s.p < |s.lv| then s.lv[s.p] + 1 else 0], s.p, s.e + 1)
  }

  /** One step: look at the next edge of the current parent, or move on to the next parent. */
  function ScanStep(nbrs: seq<seq<nat>>, s: Scan): Scan {
    if s.p >= |s.nodes| || s.nodes[s.p] >= |nbrs| then s
    else if s.e >= |nbrs[s.nodes[s.p]]| then s.(p := s.p + 1, e := 0)
    else if nbrs[s.nodes[s.p]][s.e] in s.seen then s.(e := s.e + 1)
    else Grow(s, nbrs[s.nodes[s.p]][s.e])
  }

  function Run(nbrs: seq<seq<nat>>, v: nat, t: nat): Scan {
    if t == 0 then Start(v) else ScanStep(nbrs, Run(nbrs, v, t - 1))
  }

  // ---------------------------------------------------------------------------------------
  // What every point of the scan satisfies.
  // ---------------------------------------------------------------------------------------

  ghost predicate Shape(nbrs: seq<seq<nat>>, v: nat, s: Scan) {
    && |s.nodes| >= 1 && s.nodes[0] == v
    && |s.par| == |s.nodes| - 1 && |s.eidx| == |s.par| && |s.lv| == |s.nodes| && s.lv[0] == 0
    && s.p <= |s.nodes|
    && (forall q :: 0 <= q < |s.nodes| ==> s.nodes[q] < |nbrs|)
    && (s.p < |s.nodes| ==> s.e <= |nbrs[s.nodes[s.p]]|)
    && (forall i :: 0 <= i < |s.par| ==> s.par[i] <= i && s.eidx[i] < |nbrs[s.nodes[s.par[i]]]|)
  }

  /** The seen set holds exactly the listed vertices. */
  ghost predicate SeenNodes(s: Scan) {
    && (forall u :: u in s.seen <==> u in s.nodes)
    && |s.seen| == |s.nodes|
  }

  /** Each vertex after the start sits at its recorded position, which was already scanned. */
  ghost predicate Parents(nbrs: seq<seq<nat>>, v: nat, s: Scan)
    requires Shape(nbrs, v, s)
  {
    forall i :: 0 <= i < |s.par| ==>
      nbrs[s.nodes[s.par[i]]][s.eidx[i]] == s.nodes[i + 1] && Before(s.par[i], s.eidx[i], s.p, s.e)
  }

  /** Discovery positions increase along the list. */
  ghost predicate Ordered(s: Scan)
    requires |s.eidx| == |s.par|
  {
    forall i, j :: 0 <= i < j < |s.par| ==> Before(s.par[i], s.eidx[i], s.par[j], s.eidx[j])
  }

  /** Everything found at a scanned position has been seen. */
  ghost predicate Closed(nbrs: seq<seq<nat>>, v: nat, s: Scan)
    requires Shape(nbrs, v, s)
  {
    forall q, f :: 0 <= q < |s.nodes| && 0 <= f < |nbrs[s.nodes[q]]| && Before(q, f, s.p, s.e) ==>
      nbrs[s.nodes[q]][f] in s.seen
  }

  /** No vertex occurs in the scan before its recorded discovery position. */
  ghost predicate FirstFound(nbrs: seq<seq<nat>>, v: nat, s: Scan)
    requires Shape(nbrs, v, s)
  {
    forall i, q, f ::
      (0 <= i < |s.par| && 0 <= q < |s.nodes| && 0 <= f < |nbrs[s.nodes[q]]|
       && Before(q, f, s.par[i], s.eidx[i])) ==> nbrs[s.nodes[q]][f] != s.nodes[i + 1]
  }

  /** lv[q] is the graph distance of nodes[q] from v. */
  ghost predicate LevelsExact(nbrs: seq<seq<nat>>, v: nat, s: Scan)
    requires Shape(nbrs, v, s)
  {
    && (forall q :: 0 <= q < |s.nodes| ==> Reach(nbrs, v, s.nodes[q], s.lv[q]))
    && (forall q :: 0 <= q < |s.nodes| && s.lv[q] > 0 ==> !Reach(nbrs, v, s.nodes[q], s.lv[q] - 1))
  }

  ghost predicate LevelsSorted(s: Scan) {
    forall q1, q2 :: 0 <= q1 < q2 < |s.lv| ==> s.lv[q1] <= s.lv[q2]
  }

  /** Nothing listed is more than one edge further out than the current parent, and everything
      as near as the current parent has been seen. */
  ghost predicate Frontier(nbrs: seq<seq<nat>>, v: nat, s: Scan)
    requires Shape(nbrs, v, s)
  {
    s.p < |s.nodes| ==>
      && (forall q :: 0 <= q < |s.nodes| ==> s.lv[q] <= s.lv[s.p] + 1)
      && (forall u :: Reach(nbrs, v, u, s.lv[s.p]) ==> u in s.seen)
  }

  ghost predicate Inv(nbrs: seq<seq<nat>>, v: nat, s: Scan) {
    && Shape(nbrs, v, s) && SeenNodes(s) && Distinct(s.nodes)
    && Parents(nbrs, v, s) && Ordered(s) && Closed(nbrs, v, s) && FirstFound(nbrs, v, s)
    && LevelsExact(nbrs, v, s) && LevelsSorted(s) && Frontier(nbrs, v, s)
  }

  // ---------------------------------------------------------------------------------------
  // Graph-distance facts.
  // ---------------------------------------------------------------------------------------

  lemma ReachStart(nbrs: seq<seq<nat>>, v: nat, k: nat)
    ensures Reach(nbrs, v, v, k)
  {
    assert IsWalk(nbrs, [v]);
  }

  lemma ReachZero(nbrs: seq<seq<nat>>, v: nat, u: nat)
    requires Reach(nbrs, v, u, 0)
    ensures u == v
  {
  }

  lemma ReachMono(nbrs: seq<seq<nat>>, v: nat, u: nat, k1: nat, k2: nat)
    requires Reach(nbrs, v, u, k1) && k1 <= k2
    ensures Reach(nbrs, v, u, k2)
  {
    var w :| 1 <= |w| <= k1 + 1 && w[0] == v && w[|w| - 1] == u && IsWalk(nbrs, w);
    assert 1 <= |w| <= k2 + 1;
  }

  /** One more edge takes a vertex within k edges to one within k + 1. */
  lemma ReachExtend(nbrs: seq<seq<nat>>, v: nat, u: nat, x: nat, k: nat)
    requires Reach(nbrs, v, u, k) && Adjacent(nbrs, u, x)
    ensures Reach(nbrs, v, x, k + 1)
  {
    var w :| 1 <= |w| <= k + 1 && w[0] == v && w[|w| - 1] == u && IsWalk(nbrs, w);
    var w' := w + [x];
    assert forall i :: 0 <= i < |w'| - 1 ==> Adjacent(nbrs, w'[i], w'[i + 1]) by {
      forall i | 0 <= i < |w'| - 1
        ensures Adjacent(nbrs, w'[i], w'[i + 1])
      {
        if i < |w| - 1 {
          assert w'[i] == w[i] && w'[i + 1] == w[i + 1];
        }
      }
    }
    assert IsWalk(nbrs, w');
  }

  /** A vertex within k + 1 edges, other than v, has a neighbour-predecessor within k edges. */
  lemma ReachBack(nbrs: seq<seq<nat>>, v: nat, x: nat, k: nat) returns (u: nat)
    requires Reach(nbrs, v, x, k + 1) && x != v
    ensures Reach(nbrs, v, u, k) && Adjacent(nbrs, u, x)
  {
    var w :| 1 <= |w| <= k + 2 && w[0] == v && w[|w| - 1] == x && IsWalk(nbrs, w);
    var w' := w[..|w| - 1];
    u := w[|w| - 2];
    assert IsWalk(nbrs, w') by {
      forall i | 0 <= i < |w'| - 1
        ensures Adjacent(nbrs, w'[i], w'[i + 1])
      {
        assert w'[i] == w[i] && w'[i + 1] == w[i + 1];
      }
    }
    assert Adjacent(nbrs, w[|w| - 2], w[|w| - 1]);
  }

  /** A vertex listed at distance lv is within k edges exactly when k >= lv. */
  lemma ReachIffLevel(nbrs: seq<seq<nat>>, v: nat, s: Scan, q: nat, k: nat)
    requires Shape(nbrs, v, s) && LevelsExact(nbrs, v, s) && q < |s.nodes|
    ensures Reach(nbrs, v, s.nodes[q], k) <==> s.lv[q] <= k
  {
    if s.lv[q] <= k {
      ReachMono(nbrs, v, s.nodes[q], s.lv[q], k);
    } else if Reach(nbrs, v, s.nodes[q], k) {
      ReachMono(nbrs, v, s.nodes[q], k, s.lv[q] - 1);
    }
  }

  // ---------------------------------------------------------------------------------------
  // The invariant holds at the start and is kept by every step.
  // ---------------------------------------------------------------------------------------

  lemma StartInv(nbrs: seq<seq<nat>>, v: nat)
    requires v < |nbrs|
    ensures Inv(nbrs, v, Start(v))
  {
    ReachStart(nbrs, v, 0);
    forall u | Reach(nbrs, v, u, 0)
      ensures u in {v}
    {
      ReachZero(nbrs, v, u);
    }
  }

  /** The predicates that read only the listed vertices, their discovery positions and
      levels carry over to a state that differs from s in the scan position alone. */
  lemma SamePositions(nbrs: seq<seq<nat>>, v: nat, s: Scan, s': Scan)
    requires Shape(nbrs, v, s) && Shape(nbrs, v, s')
    requires s'.nodes == s.nodes && s'.seen == s.seen && s'.par == s.par && s'.eidx == s.eidx && s'.lv == s.lv
    requires SeenNodes(s) && Distinct(s.nodes) && Ordered(s) && FirstFound(nbrs, v, s)
    requires LevelsExact(nbrs, v, s) && LevelsSorted(s)
    ensures SeenNodes(s') && Distinct(s'.nodes) && Ordered(s') && FirstFound(nbrs, v, s')
    ensures LevelsExact(nbrs, v, s') && LevelsSorted(s')
  {
  }

  /** Moving past a position keeps every discovery before it. */
  lemma LaterParents(nbrs: seq<seq<nat>>, v: nat, s: Scan, s': Scan)
    requires Shape(nbrs, v, s) && Shape(nbrs, v, s') && Parents(nbrs, v, s)
    requires s'.nodes == s.nodes && s'.par == s.par && s'.eidx == s.eidx
    requires Before(s.p, s.e, s'.p, s'.e)
    ensures Parents(nbrs, v, s')
  {
  }

  lemma AdvanceInv(nbrs: seq<seq<nat>>, v: nat, s: Scan)
    requires Inv(nbrs, v, s) && s.p < |s.nodes| && s.e >= |nbrs[s.nodes[s.p]]|
    ensures Inv(nbrs, v, s.(p := s.p + 1, e := 0))
  {
    var s' := s.(p := s.p + 1, e := 0);
    assert Shape(nbrs, v, s');
    SamePositions(nbrs, v, s, s');
    LaterParents(nbrs, v, s, s');
    AdvanceClosed(nbrs, v, s);
    if s'.p < |s'.nodes| {
      if s.lv[s'.p] != s.lv[s.p] {
        AdvanceFrontier(nbrs, v, s');
      }
      assert Frontier(nbrs, v, s');
    }
  }

  /** Closing the last edge of a parent closes that parent. */
  lemma AdvanceClosed(nbrs: seq<seq<nat>>, v: nat, s: Scan)
    requires Shape(nbrs, v, s) && Closed(nbrs, v, s) && s.p < |s.nodes| && s.e >= |nbrs[s.nodes[s.p]]|
    ensures Shape(nbrs, v, s.(p := s.p + 1, e := 0)) && Closed(nbrs, v, s.(p := s.p + 1, e := 0))
  {
  }

  /** Moving to a parent one edge further out: everything one edge beyond the previous layer
      was found while scanning that layer. */
  lemma AdvanceFrontier(nbrs: seq<seq<nat>>, v: nat, s: Scan)
    requires Shape(nbrs, v, s) && SeenNodes(s) && Closed(nbrs, v, s) && LevelsExact(nbrs, v, s)
    requires LevelsSorted(s) && s.e == 0 && 0 < s.p < |s.nodes| && s.lv[s.p] == s.lv[s.p - 1] + 1
    requires forall u :: Reach(nbrs, v, u, s.lv[s.p - 1]) ==> u in s.seen
    ensures forall u :: Reach(nbrs, v, u, s.lv[s.p]) ==> u in s.seen
  {
    var L := s.lv[s.p - 1];
    forall x | Reach(nbrs, v, x, L + 1)
      ensures x in s.seen
    {
      if x == v {
        assert s.nodes[0] == v;
      } else {
        var u := ReachBack(nbrs, v, x, L);
        assert u in s.nodes;
        var q :| 0 <= q < |s.nodes| && s.nodes[q] == u;
        ScannedNeighbour(nbrs, v, s, q, x);
      }
    }
  }

  /** A neighbour of a vertex listed in the layer before the current parent's has been seen. */
  lemma ScannedNeighbour(nbrs: seq<seq<nat>>, v: nat, s: Scan, q: nat, x: nat)
    requires Shape(nbrs, v, s) && Closed(nbrs, v, s) && LevelsExact(nbrs, v, s) && LevelsSorted(s)
    requires s.e == 0 && 0 < s.p < |s.nodes| && s.lv[s.p] == s.lv[s.p - 1] + 1
    requires q < |s.nodes| && Reach(nbrs, v, s.nodes[q], s.lv[s.p - 1]) && Adjacent(nbrs, s.nodes[q], x)
    ensures x in s.seen
  {
    ReachIffLevel(nbrs, v, s, q, s.lv[s.p - 1]);
    assert q < s.p;
    var f :| 0 <= f < |nbrs[s.nodes[q]]| && nbrs[s.nodes[q]][f] == x;
    assert Before(q, f, s.p, s.e);
  }

  lemma SkipInv(nbrs: seq<seq<nat>>, v: nat, s: Scan)
    requires Inv(nbrs, v, s) && s.p < |s.nodes| && s.e < |nbrs[s.nodes[s.p]]|
    requires nbrs[s.nodes[s.p]][s.e] in s.seen
    ensures Inv(nbrs, v, s.(e := s.e + 1))
  {
    var s' := s.(e := s.e + 1);
    SkipClosed(nbrs, v, s);
    SamePositions(nbrs, v, s, s');
    LaterParents(nbrs, v, s, s');
    SameFrontier(nbrs, v, s, s');
  }

  /** The frontier depends on the listing and the current parent only. */
  lemma SameFrontier(nbrs: seq<seq<nat>>, v: nat, s: Scan, s': Scan)
    requires Shape(nbrs, v, s) && Shape(nbrs, v, s') && Frontier(nbrs, v, s)
    requires s'.nodes == s.nodes && s'.seen == s.seen && s'.lv == s.lv && s'.p == s.p
    ensures Frontier(nbrs, v, s')
  {
  }

  /** Passing a seen neighbour keeps everything scanned seen. */
  lemma SkipClosed(nbrs: seq<seq<nat>>, v: nat, s: Scan)
    requires Shape(nbrs, v, s) && Closed(nbrs, v, s) && s.p < |s.nodes| && s.e < |nbrs[s.nodes[s.p]]|
    requires nbrs[s.nodes[s.p]][s.e] in s.seen
    ensures Shape(nbrs, v, s.(e := s.e + 1)) && Closed(nbrs, v, s.(e := s.e + 1))
  {
  }

  lemma DiscoverShape(nbrs: seq<seq<nat>>, v: nat, s: Scan, w: nat)
    requires ValidGraph(nbrs) && Shape(nbrs, v, s) && SeenNodes(s) && Distinct(s.nodes)
    requires s.p < |s.nodes| && s.e < |nbrs[s.nodes[s.p]]| && w == nbrs[s.nodes[s.p]][s.e]
    requires w !in s.seen
    ensures Shape(nbrs, v, Grow(s, w)) && SeenNodes(Grow(s, w)) && Distinct(Grow(s, w).nodes)
  {
    var s' := Grow(s, w);
    assert w !in s.nodes;
    assert |s'.seen| == |s.seen| + 1;
  }

  lemma DiscoverOrder(nbrs: seq<seq<nat>>, v: nat, s: Scan, w: nat)
    requires Shape(nbrs, v, s) && Shape(nbrs, v, Grow(s, w)) && SeenNodes(s)
    requires Parents(nbrs, v, s) && Ordered(s) && Closed(nbrs, v, s) && FirstFound(nbrs, v, s)
    requires s.p < |s.nodes| && s.e < |nbrs[s.nodes[s.p]]| && w == nbrs[s.nodes[s.p]][s.e]
    requires w !in s.seen
    ensures Parents(nbrs, v, Grow(s, w)) && Ordered(Grow(s, w))
    ensures Closed(nbrs, v, Grow(s, w)) && FirstFound(nbrs, v, Grow(s, w))
  {
  }

  lemma DiscoverExact(nbrs: seq<seq<nat>>, v: nat, s: Scan, w: nat)
    requires Shape(nbrs, v, s) && Shape(nbrs, v, Grow(s, w)) && LevelsExact(nbrs, v, s)
    requires LevelsSorted(s) && Frontier(nbrs, v, s)
    requires s.p < |s.nodes| && s.e < |nbrs[s.nodes[s.p]]| && w == nbrs[s.nodes[s.p]][s.e]
    requires w !in s.seen
    ensures LevelsExact(nbrs, v, Grow(s, w))
  {
    assert Adjacent(nbrs, s.nodes[s.p], w);
    ReachExtend(nbrs, v, s.nodes[s.p], w, s.lv[s.p]);
    var s' := Grow(s, w);
    var q := |s.nodes|;
    assert s'.nodes[q] == w && s'.lv[q] == s.lv[s.p] + 1;
    if Reach(nbrs, v, w, s.lv[s.p]) {
      assert false;
    }
  }

  lemma DiscoverSorted(nbrs: seq<seq<nat>>, v: nat, s: Scan, w: nat)
    requires Shape(nbrs, v, s) && Shape(nbrs, v, Grow(s, w))
    requires LevelsSorted(s) && Frontier(nbrs, v, s) && s.p < |s.nodes|
    ensures LevelsSorted(Grow(s, w)) && Frontier(nbrs, v, Grow(s, w))
  {
  }

  /** Discovering a new vertex at the current position keeps the invariant. */
  lemma DiscoverInv(nbrs: seq<seq<nat>>, v: nat, s: Scan, w: nat)
    requires ValidGraph(nbrs) && Inv(nbrs, v, s)
    requires s.p < |s.nodes| && s.e < |nbrs[s.nodes[s.p]]| && w == nbrs[s.nodes[s.p]][s.e]
    requires w !in s.seen
    ensures Inv(nbrs, v, Grow(s, w))
  {
    DiscoverShape(nbrs, v, s, w);
    DiscoverOrder(nbrs, v, s, w);
    DiscoverExact(nbrs, v, s, w);
    DiscoverSorted(nbrs, v, s, w);
  }

  lemma StepInv(nbrs: seq<seq<nat>>, v: nat, s: Scan, s': Scan)
    requires ValidGraph(nbrs) && Inv(nbrs, v, s) && s' == ScanStep(nbrs, s)
    ensures Inv(nbrs, v, s')
  {
    if s.p >= |s.nodes| {
    } else if s.e >= |nbrs[s.nodes[s.p]]| {
      AdvanceStep(nbrs, v, s);
    } else if nbrs[s.nodes[s.p]][s.e] in s.seen {
      SkipStep(nbrs, v, s);
    } else {
      DiscoverStep(nbrs, v, s);
    }
  }

  lemma AdvanceStep(nbrs: seq<seq<nat>>, v: nat, s: Scan)
    requires Inv(nbrs, v, s) && s.p < |s.nodes| && s.e >= |nbrs[s.nodes[s.p]]|
    ensures Inv(nbrs, v, ScanStep(nbrs, s))
  {
    StepAdvance(nbrs, s);
    AdvanceInv(nbrs, v, s);
  }

  lemma SkipStep(nbrs: seq<seq<nat>>, v: nat, s: Scan)
    requires Inv(nbrs, v, s) && s.p < |s.nodes| && s.e < |nbrs[s.nodes[s.p]]|
    requires nbrs[s.nodes[s.p]][s.e] in s.seen
    ensures Inv(nbrs, v, ScanStep(nbrs, s))
  {
    StepSkip(nbrs, s);
    SkipInv(nbrs, v, s);
  }

  lemma DiscoverStep(nbrs: seq<seq<nat>>, v: nat, s: Scan)
    requires ValidGraph(nbrs) && Inv(nbrs, v, s) && s.p < |s.nodes| && s.e < |nbrs[s.nodes[s.p]]|
    requires nbrs[s.nodes[s.p]][s.e] !in s.seen
    ensures Inv(nbrs, v, ScanStep(nbrs, s))
  {
    var w := nbrs[s.nodes[s.p]][s.e];
    StepDiscover(nbrs, s, w, 0, 0);
    DiscoverInv(nbrs, v, s, w);
  }

  lemma {:induction false} RunInv(nbrs: seq<seq<nat>>, v: nat, t: nat)
    requires ValidGraph(nbrs) && v < |nbrs|
    ensures Inv(nbrs, v, Run(nbrs, v, t))
  {
    if t == 0 {
      StartInv(nbrs, v);
    } else {
      RunInv(nbrs, v, t - 1);
      StepInv(nbrs, v, Run(nbrs, v, t - 1), Run(nbrs, v, t));
    }
  }

  // ---------------------------------------------------------------------------------------
  // What the invariant gives about the listed vertices.
  // ---------------------------------------------------------------------------------------

  /** A finite set of naturals below m has at most m members. */
  lemma {:induction false} SubsetBelow(s: set<nat>, m: nat)
    requires forall u :: u in s ==> u < m
    ensures |s| <= m
  {
    if m == 0 {
      assert s == {};
    } else {
      SubsetBelow(s - {m - 1}, m - 1);
    }
  }

  /** The scan never lists more vertices than the mesh has. */
  lemma RunBound(nbrs: seq<seq<nat>>, v: nat, t: nat)
    requires ValidGraph(nbrs) && v < |nbrs|
    ensures |Run(nbrs, v, t).nodes| <= |nbrs|
  {
    RunInv(nbrs, v, t);
    var s := Run(nbrs, v, t);
    SubsetBelow(s.seen, |nbrs|);
  }

  /** Every listed vertex is a vertex of the mesh. */
  lemma RunVertex(nbrs: seq<seq<nat>>, v: nat, t: nat, q: nat)
    requires ValidGraph(nbrs) && v < |nbrs| && q < |Run(nbrs, v, t).nodes|
    ensures Run(nbrs, v, t).nodes[q] < |nbrs|
  {
    RunInv(nbrs, v, t);
  }

  lemma ScanConnected(nbrs: seq<seq<nat>>, v: nat, s: Scan)
    requires Shape(nbrs, v, s) && Parents(nbrs, v, s)
    ensures Connected(nbrs, v, s.nodes[1..])
  {
    var out := s.nodes[1..];
    forall i | 0 <= i < |out|
      ensures Adjacent(nbrs, v, out[i]) || exists j :: 0 <= j < i && Adjacent(nbrs, out[j], out[i])
    {
      var pr := s.nodes[s.par[i]];
      assert out[i] == nbrs[pr][s.eidx[i]];
      assert Adjacent(nbrs, pr, out[i]);
      if s.par[i] > 0 {
        assert out[s.par[i] - 1] == pr;
      }
    }
  }

  lemma ScanNearestFirst(nbrs: seq<seq<nat>>, v: nat, s: Scan)
    requires Shape(nbrs, v, s) && LevelsExact(nbrs, v, s) && LevelsSorted(s)
    ensures NearestFirst(nbrs, v, s.nodes[1..])
  {
    var out := s.nodes[1..];
    forall i, j, k: nat | 0 <= i < j < |out| && Reach(nbrs, v, out[j], k)
      ensures Reach(nbrs, v, out[i], k)
    {
      ReachIffLevel(nbrs, v, s, j + 1, k);
      ReachIffLevel(nbrs, v, s, i + 1, k);
    }
  }

  lemma ScanOrdered(nbrs: seq<seq<nat>>, v: nat, s: Scan)
    requires Shape(nbrs, v, s) && Parents(nbrs, v, s) && Ordered(s) && FirstFound(nbrs, v, s)
    ensures ScanOrder(nbrs, v, s.nodes[1..])
  {
    var out := s.nodes[1..];
    assert [v] + out == s.nodes;
    forall i, j, q, f |
      0 <= i < j < |out| && 0 <= q < |s.nodes| && s.nodes[q] < |nbrs|
      && 0 <= f < |nbrs[s.nodes[q]]| && nbrs[s.nodes[q]][f] == out[j]
      ensures ScannedBefore(nbrs, s.nodes, out[i], q, f)
    {
      assert !Before(q, f, s.par[j], s.eidx[j]);
      assert Before(s.par[i], s.eidx[i], s.par[j], s.eidx[j]);
      assert Before(s.par[i], s.eidx[i], q, f);
      assert nbrs[s.nodes[s.par[i]]][s.eidx[i]] == out[i];
    }
  }

  /** Once every listed vertex has been scanned, everything reachable has been listed. */
  lemma {:induction false} ExhaustedReach(nbrs: seq<seq<nat>>, v: nat, s: Scan, x: nat, k: nat)
    requires Shape(nbrs, v, s) && SeenNodes(s) && Closed(nbrs, v, s) && s.p == |s.nodes|
    requires Reach(nbrs, v, x, k)
    ensures x in s.nodes
    decreases k
  {
    if x == v {
      assert s.nodes[0] == v;
    } else if k == 0 {
      ReachZero(nbrs, v, x);
    } else {
      var u := ReachBack(nbrs, v, x, k - 1);
      ExhaustedReach(nbrs, v, s, u, k - 1);
      var q :| 0 <= q < |s.nodes| && s.nodes[q] == u;
      var f :| 0 <= f < |nbrs[u]| && nbrs[u][f] == x;
      assert Before(q, f, s.p, s.e);
    }
  }

  lemma ScanComplete(nbrs: seq<seq<nat>>, v: nat, n: int, s: Scan)
    requires Shape(nbrs, v, s) && SeenNodes(s) && Closed(nbrs, v, s)
    requires s.p == |s.nodes| || (|s.nodes| >= 2 && |s.nodes| - 1 >= n)
    ensures Complete(nbrs, v, n, s.nodes[1..])
  {
    var out := s.nodes[1..];
    if s.p == |s.nodes| {
      forall u, k: nat | Reach(nbrs, v, u, k) && u != v
        ensures u in out
      {
        ExhaustedReach(nbrs, v, s, u, k);
        var q :| 0 <= q < |s.nodes| && s.nodes[q] == u;
        assert out[q - 1] == u;
      }
    }
  }

  lemma ScanListing(nbrs: seq<seq<nat>>, v: nat, s: Scan)
    requires Shape(nbrs, v, s) && Distinct(s.nodes)
    ensures ExcludesStart(v, s.nodes[1..]) && Distinct(s.nodes[1..])
  {
    var out := s.nodes[1..];
    assert forall i :: 0 <= i < |out| ==> out[i] == s.nodes[i + 1];
  }

  /** The properties of a ring, for the vertices the scan has listed after t steps. */
  lemma RunListing(nbrs: seq<seq<nat>>, v: nat, t: nat, out: seq<nat>)
    requires ValidGraph(nbrs) && v < |nbrs| && Run(nbrs, v, t).nodes == [v] + out
    ensures ExcludesStart(v, out) && Distinct(out)
  {
    RunInv(nbrs, v, t);
    assert Run(nbrs, v, t).nodes[1..] == out;
    ScanListing(nbrs, v, Run(nbrs, v, t));
  }

  lemma RunConnected(nbrs: seq<seq<nat>>, v: nat, t: nat, out: seq<nat>)
    requires ValidGraph(nbrs) && v < |nbrs| && Run(nbrs, v, t).nodes == [v] + out
    ensures Connected(nbrs, v, out)
  {
    RunInv(nbrs, v, t);
    assert Run(nbrs, v, t).nodes[1..] == out;
    ScanConnected(nbrs, v, Run(nbrs, v, t));
  }

  lemma RunNearestFirst(nbrs: seq<seq<nat>>, v: nat, t: nat, out: seq<nat>)
    requires ValidGraph(nbrs) && v < |nbrs| && Run(nbrs, v, t).nodes == [v] + out
    ensures NearestFirst(nbrs, v, out)
  {
    RunInv(nbrs, v, t);
    assert Run(nbrs, v, t).nodes[1..] == out;
    ScanNearestFirst(nbrs, v, Run(nbrs, v, t));
  }

  lemma RunScanOrder(nbrs: seq<seq<nat>>, v: nat, t: nat, out: seq<nat>)
    requires ValidGraph(nbrs) && v < |nbrs| && Run(nbrs, v, t).nodes == [v] + out
    ensures ScanOrder(nbrs, v, out)
  {
    RunInv(nbrs, v, t);
    assert Run(nbrs, v, t).nodes[1..] == out;
    ScanOrdered(nbrs, v, Run(nbrs, v, t));
  }

  lemma RunComplete(nbrs: seq<seq<nat>>, v: nat, n: int, t: nat, out: seq<nat>)
    requires ValidGraph(nbrs) && v < |nbrs| && Run(nbrs, v, t).nodes == [v] + out
    requires Run(nbrs, v, t).p == |Run(nbrs, v, t).nodes| || (|out| >= 1 && |out| >= n)
    ensures Complete(nbrs, v, n, out)
  {
    RunInv(nbrs, v, t);
    assert Run(nbrs, v, t).nodes[1..] == out;
    ScanComplete(nbrs, v, n, Run(nbrs, v, t));
  }

  lemma RingOfRun(nbrs: seq<seq<nat>>, v: nat, n: int, t: nat, out: seq<nat>)
    requires ValidGraph(nbrs) && v < |nbrs| && Run(nbrs, v, t).nodes == [v] + out
    requires |out| <= (if n >= 1 then n else 1)
    requires Run(nbrs, v, t).p == |Run(nbrs, v, t).nodes| || (|out| >= 1 && |out| >= n)
    ensures IsRing(nbrs, v, n, out)
  {
    assert Run(nbrs, v, t).nodes == [v] + out;
    RunListing(nbrs, v, t, out);
    RunConnected(nbrs, v, t, out);
    RunNearestFirst(nbrs, v, t, out);
    RunScanOrder(nbrs, v, t, out);
    RunComplete(nbrs, v, n, t, out);
  }

  // ---------------------------------------------------------------------------------------
  // The listing is determined: the scan only ever appends, and stays put once exhausted.
  // ---------------------------------------------------------------------------------------

  /** Later states of the scan extend the listing of earlier ones. */
  lemma {:induction false} RunPrefix(nbrs: seq<seq<nat>>, v: nat, t1: nat, t2: nat)
    requires t1 <= t2
    ensures Run(nbrs, v, t1).nodes <= Run(nbrs, v, t2).nodes
  {
    if t1 < t2 {
      RunPrefix(nbrs, v, t1, t2 - 1);
      var s := Run(nbrs, v, t2 - 1);
      assert s.nodes <= ScanStep(nbrs, s).nodes;
    }
  }

  /** Once every listed vertex has been scanned, the scan stays where it is. */
  lemma {:induction false} RunRests(nbrs: seq<seq<nat>>, v: nat, t1: nat, t2: nat)
    requires t1 <= t2 && Run(nbrs, v, t1).p == |Run(nbrs, v, t1).nodes|
    ensures Run(nbrs, v, t2) == Run(nbrs, v, t1)
  {
    if t1 < t2 {
      RunRests(nbrs, v, t1, t2 - 1);
    }
  }

  lemma HaltedOrdered(nbrs: seq<seq<nat>>, v: nat, n: int, a: seq<nat>, t1: nat, b: seq<nat>, t2: nat)
    requires t1 <= t2 && Bounded(n, b)
    requires Run(nbrs, v, t1).nodes == [v] + a && Run(nbrs, v, t2).nodes == [v] + b
    requires Run(nbrs, v, t1).p == |Run(nbrs, v, t1).nodes| || (|a| >= 1 && |a| >= n)
    ensures a == b
  {
    RunPrefix(nbrs, v, t1, t2);
    if Run(nbrs, v, t1).p == |Run(nbrs, v, t1).nodes| {
      RunRests(nbrs, v, t1, t2);
    } else {
      assert |b| <= |a|;
    }
    assert forall k :: 0 <= k < |a| ==> a[k] == ([v] + a)[k + 1];
  }

  /** There is only one ring of v bounded by n: the list n_ring yields. */
  lemma RingDeterminate(nbrs: seq<seq<nat>>, v: nat, n: int, a: seq<nat>, b: seq<nat>)
    requires IsRing(nbrs, v, n, a) && IsRing(nbrs, v, n, b)
    ensures a == b
  {
    var t1: nat :| Run(nbrs, v, t1).nodes == [v] + a
      && (Run(nbrs, v, t1).p == |Run(nbrs, v, t1).nodes| || (|a| >= 1 && |a| >= n));
    var t2: nat :| Run(nbrs, v, t2).nodes == [v] + b
      && (Run(nbrs, v, t2).p == |Run(nbrs, v, t2).nodes| || (|b| >= 1 && |b| >= n));
    if t1 <= t2 {
      HaltedOrdered(nbrs, v, n, a, t1, b, t2);
    } else {
      HaltedOrdered(nbrs, v, n, b, t2, a, t1);
    }
  }

  /** On the graph 0-1, 0-2, 1-3 the ring of 0 bounded by 2 is [1, 2]: the bound cuts the
      listing short inside the first layer, and no vertex of that layer is skipped. */
  lemma FirstLayerFirst(out: seq<nat>)
    requires IsRing([[1, 2], [0, 3], [0], [1]], 0, 2, out)
    ensures out == [1, 2]
  {
    var nbrs: seq<seq<nat>> := [[1, 2], [0, 3], [0], [1]];
    assert Run(nbrs, 0, 2).nodes == [0, 1, 2];
    var t: nat :| Run(nbrs, 0, t).nodes == [0] + out
      && (Run(nbrs, 0, t).p == |Run(nbrs, 0, t).nodes| || (|out| >= 1 && |out| >= 2));
    if t <= 2 {
      HaltedOrdered(nbrs, 0, 2, out, t, [1, 2], 2);
    } else {
      HaltedOrdered(nbrs, 0, 2, [1, 2], 2, out, t);
    }
  }

  // ---------------------------------------------------------------------------------------
  // The generator, run to completion (the engine's constructor takes everything it yields).
  // ---------------------------------------------------------------------------------------

  /** n_ring(v, n): breadth-first from v, layer by layer, each parent's edges in link order,
      listing every newly seen vertex and stopping as soon as n have been listed. */
  method NRing(nbrs: seq<seq<nat>>, v: nat, n: int := 300) returns (out: seq<nat>)
    requires ValidGraph(nbrs) && v < |nbrs|
    ensures IsRing(nbrs, v, n, out)
  {
    var seen := {v};
    var curr := [v];
    var x := 0;
    out := [];
    ghost var t := 0;
    ghost var s := Start(v);
    while curr != []
      invariant s == Run(nbrs, v, t) && s.nodes == [v] + out && s.seen == seen && x == |out|
      invariant s.e == 0 && s.p <= |nbrs| && s.p <= |s.nodes| && curr == s.nodes[s.p..]
      invariant out == [] || x < n
      decreases |nbrs| - s.p
    {
      var stop;
      seen, out, x, curr, stop, t, s := ScanLayer(nbrs, v, n, curr, seen, out, x, t, s);
      if stop {
        RingOfRun(nbrs, v, n, t, out);
        return;
      }
      RunBound(nbrs, v, t);
    }
    RingOfRun(nbrs, v, n, t, out);
  }

  /** One pass of the outer loop: scan every vertex of the current layer, collecting the next. */
  method ScanLayer(nbrs: seq<seq<nat>>, v: nat, n: int, curr: seq<nat>, seen: set<nat>,
                   out: seq<nat>, x: nat, ghost t: nat, ghost s: Scan)
    returns (seen': set<nat>, out': seq<nat>, x': nat, newLayer: seq<nat>, stop: bool,
             ghost t': nat, ghost s': Scan)
    requires ValidGraph(nbrs) && v < |nbrs|
    requires s == Run(nbrs, v, t) && s.nodes == [v] + out && s.seen == seen && x == |out|
    requires s.e == 0 && s.p <= |s.nodes| && curr == s.nodes[s.p..] && curr != []
    requires out == [] || x < n
    ensures s' == Run(nbrs, v, t') && s'.nodes == [v] + out' && s'.seen == seen' && x' == |out'|
    ensures stop ==> 1 <= |out'| && n <= |out'| <= (if n >= 1 then n else 1)
    ensures !stop ==> s'.e == 0 && s'.p == |s.nodes| <= |s'.nodes| && newLayer == s'.nodes[s'.p..]
    ensures !stop ==> out' == [] || x' < n
  {
    var ci := 0;
    ghost var a := s.p;
    ghost var b := |s.nodes|;
    seen', out', x', newLayer, stop, t', s' := seen, out, x, [], false, t, s;
    while ci < |curr|
      invariant 0 <= ci <= |curr| && b == a + |curr|
      invariant s' == Run(nbrs, v, t') && s'.nodes == [v] + out' && s'.seen == seen'
      invariant x' == |out'| && s'.p == a + ci && s'.e == 0
      invariant b <= |s'.nodes| && curr == s'.nodes[a..b] && newLayer == s'.nodes[b..]
      invariant out' == [] || x' < n
    {
      RunVertex(nbrs, v, t', a + ci);
      SliceIndex(s'.nodes, a, b, ci);
      seen', out', x', newLayer, stop, t', s' := ScanParent(nbrs, v, n, curr[ci], seen', out', x', newLayer, t', s', a, b);
      if stop {
        return;
      }
      ci := ci + 1;
    }
  }

  /** The innermost loop: the edges of one parent in link order. */
  method ScanParent(nbrs: seq<seq<nat>>, v: nat, n: int, vert: nat, seen: set<nat>,
                    out: seq<nat>, x: nat, newLayer: seq<nat>, ghost t: nat, ghost s: Scan,
                    ghost a: nat, ghost b: nat)
    returns (seen': set<nat>, out': seq<nat>, x': nat, newLayer': seq<nat>, stop: bool,
             ghost t': nat, ghost s': Scan)
    requires ValidGraph(nbrs) && v < |nbrs| && vert < |nbrs|
    requires s == Run(nbrs, v, t) && s.nodes == [v] + out && s.seen == seen && x == |out|
    requires s.e == 0 && a <= s.p < b <= |s.nodes| && s.nodes[s.p] == vert && newLayer == s.nodes[b..]
    requires out == [] || x < n
    ensures s' == Run(nbrs, v, t') && s'.nodes == [v] + out' && s'.seen == seen' && x' == |out'|
    ensures stop ==> 1 <= |out'| && n <= |out'| <= (if n >= 1 then n else 1)
    ensures !stop ==> b <= |s'.nodes| && s'.nodes[a..b] == s.nodes[a..b]
    ensures !stop ==> s'.e == 0 && s'.p == s.p + 1 && newLayer' == s'.nodes[b..]
    ensures !stop ==> out' == [] || x' < n
  {
    var ei := 0;
    seen', out', x', newLayer', stop, t', s' := seen, out, x, newLayer, false, t, s;
    while ei < |nbrs[vert]|
      invariant 0 <= ei <= |nbrs[vert]|
      invariant s' == Run(nbrs, v, t') && s'.nodes == [v] + out' && s'.seen == seen'
      invariant x' == |out'| && s'.p == s.p && s'.e == ei && b <= |s'.nodes|
      invariant |s.nodes| <= |s'.nodes| && s'.nodes[..|s.nodes|] == s.nodes
      invariant newLayer' == s'.nodes[b..]
      invariant out' == [] || x' < n
    {
      seen', out', x', newLayer', stop, t', s' := ScanEdge(nbrs, v, n, vert, ei, seen', out', x', newLayer', t', s', |s.nodes|, b);
      if stop {
        return;
      }
      ei := ei + 1;
    }
    StepAdvance(nbrs, s');
    t', s' := t' + 1, s'.(p := s'.p + 1, e := 0);
    PrefixSlice(s.nodes, s'.nodes, a, b);
  }

  lemma SliceIndex(xs: seq<nat>, a: nat, b: nat, i: nat)
    requires a <= b <= |xs| && a + i < b
    ensures xs[a..b][i] == xs[a + i]
  {
  }

  /** A slice within a prefix is a slice of the whole. */
  lemma PrefixSlice(xs: seq<nat>, ys: seq<nat>, a: nat, b: nat)
    requires |xs| <= |ys| && ys[..|xs|] == xs && a <= b <= |xs|
    ensures ys[a..b] == xs[a..b]
  {
    assert forall i :: a <= i < b ==> ys[i] == ys[..|xs|][i];
  }

  /** One pass of the innermost loop: the edge ei of vert, listing its other end if unseen. */
  method ScanEdge(nbrs: seq<seq<nat>>, v: nat, n: int, vert: nat, ei: nat, seen: set<nat>,
                  out: seq<nat>, x: nat, newLayer: seq<nat>, ghost t: nat, ghost s: Scan,
                  ghost m: nat, ghost b: nat)
    returns (seen': set<nat>, out': seq<nat>, x': nat, newLayer': seq<nat>, stop: bool,
             ghost t': nat, ghost s': Scan)
    requires ValidGraph(nbrs) && v < |nbrs| && vert < |nbrs| && ei < |nbrs[vert]|
    requires s == Run(nbrs, v, t) && s.nodes == [v] + out && s.seen == seen && x == |out|
    requires s.e == ei && s.p < m <= |s.nodes| && b <= |s.nodes| && s.nodes[s.p] == vert
    requires newLayer == s.nodes[b..]
    requires out == [] || x < n
    ensures s' == Run(nbrs, v, t') && s'.nodes == [v] + out' && s'.seen == seen' && x' == |out'|
    ensures |s.nodes| <= |s'.nodes| && s'.nodes[..m] == s.nodes[..m]
    ensures stop ==> 1 <= |out'| && n <= |out'| <= (if n >= 1 then n else 1)
    ensures !stop ==> s'.p == s.p && s'.e == ei + 1 && newLayer' == s'.nodes[b..]
    ensures !stop ==> out' == [] || x' < n
  {
    var other := nbrs[vert][ei];
    seen', out', x', newLayer', stop := seen, out, x, newLayer, false;
    if other !in seen {
      StepDiscover(nbrs, s, other, m, b);
      t', s' := t + 1, Grow(s, other);
      seen' := seen + {other};
      newLayer' := newLayer + [other];
      x' := x + 1;
      out' := out + [other];
      stop := x' >= n;
    } else {
      StepSkip(nbrs, s);
      t', s' := t + 1, s.(e := s.e + 1);
    }
  }

  /** A step at an edge to an unseen vertex lists it, leaving what came before alone. */
  lemma StepDiscover(nbrs: seq<seq<nat>>, s: Scan, w: nat, m: nat, b: nat)
    requires s.p < |s.nodes| && s.nodes[s.p] < |nbrs| && s.e < |nbrs[s.nodes[s.p]]|
    requires w == nbrs[s.nodes[s.p]][s.e] && w !in s.seen && m <= |s.nodes| && b <= |s.nodes|
    ensures ScanStep(nbrs, s) == Grow(s, w)
    ensures Grow(s, w).nodes[..m] == s.nodes[..m] && Grow(s, w).nodes[b..] == s.nodes[b..] + [w]
  {
  }

  /** A step at an edge to a seen vertex only moves to the next edge. */
  lemma StepSkip(nbrs: seq<seq<nat>>, s: Scan)
    requires s.p < |s.nodes| && s.nodes[s.p] < |nbrs| && s.e < |nbrs[s.nodes[s.p]]|
    requires nbrs[s.nodes[s.p]][s.e] in s.seen
    ensures ScanStep(nbrs, s) == s.(e := s.e + 1)
  {
  }

  /** A step past the last edge of a parent moves to the next parent. */
  lemma StepAdvance(nbrs: seq<seq<nat>>, s: Scan)
    requires s.p < |s.nodes| && s.nodes[s.p] < |nbrs| && s.e >= |nbrs[s.nodes[s.p]]|
    ensures ScanStep(nbrs, s) == s.(p := s.p + 1, e := 0)
  {
  }
}

/** The tables the SpringEngine constructor builds from the source mesh, one row per vertex:
    immediate edges (with the -1 sentinel and the boundary rule), spring candidates from
    n_ring with their rest lengths, the X-mirror partner, the mask of empty immediate slots
    and the count of filled ones.

    The mesh is given abstractly: for every vertex the other ends of its edges in link order,
    a boundary flag and a position. The length of a vector and the nearest-vertex query of
    the KD tree are functions supplied by the caller. */
module Tables {
  import opened Geometry
  import opened Ring
  import Operators

  datatype Mesh = Mesh(nbrs: seq<seq<nat>>, boundary: seq<bool>, pos: seq<Vec3>)

  ghost predicate MeshOk(m: Mesh) {
    |m.boundary| == |m.nbrs| && |m.pos| == |m.nbrs| && ValidGraph(m.nbrs)
  }

  // ---------------------------------------------------------------------------------------
  // immediate edges
  // ---------------------------------------------------------------------------------------

  /** The boundary rule: an edge is kept unless it leads from a boundary vertex to an
      interior one. */
  predicate KeepImmediate(vertBoundary: bool, otherBoundary: bool) {
    !vertBoundary || otherBoundary == vertBoundary
  }

  /** What slot j of vertex v's immediate-edge row holds once the table is built. */
  function ImmediateSlot(m: Mesh, v: nat, j: nat): (r: int)
    requires MeshOk(m) && v < |m.nbrs|
    ensures r != -1 <==> j < |m.nbrs[v]| && (!m.boundary[v] || m.boundary[m.nbrs[v][j]])
    ensures r != -1 ==> r == m.nbrs[v][j] && r < |m.nbrs|
  {
    if j < |m.nbrs[v]| && KeepImmediate(m.boundary[v], m.boundary[m.nbrs[v][j]]) then m.nbrs[v][j]
    else -1
  }

  ghost predicate ImmediateRowOk(m: Mesh, imm: array2<int>, v: nat)
    requires MeshOk(m) && v < |m.nbrs| && v < imm.Length0
    reads imm
  {
    forall j :: 0 <= j < imm.Length1 ==> imm[v, j] == ImmediateSlot(m, v, j)
  }

  /** The loop over the link edges of one vertex: stops at the column limit and writes only
      the edges the boundary rule keeps, leaving -1 in the others. */
  method FillImmediateRow(m: Mesh, imm: array2<int>, v: nat)
    requires MeshOk(m) && v < |m.nbrs| && v < imm.Length0
    requires forall j :: 0 <= j < imm.Length1 ==> imm[v, j] == -1
    modifies imm
    ensures ImmediateRowOk(m, imm, v)
    ensures forall i, j :: 0 <= i < imm.Length0 && i != v && 0 <= j < imm.Length1 ==>
      imm[i, j] == old(imm[i, j])
  {
    var j := 0;
    while j < |m.nbrs[v]|
      invariant 0 <= j <= |m.nbrs[v]|
      invariant forall c :: 0 <= c < imm.Length1 ==> imm[v, c] == if c < j then ImmediateSlot(m, v, c) else -1
      invariant forall i, c :: 0 <= i < imm.Length0 && i != v && 0 <= c < imm.Length1 ==>
        imm[i, c] == old(imm[i, c])
    {
      if !(j < imm.Length1) {
        break;
      }
      var other := m.nbrs[v][j];
      if KeepImmediate(m.boundary[v], m.boundary[other]) {
        imm[v, j] := other;
      }
      j := j + 1;
    }
  }

  // ---------------------------------------------------------------------------------------
  // springs and rest lengths
  // ---------------------------------------------------------------------------------------

  /** Every vertex n_ring lists is a vertex of the mesh. */
  lemma RingInRange(nbrs: seq<seq<nat>>, v: nat, n: int, ring: seq<nat>)
    requires ValidGraph(nbrs) && IsRing(nbrs, v, n, ring)
    ensures forall k :: 0 <= k < |ring| ==> ring[k] < |nbrs|
  {
    forall k | 0 <= k < |ring|
      ensures ring[k] < |nbrs|
    {
      if !Adjacent(nbrs, v, ring[k]) {
        var j :| 0 <= j < k && Adjacent(nbrs, ring[j], ring[k]);
      }
    }
  }

  ghost predicate SpringRowOk(m: Mesh, norm: Vec3 -> real, springs: array2<nat>, lengths: array2<real>,
                              v: nat, ring: seq<nat>)
    requires MeshOk(m) && v < |m.nbrs| && v < springs.Length0 && v < lengths.Length0
    requires lengths.Length1 == springs.Length1 && forall k :: 0 <= k < |ring| ==> ring[k] < |m.nbrs|
    reads springs, lengths
  {
    forall j :: 0 <= j < springs.Length1 ==>
      && springs[v, j] == (if j < |ring| then ring[j] else 0)
      && lengths[v, j] == (if j < |ring| then norm(Sub(m.pos[ring[j]], m.pos[v])) else 0.0)
  }

  /** The loop over n_ring(vert, max_springs): slot j gets the j-th vertex listed and its
      distance from vert; the slots past the ring keep their zeros. */
  method FillSpringRow(m: Mesh, norm: Vec3 -> real, springs: array2<nat>, lengths: array2<real>, v: nat)
    returns (ghost ring: seq<nat>)
    requires MeshOk(m) && v < |m.nbrs| && v < springs.Length0 && springs.Length0 == lengths.Length0
    requires 1 <= springs.Length1 && lengths.Length1 == springs.Length1
    requires forall j :: 0 <= j < springs.Length1 ==> springs[v, j] == 0 && lengths[v, j] == 0.0
    modifies springs, lengths
    ensures IsRing(m.nbrs, v, springs.Length1, ring)
    ensures forall k :: 0 <= k < |ring| ==> ring[k] < |m.nbrs|
    ensures SpringRowOk(m, norm, springs, lengths, v, ring)
    ensures forall i, j :: 0 <= i < springs.Length0 && i != v && 0 <= j < springs.Length1 ==>
      springs[i, j] == old(springs[i, j]) && lengths[i, j] == old(lengths[i, j])
  {
    var listed := NRing(m.nbrs, v, springs.Length1);
    RingInRange(m.nbrs, v, springs.Length1, listed);
    ring := listed;
    var j := 0;
    while j < |listed|
      invariant 0 <= j <= |listed| <= springs.Length1
      invariant forall c :: 0 <= c < springs.Length1 ==>
        && springs[v, c] == (if c < j then listed[c] else 0)
        && lengths[v, c] == (if c < j then norm(Sub(m.pos[listed[c]], m.pos[v])) else 0.0)
      invariant forall i, c :: 0 <= i < springs.Length0 && i != v && 0 <= c < springs.Length1 ==>
        springs[i, c] == old(springs[i, c]) && lengths[i, c] == old(lengths[i, c])
    {
      springs[v, j] := listed[j];
      lengths[v, j] := norm(Sub(m.pos[listed[j]], m.pos[v]));
      j := j + 1;
    }
  }

  // ---------------------------------------------------------------------------------------
  // the constructor's loop over the vertices
  // ---------------------------------------------------------------------------------------

  /** The immediate-edge, spring and rest-length tables: the loop of the constructor over
      the vertices, each table starting as -1 (immediate edges) or 0 (springs, lengths). */
  method BuildTables(m: Mesh, norm: Vec3 -> real, maxSprings: nat, immediateEdgesMax: nat)
    returns (imm: array2<int>, springs: array2<nat>, lengths: array2<real>, ghost rings: seq<seq<nat>>)
    requires MeshOk(m) && 1 <= maxSprings
    ensures imm.Length0 == |m.nbrs| && imm.Length1 == immediateEdgesMax
    ensures springs.Length0 == |m.nbrs| && springs.Length1 == maxSprings
    ensures lengths.Length0 == |m.nbrs| && lengths.Length1 == maxSprings
    ensures |rings| == |m.nbrs|
    ensures forall v :: 0 <= v < |m.nbrs| ==> ImmediateRowOk(m, imm, v)
    ensures forall v :: 0 <= v < |m.nbrs| ==>
      && IsRing(m.nbrs, v, maxSprings, rings[v])
      && (forall k :: 0 <= k < |rings[v]| ==> rings[v][k] < |m.nbrs|)
      && SpringRowOk(m, norm, springs, lengths, v, rings[v])
  {
    var n := |m.nbrs|;
    springs := new nat[n, maxSprings]((i, j) => 0);
    imm := new int[n, immediateEdgesMax]((i, j) => -1);
    lengths := new real[n, maxSprings]((i, j) => 0.0);
    rings := [];
    var v := 0;
    while v < n
      invariant 0 <= v <= n && |rings| == v
      invariant forall i :: 0 <= i < v ==> ImmediateRowOk(m, imm, i)
      invariant forall i, j :: v <= i < n && 0 <= j < immediateEdgesMax ==> imm[i, j] == -1
      invariant forall i :: 0 <= i < v ==>
        && IsRing(m.nbrs, i, maxSprings, rings[i])
        && (forall k :: 0 <= k < |rings[i]| ==> rings[i][k] < n)
        && SpringRowOk(m, norm, springs, lengths, i, rings[i])
      invariant forall i, j :: v <= i < n && 0 <= j < maxSprings ==>
        springs[i, j] == 0 && lengths[i, j] == 0.0
    {
      label Before:
      FillImmediateRow(m, imm, v);
      forall i | 0 <= i < v
        ensures ImmediateRowOk(m, imm, i)
      {
        assert old@Before(ImmediateRowOk(m, imm, i));
        assert forall j :: 0 <= j < immediateEdgesMax ==> imm[i, j] == old@Before(imm[i, j]);
      }
      ghost var ring := FillSpringRow(m, norm, springs, lengths, v);
      rings := rings + [ring];
      v := v + 1;
    }
  }

  /** The mirror table: for every vertex, the vertex the KD tree finds nearest to its
      position with X negated. */
  method BuildMirror(m: Mesh, nearest: Vec3 -> nat) returns (mirror: array<int>)
    requires MeshOk(m) && forall p :: nearest(p) < |m.nbrs|
    ensures mirror.Length == |m.nbrs|
    ensures forall v :: 0 <= v < |m.nbrs| ==> mirror[v] == nearest(ReflectX(m.pos[v])) < |m.nbrs|
  {
    mirror := new int[|m.nbrs|](i => -1);
    var v := 0;
    while v < |m.nbrs|
      invariant 0 <= v <= |m.nbrs|
      invariant forall i :: 0 <= i < v ==> mirror[i] == nearest(ReflectX(m.pos[i]))
    {
      mirror[v] := nearest(ReflectX(m.pos[v]));
      v := v + 1;
    }
  }

  // ---------------------------------------------------------------------------------------
  // the mask of empty immediate slots and the per-row count
  // ---------------------------------------------------------------------------------------

  function Row<T>(a: array2<T>, i: nat): (r: seq<T>)
    requires i < a.Length0
    reads a
    ensures |r| == a.Length1 && forall j :: 0 <= j < a.Length1 ==> r[j] == a[i, j]
  {
    seq(a.Length1, j requires 0 <= j < a.Length1 reads a => a[i, j])
  }

  function Rows<T>(a: array2<T>): (r: seq<seq<T>>)
    reads a
    ensures |r| == a.Length0 && forall i :: 0 <= i < a.Length0 ==> r[i] == Row(a, i)
  {
    seq(a.Length0, i requires 0 <= i < a.Length0 reads a => Row(a, i))
  }

  /** The number of true entries of a mask row. */
  function CountTrue(row: seq<bool>): (r: nat)
    ensures r <= |row|
  {
    if |row| == 0 then 0 else CountTrue(row[..|row| - 1]) + (if row[|row| - 1] then 1 else 0)
  }

  /** immediate_edges == -1, element by element. */
  method InvalidPlaces(imm: array2<int>) returns (invalid: array2<bool>)
    ensures invalid.Length0 == imm.Length0 && invalid.Length1 == imm.Length1
    ensures forall i, j :: 0 <= i < imm.Length0 && 0 <= j < imm.Length1 ==> (invalid[i, j] <==> imm[i, j] == -1)
  {
    invalid := new bool[imm.Length0, imm.Length1]((i, j) reads imm =>
      if 0 <= i < imm.Length0 && 0 <= j < imm.Length1 then imm[i, j] == -1 else false);
  }

  /** immediate_edges_max minus the row sums of the mask. */
  method ImmediateNumber(invalid: array2<bool>) returns (number: array<int>)
    ensures number.Length == invalid.Length0
    ensures forall i :: 0 <= i < invalid.Length0 ==> number[i] == invalid.Length1 - CountTrue(Row(invalid, i))
  {
    number := new int[invalid.Length0](i reads invalid =>
      if 0 <= i < invalid.Length0 then invalid.Length1 - CountTrue(Row(invalid, i)) else 0);
  }

  /** Counting the marked slots and subtracting from the row width counts the filled ones. */
  lemma {:induction false} CountComplement(mask: seq<bool>, row: seq<int>)
    requires |mask| == |row| && forall j :: 0 <= j < |row| ==> (mask[j] <==> row[j] == -1)
    ensures |row| - CountTrue(mask) == Operators.ValidCount(row)
  {
    if |row| > 0 {
      CountComplement(mask[..|mask| - 1], row[..|row| - 1]);
    }
  }

  /** immediate_edges_number[v] is the number of slots of row v that hold a vertex. */
  lemma NumberCountsEdges(imm: array2<int>, invalid: array2<bool>, number: array<int>, v: nat)
    requires invalid.Length0 == imm.Length0 && invalid.Length1 == imm.Length1 && v < imm.Length0
    requires forall i, j :: 0 <= i < imm.Length0 && 0 <= j < imm.Length1 ==> (invalid[i, j] <==> imm[i, j] == -1)
    requires number.Length == invalid.Length0
    requires forall i :: 0 <= i < invalid.Length0 ==> number[i] == invalid.Length1 - CountTrue(Row(invalid, i))
    ensures number[v] == Operators.ValidCount(Row(imm, v))
  {
    CountComplement(Row(invalid, v), Row(imm, v));
  }

  // ---------------------------------------------------------------------------------------
  // the tables as a whole
  // ---------------------------------------------------------------------------------------

  /** The immediate-edge table of width immediateEdgesMax, its mask of empty slots and its
      per-row counts of filled slots, as built from m. */
  ghost predicate ImmediateTablesOk(m: Mesh, immediateEdgesMax: nat, imm: array2<int>,
                                    invalid: array2<bool>, number: array<int>)
    reads imm, invalid, number
  {
    var n := |m.nbrs|;
    && MeshOk(m) && imm.Length0 == n && imm.Length1 == immediateEdgesMax
    && invalid.Length0 == n && invalid.Length1 == immediateEdgesMax && number.Length == n
    && (forall v :: 0 <= v < n ==> ImmediateRowOk(m, imm, v))
    && (forall i, j :: 0 <= i < n && 0 <= j < immediateEdgesMax ==> imm[i, j] == -1 || 0 <= imm[i, j] < n)
    && (forall i, j :: 0 <= i < n && 0 <= j < immediateEdgesMax ==> (invalid[i, j] <==> imm[i, j] == -1))
    && (forall i :: 0 <= i < n ==> number[i] == Operators.ValidCount(Row(imm, i)))
  }

  /** The spring and rest-length tables of width maxSprings, row v holding the ring rings[v]
      that n_ring lists for v. */
  ghost predicate SpringTablesOk(m: Mesh, norm: Vec3 -> real, maxSprings: nat, springs: array2<nat>,
                                 lengths: array2<real>, rings: seq<seq<nat>>)
    reads springs, lengths
  {
    var n := |m.nbrs|;
    && MeshOk(m) && 1 <= maxSprings && |rings| == n
    && springs.Length0 == n && springs.Length1 == maxSprings
    && lengths.Length0 == n && lengths.Length1 == maxSprings
    && (forall v :: 0 <= v < n ==>
          && IsRing(m.nbrs, v, maxSprings, rings[v])
          && (forall k :: 0 <= k < |rings[v]| ==> rings[v][k] < n)
          && SpringRowOk(m, norm, springs, lengths, v, rings[v]))
    && (forall i, j :: 0 <= i < n && 0 <= j < maxSprings ==> springs[i, j] < n)
  }

  /** What BuildTables, InvalidPlaces and ImmediateNumber leave behind, run one after the
      other as the constructor runs them, is a consistent set of tables. */
  lemma TablesReady(m: Mesh, norm: Vec3 -> real, maxSprings: nat, immediateEdgesMax: nat,
                    imm: array2<int>, springs: array2<nat>, lengths: array2<real>, rings: seq<seq<nat>>,
                    invalid: array2<bool>, number: array<int>)
    requires MeshOk(m) && 1 <= maxSprings
    requires imm.Length0 == |m.nbrs| && imm.Length1 == immediateEdgesMax
    requires springs.Length0 == |m.nbrs| && springs.Length1 == maxSprings
    requires lengths.Length0 == |m.nbrs| && lengths.Length1 == maxSprings
    requires |rings| == |m.nbrs|
    requires forall v :: 0 <= v < |m.nbrs| ==> ImmediateRowOk(m, imm, v)
    requires forall v :: 0 <= v < |m.nbrs| ==>
      && IsRing(m.nbrs, v, maxSprings, rings[v])
      && (forall k :: 0 <= k < |rings[v]| ==> rings[v][k] < |m.nbrs|)
      && SpringRowOk(m, norm, springs, lengths, v, rings[v])
    requires invalid.Length0 == imm.Length0 && invalid.Length1 == imm.Length1
    requires forall i, j :: 0 <= i < imm.Length0 && 0 <= j < imm.Length1 ==> (invalid[i, j] <==> imm[i, j] == -1)
    requires number.Length == invalid.Length0
    requires forall i :: 0 <= i < invalid.Length0 ==> number[i] == invalid.Length1 - CountTrue(Row(invalid, i))
    ensures ImmediateTablesOk(m, immediateEdgesMax, imm, invalid, number)
    ensures SpringTablesOk(m, norm, maxSprings, springs, lengths, rings)
  {
    var n := |m.nbrs|;
    forall v | 0 <= v < n
      ensures number[v] == Operators.ValidCount(Row(imm, v))
    {
      NumberCountsEdges(imm, invalid, number, v);
    }
    forall i, j | 0 <= i < n && 0 <= j < maxSprings
      ensures springs[i, j] < n
    {
      assert SpringRowOk(m, norm, springs, lengths, i, rings[i]);
    }
    forall i, j | 0 <= i < n && 0 <= j < immediateEdgesMax
      ensures imm[i, j] == -1 || 0 <= imm[i, j] < n
    {
      assert ImmediateRowOk(m, imm, i);
    }
  }

  // ---------------------------------------------------------------------------------------
  // what the built rows say about the mesh
  // ---------------------------------------------------------------------------------------

  /** An interior vertex lists its first min(degree, immediate_edges_max) neighbours in link
      order, and nothing after them. */
  lemma InteriorRow(m: Mesh, imm: array2<int>, v: nat)
    requires MeshOk(m) && v < |m.nbrs| && v < imm.Length0 && ImmediateRowOk(m, imm, v) && !m.boundary[v]
    ensures forall j :: 0 <= j < imm.Length1 ==>
      imm[v, j] == if j < |m.nbrs[v]| then m.nbrs[v][j] else -1
  {
  }

  /** A boundary vertex lists only boundary neighbours. */
  lemma BoundaryRow(m: Mesh, imm: array2<int>, v: nat)
    requires MeshOk(m) && v < |m.nbrs| && v < imm.Length0 && ImmediateRowOk(m, imm, v) && m.boundary[v]
    ensures forall j :: 0 <= j < imm.Length1 && imm[v, j] != -1 ==>
      0 <= imm[v, j] < |m.nbrs| && m.boundary[imm[v, j]] && imm[v, j] in m.nbrs[v]
  {
  }

  /** The first s spring slots of a vertex whose ring has at least s vertices are distinct
      and never the vertex itself. */
  lemma RingPrefix(m: Mesh, norm: Vec3 -> real, springs: array2<nat>, lengths: array2<real>,
                   v: nat, n: int, ring: seq<nat>, s: nat)
    requires MeshOk(m) && v < |m.nbrs| && v < springs.Length0 && v < lengths.Length0
    requires lengths.Length1 == springs.Length1 && forall k :: 0 <= k < |ring| ==> ring[k] < |m.nbrs|
    requires SpringRowOk(m, norm, springs, lengths, v, ring) && IsRing(m.nbrs, v, n, ring)
    requires s <= |ring| && s <= springs.Length1
    ensures Operators.DistinctIds(Row(springs, v)[..s]) && v !in Row(springs, v)[..s]
  {
    var ids := Row(springs, v)[..s];
    assert forall k :: 0 <= k < s ==> ids[k] == ring[k];
  }
}

# Spring-based mesh relaxation engine, modelled in Dafny

This project models the numeric core of a mesh-sculpting add-on: `SpringEngine` of
`springs.py` and the two helpers it relies on in `utils.py`. The project has seven modules.

- **Geometry** (`geometry.dfy`) holds 3-vectors over exact reals with the few operations the
  engine uses: add, subtract, scale, divide, negate X and the midpoint.
- **Records** (`records.dfy`) models `DummyObj`, a dictionary whose attributes are its keys.
  A missing attribute reads as `None`. Its construction from keyword arguments keeps the
  last value given for each key.
- **Ring** (`ring.dfy`) models `n_ring`, a bounded breadth-first enumeration of the vertices
  around a start vertex:
  - It is proved to return exactly what the step-by-step scan has listed when it halts,
    which is either when the scan runs out of vertices or when the n-th vertex is listed.
    A lemma shows this fixes the list uniquely.
  - It is also proved against properties that describe a ring directly: the start is
    excluded, no vertex repeats, the output is bounded and connected, it lists nearest
    first, it follows the discovery order of the scan, and it is complete unless the bound
    cut it short.
  - The generator's nested loops are methods. Their invariants tie them to a step-by-step
    scan function, and the properties are proved of that function.
- **Sampler** (`sampler.dfy`) models three things:
  - the stiffness/springs clamp;
  - the choice of spring slots for one sample, either a random permutation prefix or,
    when the sample is partial, the four nearest slots followed by the permutation;
  - the gather of spring ids and rest lengths through those slots.
- **Operators** (`operators.dfy`) gives the pure meaning of each position operator as a
  function on sequences of positions: smoothing passes, inertia, the X-mirror blend, and
  the per-pin pull with its linear falloff and an indexed scatter in which the last write
  wins. The properties of each are proved there.
- **Tables** (`tables.dfy`) models the constructor's table building:
  - the immediate-edge table with its boundary rule, the mask of empty slots and the
    per-row counts;
  - the spring and rest-length tables filled from `n_ring`;
  - the X-mirror table.
- **Engine** (`engine.dfy`) models the `SpringEngine` class:
  - Its fields are the position arrays `co` and `last_co`, the tables (Dafny arrays), the
    pin list and the sample cache (a `DummyObj`).
  - Each method is proved to change the state exactly as the matching function of
    Operators or Sampler describes, and to leave the rest unchanged.
  - A class invariant, `Valid`, states that the tables are the ones built from the mesh.

A mesh is given as its vertices' neighbour lists in link-edge order, their boundary flags
and their positions. The parts of the engine that call into the host application are
parameters:

- `norm` stands for the vector length used for rest lengths.
- `nearest` stands for the KD-tree lookup that finds the mirror vertex.
- `rescale` is left uninterpreted. It stands for the twisty pin's map of a spring vector d
  and a target t = rest length · sizing, which the engine computes as d · t² / |d|². That
  vector has length t²/|d|, so it has length t only when |d| already is t.
- `perms` stands for the per-vertex random permutations that `argsort` of random samples
  produces.

## Model

| member | source | states |
|---|---|---|
| Records.LastValue | utils.py:2-5 | a key is absent iff no keyword argument names it; when present, its value is one given for that key (the last) |
| Records.DummyObj.constructor | utils.py:2-5 | every attribute reads as the last value the keyword arguments gave it, and as None if none did |
| Records.DummyObj.GetAttr | utils.py:7-8 | an attribute read yields Some(value) exactly when the key is stored, and None otherwise |
| Records.DummyObj.SetAttr | utils.py:10-11 | after setting, the key reads as the new value and every other key reads as before |
| Ring.NRing | utils.py:13-30 | the list n_ring yields (n defaulting to 300) is what the scan has listed when it halts, either exhausted or with the n-th vertex just listed; it has no start vertex, no repeats, at most n entries (one when n <= 0), each vertex adjacent to v or to an earlier one, non-decreasing distance and scan discovery order, and holds every reachable vertex when not cut short |
| Ring.ScanLayer | utils.py:18-30 | one pass over the current layer advances the scan to the start of the next layer, or stops exactly when the n-th vertex is listed |
| Ring.ScanParent | utils.py:20-28 | scanning one parent's edges advances the scan by one parent, appends only newly seen vertices, and keeps the layer being collected equal to the scan's tail |
| Ring.ScanEdge | utils.py:21-28 | one edge adds its other end if unseen, stopping at the n-th listing, and keeps all earlier listings |
| Ring.ReachIffLevel | utils.py:14-29 | a scanned vertex lies within k edges of v iff the scan recorded it at level k or less |
| Ring.RunInv | utils.py:14-29 | every state of the scan satisfies the scan invariant: seen set = listed vertices, parents, order, levels, closure and frontier |
| Ring.RunListing | utils.py:14-24 | the listed vertices exclude the start and are distinct |
| Ring.RunConnected | utils.py:21-24 | every listed vertex is adjacent to the start or to an earlier listed vertex |
| Ring.RunNearestFirst | utils.py:18-29 | along the listing, graph distance from the start never decreases |
| Ring.RunScanOrder | utils.py:20-24 | the listing is in first-discovery order of the scan over parents and their edges |
| Ring.RunComplete | utils.py:18-28 | when the scan is exhausted, every vertex reachable from the start is listed |
| Ring.RingOfRun | utils.py:13-30 | a scan state that is exhausted or stopped at the bound lists a ring |
| Ring.RingDeterminate | utils.py:13-30 | two rings of the same vertex and bound are equal, so the ring is exactly n_ring's listing, including when the bound cuts it short |
| Ring.FirstLayerFirst | utils.py:18-28 | on the graph 0-1, 0-2, 1-3, the only ring of 0 bounded by 2 is [1, 2]: the bound cuts the listing short inside the first layer, and no vertex of that layer is skipped |
| Sampler.Clamp | springs.py:68-71 | stiffness becomes min(stiffness, max_springs), springs becomes min(clamped stiffness, springs); in-range inputs are unchanged |
| Sampler.ClampIdempotent | springs.py:68-71 | clamping an already clamped pair changes nothing |
| Sampler.Slots | springs.py:81-87 | a row of slot choices has springs entries below stiffness; a full sample is a permutation, and a partial one starts with slots 0-3 followed by the permutation's entries 4 onward |
| Sampler.SlotTable | springs.py:81-87 | one slot row per vertex, each chosen from that vertex's permutation |
| Sampler.Gather | springs.py:81-90 | entry (i, k) of a gathered table is table[i, slots[i][k]] |
| Sampler.PermCovers | springs.py:83-85 | a permutation of 0..stiffness-1 contains every slot below stiffness |
| Sampler.FullSampleCoversRow | springs.py:83-90 | when springs equals stiffness, every one of a vertex's first stiffness springs is sampled |
| Sampler.PartialSampleKeepsNearest | springs.py:86-90 | a partial sample always takes a vertex's four nearest springs first |
| Operators.SmoothPass | springs.py:96-100 | each vertex moves to the weight-w blend of the mean of its valid immediate neighbours and its own position |
| Operators.Smoothed | springs.py:94-101 | a non-positive factor leaves positions unchanged |
| Operators.WeightsOfFactor | springs.py:95-101 | the loop runs ceil(2·factor) passes, each with a weight in (0, 0.5], and the weights sum to the factor |
| Operators.SmoothedIsPasses | springs.py:94-101 | smooth equals applying the passes with those weights in turn |
| Operators.BalancedIsFixed | springs.py:94-101 | positions already at the mean of their neighbours are left unchanged by smooth, whatever the factor |
| Operators.SumOfConstant | springs.py:96-98 | summing valid neighbours of equal position gives that position times their number |
| Operators.ConstantIsBalanced | springs.py:96-99 | when every vertex is at the same point, each vertex is at the mean of its neighbours |
| Operators.VelocityDamped | springs.py:136-139 | one movement step moves each vertex by drag times its last displacement |
| Operators.InertiaStill | springs.py:136-139 | with drag 0, or with no motion since the last step, positions are unchanged |
| Operators.VelocityAfter | springs.py:136-139 | after k movement steps, each vertex's velocity is its starting velocity times drag^k |
| Operators.SymmetricIsFixed | springs.py:141-146 | positions that already mirror their mirror vertices are a fixed point of x_mirror_apply |
| Operators.SelfMirrorOnPlane | springs.py:141-146 | a vertex that is its own mirror is moved onto the X = 0 plane |
| Operators.PairedMakesSymmetric | springs.py:141-146 | with a pairing mirror table, one application makes the positions mirror-symmetric |
| Operators.PairedIdempotent | springs.py:141-146 | with a pairing mirror table, applying the mirror twice equals applying it once |
| Operators.PinStiffness | springs.py:151 | a pin's stiffness is clamped into [0, max_springs] |
| Operators.PinFactor | springs.py:171 | a pin's factor is clamped into [0, 1] |
| Operators.Falloff | springs.py:152 | the k-th falloff is (1 - k/s)·factor: equal to factor at k = 0 and within [0, factor] |
| Operators.FalloffDecreasing | springs.py:152 | falloff never increases with rank |
| Operators.Weighting | springs.py:152-153 | the falloff column has s entries, entry k being the k-th falloff |
| Operators.Scatter | springs.py:163-167 | an assignment through an index list keeps untouched rows and gives each index its last written value |
| Operators.ScatterSame | springs.py:163-167 | writing back the values already present changes nothing |
| Operators.TwistyValues | springs.py:157-163 | each twisty target is the falloff blend of the rescaled and the raw spring vector, added to the pin position |
| Operators.PushValues | springs.py:165-167 | each non-twisty neighbour is displaced by d times its falloff |
| Operators.PinFrame | springs.py:148-167 | one pin changes only its vertex and its spring neighbours |
| Operators.TwistySnaps | springs.py:155-163 | a twisty pin puts its vertex exactly at the pin position when the vertex is not among its own springs |
| Operators.PinDisplacement | springs.py:164-167 | with distinct spring ids, a non-twisty pin moves its vertex by factor·d and its rank-k neighbour by falloff(k)·d |
| Operators.PinAtVertexIsStill | springs.py:164-167 | a non-twisty pin already at its vertex's position moves nothing |
| Operators.TwistyAtRestMovesOnlyVertex | springs.py:155-163 | a twisty pin whose rescale leaves every spring vector as it is only sets the pinned vertex |
| Tables.ImmediateSlot | springs.py:47-53 | slot j of a row holds a vertex iff j < degree and the vertex is interior or the neighbour is also boundary; it then holds the j-th link neighbour, and -1 otherwise |
| Tables.FillImmediateRow | springs.py:48-53 | the loop over link edges fills row v by the boundary rule, stopping at the column limit, and changes no other row |
| Tables.InteriorRow | springs.py:48-53 | an interior vertex's row is its first min(degree, width) neighbours in link order, then -1 |
| Tables.BoundaryRow | springs.py:52-53 | a boundary vertex's row holds only boundary neighbours |
| Tables.RingInRange | springs.py:55-56 | every vertex n_ring lists is a mesh vertex |
| Tables.FillSpringRow | springs.py:55-57 | row v's slot j holds the j-th vertex of n_ring(v, max_springs) and its distance from v; slots past the ring stay 0 |
| Tables.BuildTables | springs.py:19-57 | all immediate-edge rows obey the boundary rule, and each vertex's spring and length rows hold the list n_ring(v, max_springs) yields |
| Tables.BuildMirror | springs.py:36-63 | each vertex's mirror entry is the vertex nearest its X-negated position |
| Tables.InvalidPlaces | springs.py:65 | the mask marks exactly the -1 slots |
| Tables.ImmediateNumber | springs.py:66 | each count is the width minus the marked slots in the row |
| Tables.CountComplement | springs.py:65-66 | width minus marked slots equals the number of filled slots |
| Tables.NumberCountsEdges | springs.py:65-66 | immediate_edges_number[v] is the number of immediate neighbours stored for v |
| Tables.TablesReady | springs.py:47-66 | the built tables are consistent: rows by the boundary rule, entries in range, mask and counts agreeing, spring rows holding the list n_ring(v, max_springs) yields |
| Tables.RingPrefix | springs.py:154 | a pin's first s spring ids are distinct and exclude the vertex when the ring has at least s vertices |
| Engine.ScatterRows | springs.py:163-167 | the in-place indexed assignment produces the last-write-wins scatter |
| Engine.MirrorRows | springs.py:143-146 | the in-place add and halving produce the mirror blend computed from the old positions |
| Engine.PinRows | springs.py:150-167 | the in-place body for one pin produces the pin's pull |
| Engine.PinsRows | springs.py:149-167 | the in-place loop applies the pins in list order |
| Engine.SpringEngine.constructor | springs.py:11-66 | with defaults 300 springs, no mirroring and 6 immediate edges: co and last_co are separate copies of the mesh positions; the tables are built as Tables states; mirroring on gives the nearest-mirror table; no pins, sizing 1, empty cache |
| Engine.SpringEngine.SpringsSampleCached | springs.py:73-92 | a cached sample whose stored key equals the arguments (default 100 and 30) is returned with nothing changed; otherwise a clamped pair numpy cannot shape raises and changes nothing, and any other clamped pair's sample is gathered through the permutation slots, stored under springs_ids, and other attributes are kept |
| Engine.SpringEngine.Smooth | springs.py:94-101 | co becomes the smoothed positions for the factor (default 0.5); nothing else changes |
| Engine.SpringEngine.MovementStep | springs.py:136-139 | last_co becomes the old co array, and co the old positions moved by drag (default 1) times the last displacement |
| Engine.SpringEngine.XMirrorApply | springs.py:141-146 | with mirroring on, co becomes the mirror blend of the old positions; with it off, nothing changes |
| Engine.SpringEngine.PinsApply | springs.py:148-167 | co becomes the positions after every pin, in list order, pulls its vertex and its first s springs |
| Engine.SpringEngine.PinArgs | springs.py:150-154 | every pin's spring ids and lengths are valid arguments for one pin's pull |
| Engine.SpringEngine.PinIds | springs.py:151-154 | a pin's ids are the first clamped-stiffness entries of its vertex's spring row |
| Engine.SpringEngine.NewPin | springs.py:169-173 | the new pin keeps its position, vertex and twisty flag, with stiffness clamped into [0, max_springs] and factor into [0, 1] |
| Engine.SpringEngine.AddPin | springs.py:169-179 | one pin is appended (defaults 50, 0.99, not twisty, no mirroring), and a second at the mirror vertex with X negated when both mirror flags are on; a vertex index past the mirror table raises after the first pin is appended |
| Engine.SpringEngine.ClearPins | springs.py:181-182 | the pin list becomes empty and nothing else changes |
| Engine.SpringEngine.TwistyPinSnaps | springs.py:155-163 | on the built tables, a twisty pin whose ring is long enough puts its vertex at the pin position |
| Engine.SpringEngine.PinPulls | springs.py:164-167 | on the built tables, a non-twisty pin moves its vertex by factor·d and its rank-k spring neighbour by falloff(k)·d, and moves nothing else |
| Engine.SpringEngine.PaddingNamesVertexZero | springs.py:154 | when a pin's stiffness exceeds its ring, vertex 0 is among its spring ids |

## Left out

- `springs_force_apply`, `target_attract`, `random_co` and `back_to_bm` are not modelled. They need
  square roots or NaN masking on floats, the BVH of a target mesh, a random generator, or
  writes into the host mesh.
- The BVH and KD tree are not modelled. The mirror vertex comes from the `nearest` parameter,
  and the target mesh argument is ignored.
- `.length` of a vector is the `norm` parameter.
- The twisty pin's rescale d · t² / |d|² is the uninterpreted `rescale` parameter. Its NaN when
  a spring vector is zero is not modelled.
- The random `argsort` is the caller-supplied `perms`, one permutation per vertex. The model
  proves what holds for every permutation, not anything about their distribution.
- Floating point is modelled as exact reals. There are no NaN, infinities or rounding. The
  division by a zero neighbour count is excluded instead of producing NaN.
- Negative numpy indices are not modelled. Index lists name vertices of the mesh.
- The host-application modules `manager.py`, `draw_3d.py`, `interface.py`, `multifile.py`,
  `__init__.py` and `core_test.py` are not part of this model.
- Engine.SpringEngine.constructor: when mirroring is off, the source stores None under a
  misspelt attribute (`_mirror_table`) and never sets `mirror_table`. The model simply holds no
  mirror table, and no operation reads it while mirroring is off.
- Engine.SpringEngine.constructor: the mirror table is filled in its own loop over the vertices,
  not interleaved with the table loop. The result is the same because neither loop reads the
  other's tables.
- Engine.SpringEngine.constructor requires max_springs >= 1. With 0, `n_ring` still yields one
  vertex for any vertex with a neighbour, and the source's write into the zero-width spring
  table fails, so this is an error path the model excludes.
- Engine.SpringEngine.SpringsSampleCached: the cache hit compares the raw arguments with the
  clamped key that was stored. The model keeps this as written, so a call with out-of-range
  arguments never hits the cache.
- Engine.SpringEngine.SpringsSampleCached: a raised exception is a `raised` result. The model
  raises exactly when the clamped pair has a negative size or, for a partial sample, fewer
  than four columns to overwrite with slots 0-3. The model does not reproduce numpy's
  individual error messages.
- Engine.SpringEngine.AddPin: the `IndexError` of the mirror lookup is a `raised` result, with
  the first pin already appended, as in the source.
- Engine.SpringEngine.constructor: the `target_bm` parameter and its default of None are not
  modelled, because the BVH is left out. The other defaults of the engine's operations are
  default parameter values in the model.
- Engine.SpringEngine.Smooth requires non-zero neighbour counts when the factor is positive,
  because the source then divides by them.
- Engine.SpringEngine.PinsApply requires every pin to name a vertex of the mesh. The engine
  never checks a pin's vertex index.
- Engine.SpringEngine.PaddingNamesVertexZero: spring slots past a short ring keep the initial 0,
  so such a pin also pulls vertex 0, possibly more than once. The model keeps this behaviour as
  written.
- Operators.Scatter: for an index list that repeats a vertex (the padding above), NumPy does not
  specify which assigned value survives. The model's choice is that the last write wins, which
  is what NumPy does for a 1-D index list.
- Records.DummyObj.GetAttr: `__getattr__` runs only when normal attribute lookup fails. A key
  that names a dict attribute (`keys`, `get`, `items`, `copy`, `pop`, ...) therefore reads as the
  bound dict method, not as the stored value. The model has no dict methods, so reading such a
  key returns the stored value.
- Records.DummyObj.constructor: the same holds for keyword arguments named like dict methods.
  They are stored, but an attribute read of them finds the method.
- Ring.NRing: the generator yields lazily, and the model returns the whole list it would yield.
  The engine consumes the whole list.

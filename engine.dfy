/** SpringEngine of springs.py: the tables built once from the mesh, the position arrays
    co and last_co, the pin list and the one-slot sample cache, with the operators that
    change them. Each operator is proved to compute the function of Operators (or Sampler)
    that describes it, and leaves everything else as it was. */
module Engine {
  import opened Geometry
  import opened Records
  import opened Sampler
  import opened Operators
  import opened Tables
  import Ring

  /** The attribute of out_cache that holds the last sample. */
  const CacheKey := "springs_ids"

  /** A fresh position array holding s. */
  method NewPositions(s: seq<Vec3>) returns (a: array<Vec3>)
    ensures fresh(a) && a[..] == s
  {
    a := new Vec3[|s|](i requires 0 <= i < |s| => s[i]);
  }

  /** a[ids] = vals: the rows are written in index-list order, so a repeated index keeps the
      last value written to it (the model's choice for repeated indices). */
  method ScatterRows(a: array<Vec3>, ids: seq<nat>, vals: seq<Vec3>)
    requires |vals| == |ids| && IdsOk(a.Length, ids)
    modifies a
    ensures a[..] == Scatter(old(a[..]), ids, vals)
  {
    var k := 0;
    while k < |ids|
      invariant 0 <= k <= |ids|
      invariant a[..] == Scatter(old(a[..]), ids[..k], vals[..k])
    {
      assert ids[..k + 1][..k] == ids[..k] && vals[..k + 1][..k] == vals[..k];
      a[ids[k]] := vals[k];
      k := k + 1;
    }
    assert ids[..k] == ids && vals[..k] == vals;
  }

  /** The in-place updates of x_mirror_apply: co += the gathered, X-negated mirror rows,
      then co *= 0.5. */
  method MirrorRows(a: array<Vec3>, m: seq<nat>)
    requires MirrorOk(a.Length, m)
    modifies a
    ensures a[..] == MirrorApplied(old(a[..]), m)
  {
    var before := a[..];
    var mirrco := seq(a.Length, i requires 0 <= i < a.Length => ReflectX(before[m[i]]));
    var i := 0;
    while i < a.Length
      invariant 0 <= i <= a.Length
      invariant forall k :: 0 <= k < a.Length ==> a[k] == if k < i then Add(before[k], mirrco[k]) else before[k]
    {
      a[i] := Add(a[i], mirrco[i]);
      i := i + 1;
    }
    i := 0;
    while i < a.Length
      invariant 0 <= i <= a.Length
      invariant forall k :: 0 <= k < a.Length ==>
        a[k] == if k < i then Mid(before[k], mirrco[k]) else Add(before[k], mirrco[k])
    {
      a[i] := Scale(a[i], 0.5);
      i := i + 1;
    }
  }

  /** The body of the loop of pins_apply for one pin, in place on the position array: ids and
      lens are the pin's first s spring ids and rest lengths. */
  method PinRows(a: array<Vec3>, pin: Pin, ids: seq<nat>, lens: seq<real>, sizing: real,
                 rescale: (Vec3, real) -> Vec3)
    requires PinArgsOk(a.Length, pin, ids, lens)
    modifies a
    ensures a[..] == ApplyPin(old(a[..]), pin, ids, lens, sizing, rescale)
  {
    var idx := pin.vertIndex;
    var fall := Weighting(|ids|, pin.factor);
    if pin.twisty {
      a[idx] := pin.co;
      var co1 := a[..];
      var vals := TwistyValues(co1, co1[idx], ids, lens, sizing, fall, rescale);
      ScatterRows(a, ids, vals);
    } else {
      var d := Sub(pin.co, a[idx]);
      a[idx] := Add(a[idx], Scale(d, pin.factor));
      var vals := PushValues(a[..], ids, d, fall);
      ScatterRows(a, ids, vals);
    }
  }

  /** The loop of pins_apply over a position array: the pins in list order. */
  method PinsRows(a: array<Vec3>, pins: seq<Pin>, rows: seq<seq<nat>>, lens: seq<seq<real>>,
                  sizing: real, rescale: (Vec3, real) -> Vec3)
    requires |rows| == |pins| && |lens| == |pins|
    requires forall p :: 0 <= p < |pins| ==> PinArgsOk(a.Length, pins[p], rows[p], lens[p])
    modifies a
    ensures a[..] == ApplyPins(old(a[..]), pins, rows, lens, sizing, rescale)
  {
    var k := 0;
    while k < |pins|
      invariant 0 <= k <= |pins|
      invariant ApplyPins(a[..], pins[k..], rows[k..], lens[k..], sizing, rescale)
             == ApplyPins(old(a[..]), pins, rows, lens, sizing, rescale)
    {
      assert pins[k..][1..] == pins[k + 1..] && rows[k..][1..] == rows[k + 1..] && lens[k..][1..] == lens[k + 1..];
      PinRows(a, pins[k], rows[k], lens[k], sizing, rescale);
      k := k + 1;
    }
  }

  class SpringEngine {
    const maxSprings: nat
    const immediateEdgesMax: nat
    const n: nat
    const xMirr: bool
    const springs: array2<nat>
    const lengths: array2<real>
    const immediateEdges: array2<int>
    const invalidPlaces: array2<bool>
    const immediateNumber: array<int>
    /** Present only when mirroring was asked for at construction. */
    const mirrorTable: Option<array<int>>
    const outCache: DummyObj<SampleCache>

    /** The mesh the tables were built from, its length function, and the ring n_ring listed
        for each vertex. */
    ghost const mesh: Mesh
    ghost const norm: Vec3 -> real
    ghost const rings: seq<seq<nat>>

    var co: array<Vec3>
    var lastCo: array<Vec3>
    var pins: seq<Pin>
    var sizing: real

    /** The slots the cached sample was gathered from. */
    ghost var cacheSlots: seq<seq<nat>>

    ghost function Repr(): set<object>
      reads this
    {
      {this, springs, lengths, immediateEdges, invalidPlaces, immediateNumber, outCache}
        + (if mirrorTable.Some? then {mirrorTable.value} else {})
    }

    predicate Dims()
      reads this
    {
      && immediateEdges.Length0 == n && immediateEdges.Length1 == immediateEdgesMax
      && invalidPlaces.Length0 == n && invalidPlaces.Length1 == immediateEdgesMax
      && immediateNumber.Length == n
      && springs.Length0 == n && springs.Length1 == maxSprings
      && lengths.Length0 == n && lengths.Length1 == maxSprings
      && co.Length == n && lastCo.Length == n
    }

    /** The immediate-edge table, its mask and its counts as the constructor leaves them. */
    ghost predicate ImmediateOk()
      reads this, immediateEdges, invalidPlaces, immediateNumber
    {
      |mesh.nbrs| == n && ImmediateTablesOk(mesh, immediateEdgesMax, immediateEdges, invalidPlaces, immediateNumber)
    }

    /** The spring and rest-length tables as the constructor leaves them. */
    ghost predicate SpringsOk()
      reads this, springs, lengths
    {
      |mesh.nbrs| == n && SpringTablesOk(mesh, norm, maxSprings, springs, lengths, rings)
    }

    /** Every spring slot names a vertex. */
    ghost predicate SpringIdsOk()
      reads this, springs
      requires Dims()
    {
      forall i, j :: 0 <= i < n && 0 <= j < maxSprings ==> springs[i, j] < n
    }

    ghost predicate MirrorTableOk()
      reads this, (if mirrorTable.Some? then {mirrorTable.value} else {})
    {
      && (xMirr <==> mirrorTable.Some?)
      && (mirrorTable.Some? ==>
            mirrorTable.value.Length == n && forall i :: 0 <= i < n ==> 0 <= mirrorTable.value[i] < n)
    }

    /** A cached sample was gathered, row by row, from the slots in cacheSlots, and its key is
        a clamped pair. */
    ghost predicate CacheOk()
      reads this, outCache, springs, lengths
      requires Dims()
    {
      var c := outCache.GetAttr(CacheKey);
      c.Some? ==>
        && ShapeOk(c.value.stiffness, c.value.springs) && c.value.stiffness <= maxSprings
        && |cacheSlots| == n && SlotsOk(cacheSlots, c.value.stiffness, c.value.springs)
        && c.value.ids == Gather(springs, cacheSlots)
        && c.value.lengths == Gather(lengths, cacheSlots)
    }

    ghost predicate Valid()
      reads Repr()
    {
      && Dims() && co != lastCo
      && ImmediateOk() && SpringsOk() && MirrorTableOk() && CacheOk()
    }

    /** The immediate-edge rows as a sequence, as smooth reads them. */
    function ImmediateRows(): (r: seq<seq<int>>)
      reads this, immediateEdges
      requires Dims()
      ensures |r| == n && forall i :: 0 <= i < n ==> |r[i]| == immediateEdgesMax
      ensures forall i, j :: 0 <= i < n && 0 <= j < immediateEdgesMax ==> r[i][j] == immediateEdges[i, j]
    {
      Rows(immediateEdges)
    }

    /** The mirror table as vertex numbers. */
    function Mirror(): (r: seq<nat>)
      reads this, (if mirrorTable.Some? then {mirrorTable.value} else {})
      requires MirrorTableOk() && xMirr
      ensures MirrorOk(n, r) && forall i :: 0 <= i < n ==> r[i] == mirrorTable.value[i]
    {
      seq(n, i requires 0 <= i < n && 0 <= mirrorTable.value[i] reads mirrorTable.value =>
        mirrorTable.value[i] as nat)
    }

    /** springs[v, :s] for a pin at v with clamped stiffness s. */
    function PinIds(pin: Pin): (r: seq<nat>)
      reads this, springs
      requires Dims() && pin.vertIndex < n
      ensures |r| == PinStiffness(pin.stiffness, maxSprings)
      ensures forall k :: 0 <= k < |r| ==> r[k] == springs[pin.vertIndex, k]
    {
      Row(springs, pin.vertIndex)[..PinStiffness(pin.stiffness, maxSprings)]
    }

    /** lengths[v, :s] for a pin at v with clamped stiffness s. */
    function PinLengths(pin: Pin): (r: seq<real>)
      reads this, lengths
      requires Dims() && pin.vertIndex < n
      ensures |r| == PinStiffness(pin.stiffness, maxSprings)
      ensures forall k :: 0 <= k < |r| ==> r[k] == lengths[pin.vertIndex, k]
    {
      Row(lengths, pin.vertIndex)[..PinStiffness(pin.stiffness, maxSprings)]
    }

    ghost predicate PinsInRange(ps: seq<Pin>)
      reads this
    {
      forall p :: 0 <= p < |ps| ==> ps[p].vertIndex < n
    }

    /** The spring ids of each pin, in list order. */
    function IdsOf(ps: seq<Pin>): (r: seq<seq<nat>>)
      reads this, springs
      requires Dims() && PinsInRange(ps)
      ensures |r| == |ps| && forall p :: 0 <= p < |ps| ==> r[p] == PinIds(ps[p])
    {
      if |ps| == 0 then [] else [PinIds(ps[0])] + IdsOf(ps[1..])
    }

    /** The rest lengths of each pin's springs, in list order. */
    function LengthsOf(ps: seq<Pin>): (r: seq<seq<real>>)
      reads this, lengths
      requires Dims() && PinsInRange(ps)
      ensures |r| == |ps| && forall p :: 0 <= p < |ps| ==> r[p] == PinLengths(ps[p])
    {
      if |ps| == 0 then [] else [PinLengths(ps[0])] + LengthsOf(ps[1..])
    }

    /** SpringEngine(source_bm, max_springs, x_mirror, immediate_edges_max): positions copied
        from the mesh into co and into a separate last_co, the tables built, no pins, sizing 1
        and an empty cache. */
    constructor (mesh: Mesh, norm: Vec3 -> real, nearest: Vec3 -> nat, maxSprings: nat := 300,
                 xMirror: bool := false, immediateEdgesMax: nat := 6)
      requires MeshOk(mesh) && 1 <= maxSprings
      requires xMirror ==> forall p :: nearest(p) < |mesh.nbrs|
      ensures Valid()
      ensures this.mesh == mesh && this.norm == norm && n == |mesh.nbrs|
      ensures this.maxSprings == maxSprings && this.immediateEdgesMax == immediateEdgesMax
      ensures xMirr == xMirror
      ensures xMirror ==> forall v :: 0 <= v < n ==> mirrorTable.value[v] == nearest(ReflectX(mesh.pos[v]))
      ensures co[..] == mesh.pos && lastCo[..] == mesh.pos
      ensures pins == [] && sizing == 1.0
      ensures forall k :: outCache.GetAttr(k).None?
    {
      this.maxSprings := maxSprings;
      this.immediateEdgesMax := immediateEdgesMax;
      this.mesh := mesh;
      this.norm := norm;
      n := |mesh.nbrs|;
      var positions := NewPositions(mesh.pos);
      var previous := NewPositions(mesh.pos);
      co := positions;
      lastCo := previous;
      sizing := 1.0;
      pins := [];
      outCache := new DummyObj<SampleCache>([]);
      xMirr := xMirror;
      if xMirror {
        var m := BuildMirror(mesh, nearest);
        mirrorTable := Some(m);
      } else {
        mirrorTable := None;
      }
      var imm: array2<int>, sp: array2<nat>, le: array2<real>;
      ghost var rs: seq<seq<nat>>;
      imm, sp, le, rs := BuildTables(mesh, norm, maxSprings, immediateEdgesMax);
      immediateEdges := imm;
      springs := sp;
      lengths := le;
      rings := rs;
      var invalid := InvalidPlaces(imm);
      invalidPlaces := invalid;
      var number := ImmediateNumber(invalid);
      immediateNumber := number;
      cacheSlots := [];
      new;
      TablesReady(mesh, norm, maxSprings, immediateEdgesMax, imm, sp, le, rs, invalid, number);
    }

    /** _springs_sample_cached: the cached sample when the requested pair equals the cached
        key as given; otherwise, for the clamped pair (st, sp), row i of the result takes
        springs[i, c] and lengths[i, c] for the slots c chosen from the permutation
        perms[i], and the new sample replaces the cache. A clamped pair numpy cannot shape
        (a negative size, or fewer than four columns to force when sampling partially)
        raises before the cache is touched. */
    method SpringsSampleCached(perms: seq<seq<nat>>, stiffness: int := 100, springsWanted: int := 30)
      returns (ids: seq<seq<nat>>, lens: seq<seq<real>>, raised: bool)
      requires Valid()
      requires var c := Clamp(stiffness, springsWanted, maxSprings);
        ShapeOk(c.0, c.1) ==> |perms| == n && forall i :: 0 <= i < n ==> IsPerm(perms[i], c.0 as nat)
      modifies this, outCache
      ensures Valid()
      ensures co == old(co) && lastCo == old(lastCo) && pins == old(pins) && sizing == old(sizing)
      ensures var c := old(outCache.GetAttr(CacheKey));
        c.Some? && c.value.stiffness == stiffness && c.value.springs == springsWanted ==>
          && !raised && ids == c.value.ids && lens == c.value.lengths
          && outCache.entries == old(outCache.entries) && cacheSlots == old(cacheSlots)
      ensures var c := old(outCache.GetAttr(CacheKey));
        !(c.Some? && c.value.stiffness == stiffness && c.value.springs == springsWanted) ==>
          var key := Clamp(stiffness, springsWanted, maxSprings);
          && (raised <==> !ShapeOk(key.0, key.1))
          && (raised ==> outCache.entries == old(outCache.entries) && cacheSlots == old(cacheSlots))
          && (!raised ==>
                var slots := SlotTable(perms, key.0 as nat, key.1 as nat);
                && cacheSlots == slots
                && ids == Gather(springs, slots) && lens == Gather(lengths, slots)
                && outCache.GetAttr(CacheKey) == Some(SampleCache(key.0, key.1, ids, lens))
                && forall k :: k != CacheKey ==> outCache.GetAttr(k) == old(outCache.GetAttr(k)))
      ensures !raised ==> var c := outCache.GetAttr(CacheKey);
        c.Some? && ids == c.value.ids && lens == c.value.lengths
    {
      var cached := outCache.GetAttr(CacheKey);
      if cached.Some? {
        var data := cached.value;
        if data.stiffness == stiffness && data.springs == springsWanted {
          return data.ids, data.lengths, false;
        }
      }
      var key := Clamp(stiffness, springsWanted, maxSprings);
      if !ShapeOk(key.0, key.1) {
        return [], [], true;
      }
      var slots := SlotTable(perms, key.0 as nat, key.1 as nat);
      ids := Gather(springs, slots);
      lens := Gather(lengths, slots);
      outCache.SetAttr(CacheKey, SampleCache(key.0, key.1, ids, lens));
      cacheSlots := slots;
      raised := false;
    }

    /** smooth(factor): co becomes the result of the passes of Smoothed; nothing else changes.
        The counts divide, so they must be non-zero whenever a pass runs. */
    method Smooth(factor: real := 0.5)
      requires Valid()
      requires factor > 0.0 ==> forall v :: 0 <= v < n ==> immediateNumber[v] != 0
      modifies this
      ensures Valid()
      ensures RowsOk(old(co[..]), ImmediateRows(), immediateNumber[..])
      ensures co[..] == Smoothed(old(co[..]), ImmediateRows(), immediateNumber[..], factor)
      ensures lastCo == old(lastCo) && pins == old(pins) && sizing == old(sizing)
      ensures cacheSlots == old(cacheSlots)
    {
      var rows := ImmediateRows();
      var number := immediateNumber[..];
      assert RowsOk(co[..], rows, number);
      var f := factor;
      while f > 0.0
        invariant Valid() && lastCo == old(lastCo) && pins == old(pins) && sizing == old(sizing)
        invariant cacheSlots == old(cacheSlots)
        invariant f <= factor && RowsOk(co[..], rows, number)
        invariant factor > 0.0 ==> TableOk(co[..], rows, number)
        invariant Smoothed(co[..], rows, number, f) == Smoothed(old(co[..]), rows, number, factor)
        decreases PassMeasure(f)
      {
        var next := SmoothPass(co[..], rows, number, MinHalf(f));
        assert PassMeasure(f - 0.5) < PassMeasure(f);
        var a := NewPositions(next);
        co := a;
        f := f - 0.5;
      }
    }

    /** movement_step(drag): last_co becomes the array co was, and co a new array moved on by
        drag times the last velocity. */
    method MovementStep(drag: real := 1.0)
      requires Valid()
      modifies this
      ensures Valid()
      ensures lastCo == old(co) && lastCo[..] == old(co[..])
      ensures co[..] == Inertia(old(co[..]), old(lastCo[..]), drag)
      ensures pins == old(pins) && sizing == old(sizing) && cacheSlots == old(cacheSlots)
    {
      var next := Inertia(co[..], lastCo[..], drag);
      var a := NewPositions(next);
      lastCo := co;
      co := a;
    }

    /** x_mirror_apply: with mirroring on, every row of co becomes the mean of itself and the
        X-reflected old row of its mirror vertex, all rows from the same old array; with it
        off, nothing changes. */
    method XMirrorApply()
      requires Valid()
      modifies co
      ensures Valid()
      ensures !xMirr ==> co[..] == old(co[..])
      ensures xMirr ==> co[..] == MirrorApplied(old(co[..]), Mirror())
    {
      if xMirr {
        MirrorRows(co, Mirror());
      }
    }

    /** pins_apply: the pins in list order, each pulling its vertex and the first s of its
        spring neighbours. The vertex index of a pin is not range-checked by the engine, so
        every pin must name a vertex. */
    method PinsApply(rescale: (Vec3, real) -> Vec3)
      requires Valid() && PinsInRange(pins)
      modifies co
      ensures Valid()
      ensures co[..] == ApplyPins(old(co[..]), pins, old(IdsOf(pins)), old(LengthsOf(pins)), sizing, rescale)
    {
      var rows := IdsOf(pins);
      var lens := LengthsOf(pins);
      PinArgs(pins);
      PinsRows(co, pins, rows, lens, sizing, rescale);
    }

    /** Every pin's spring ids and lengths are fit for apply_pin. */
    lemma PinArgs(ps: seq<Pin>)
      requires Dims() && SpringIdsOk() && PinsInRange(ps)
      ensures forall p :: 0 <= p < |ps| ==> PinArgsOk(co.Length, ps[p], IdsOf(ps)[p], LengthsOf(ps)[p])
    {
      forall p | 0 <= p < |ps|
        ensures PinArgsOk(co.Length, ps[p], IdsOf(ps)[p], LengthsOf(ps)[p])
      {
        assert IdsOk(n, PinIds(ps[p]));
      }
    }

    /** The pin add_pin appends: stiffness clamped into [0, max_springs], factor into [0, 1]. */
    function NewPin(pinCo: Vec3, vertIndex: nat, stiffness: int, factor: real, twisty: bool): (r: Pin)
      reads this
      ensures r.co == pinCo && r.vertIndex == vertIndex && r.twisty == twisty
      ensures r.stiffness <= maxSprings && 0 <= r.stiffness && 0.0 <= r.factor <= 1.0
    {
      Pin(pinCo, vertIndex, PinStiffness(stiffness, maxSprings), PinFactor(factor), twisty)
    }

    /** add_pin: one pin appended, and with both the argument and the engine's mirroring on a
        second one at the mirror vertex with X negated. A vertex index past the mirror table
        raises after the first pin has been appended. */
    method AddPin(pinCo: Vec3, vertIndex: nat, stiffness: int := 50, factor: real := 0.99,
                  twisty: bool := false, xMirrArg: bool := false)
      returns (raised: bool)
      requires Valid()
      modifies this
      ensures Valid()
      ensures raised <==> xMirrArg && xMirr && vertIndex >= n
      ensures var p := NewPin(pinCo, vertIndex, stiffness, factor, twisty);
        pins == old(pins) + [p] + (if xMirrArg && xMirr && !raised
          then [p.(co := ReflectX(pinCo), vertIndex := mirrorTable.value[vertIndex] as nat)] else [])
      ensures co == old(co) && lastCo == old(lastCo) && sizing == old(sizing) && cacheSlots == old(cacheSlots)
    {
      var p := NewPin(pinCo, vertIndex, stiffness, factor, twisty);
      pins := pins + [p];
      raised := false;
      if xMirrArg && xMirr {
        if vertIndex >= n {
          return true;
        }
        var mirrored := p.(co := ReflectX(pinCo), vertIndex := mirrorTable.value[vertIndex] as nat);
        pins := pins + [mirrored];
      }
    }

    /** clear_pins: the list is emptied. */
    method ClearPins()
      requires Valid()
      modifies this
      ensures Valid() && pins == []
      ensures co == old(co) && lastCo == old(lastCo) && sizing == old(sizing) && cacheSlots == old(cacheSlots)
    {
      pins := [];
    }

    /** A twisty pin whose ring has at least s vertices puts its vertex exactly at the pin
        position. */
    lemma TwistyPinSnaps(pin: Pin, rescale: (Vec3, real) -> Vec3)
      requires Valid() && pin.twisty && pin.vertIndex < n
      requires PinStiffness(pin.stiffness, maxSprings) <= |rings[pin.vertIndex]|
      ensures ApplyPin(co[..], pin, PinIds(pin), PinLengths(pin), sizing, rescale)[pin.vertIndex] == pin.co
    {
      var v := pin.vertIndex;
      RingPrefix(mesh, norm, springs, lengths, v, maxSprings, rings[v], PinStiffness(pin.stiffness, maxSprings));
      assert PinIds(pin) == Row(springs, v)[..PinStiffness(pin.stiffness, maxSprings)];
      assert IdsOk(n, PinIds(pin));
      TwistySnaps(co[..], pin, PinIds(pin), PinLengths(pin), sizing, rescale);
    }

    /** A non-twisty pin whose ring has at least s vertices moves its vertex by factor * d and
        its rank-k spring neighbour by Falloff(k) * d, d being the pin position minus the
        vertex position; every other vertex stays. */
    lemma PinPulls(pin: Pin, rescale: (Vec3, real) -> Vec3)
      requires Valid() && !pin.twisty && pin.vertIndex < n
      requires PinStiffness(pin.stiffness, maxSprings) <= |rings[pin.vertIndex]|
      ensures var r := ApplyPin(co[..], pin, PinIds(pin), PinLengths(pin), sizing, rescale);
              var d := Sub(pin.co, co[pin.vertIndex]);
              var ids := PinIds(pin);
              && r[pin.vertIndex] == Add(co[pin.vertIndex], Scale(d, pin.factor))
              && (forall k :: 0 <= k < |ids| ==>
                    r[ids[k]] == Add(co[ids[k]], Scale(d, Falloff(k, |ids|, pin.factor))))
              && (forall i :: 0 <= i < n && i != pin.vertIndex && i !in ids ==> r[i] == co[i])
    {
      var v := pin.vertIndex;
      RingPrefix(mesh, norm, springs, lengths, v, maxSprings, rings[v], PinStiffness(pin.stiffness, maxSprings));
      assert PinIds(pin) == Row(springs, v)[..PinStiffness(pin.stiffness, maxSprings)];
      assert IdsOk(n, PinIds(pin));
      PinDisplacement(co[..], pin, PinIds(pin), PinLengths(pin), sizing, rescale);
      forall i | 0 <= i < n && i != pin.vertIndex && i !in PinIds(pin)
        ensures ApplyPin(co[..], pin, PinIds(pin), PinLengths(pin), sizing, rescale)[i] == co[i]
      {
        PinFrame(co[..], pin, PinIds(pin), PinLengths(pin), sizing, rescale, i);
      }
    }

    /** Slots past a ring hold vertex 0, so a pin whose stiffness exceeds its ring also names
        vertex 0 among its spring ids. */
    lemma PaddingNamesVertexZero(pin: Pin)
      requires Valid() && pin.vertIndex < n
      requires |rings[pin.vertIndex]| < PinStiffness(pin.stiffness, maxSprings)
      ensures PinIds(pin)[|rings[pin.vertIndex]|] == 0
    {
      assert SpringRowOk(mesh, norm, springs, lengths, pin.vertIndex, rings[pin.vertIndex]);
    }
  }
}

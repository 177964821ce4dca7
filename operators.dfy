/** The engine's position operators as functions of whole position arrays (one Vec3 per
    vertex): what smooth, movement_step, x_mirror_apply and pins_apply compute, and the
    algebraic facts about them. The engine's methods are proved to compute exactly these. */
module Operators {
  import opened Geometry

  // ---------------------------------------------------------------------------------------
  // Vector algebra over exact reals.
  // ---------------------------------------------------------------------------------------

  lemma DivScale(p: Vec3, c: real)
    requires c != 0.0
    ensures Div(Scale(p, c), c) == p
  {
    assert p.x * c / c == p.x && p.y * c / c == p.y && p.z * c / c == p.z;
  }

  lemma ScaleScale(v: Vec3, a: real, b: real)
    ensures Scale(Scale(v, a), b) == Scale(v, a * b)
  {
    assert v.x * a * b == v.x * (a * b) && v.y * a * b == v.y * (a * b) && v.z * a * b == v.z * (a * b);
  }

  /** p * c + p == p * (c + 1) and p * c + 0 == p * c. */
  lemma AddScale(p: Vec3, c: real)
    ensures Add(Scale(p, c), p) == Scale(p, c + 1.0)
    ensures Add(Scale(p, c), Zero) == Scale(p, c)
  {
    assert p.x * c + p.x == p.x * (c + 1.0);
    assert p.y * c + p.y == p.y * (c + 1.0);
    assert p.z * c + p.z == p.z * (c + 1.0);
  }

  /** d * f + d * (1 - f) == d. */
  lemma BlendSelf(d: Vec3, f: real)
    ensures Add(Scale(d, f), Scale(d, 1.0 - f)) == d
  {
    assert d.x * f + d.x * (1.0 - f) == d.x;
    assert d.y * f + d.y * (1.0 - f) == d.y;
    assert d.z * f + d.z * (1.0 - f) == d.z;
  }

  // ---------------------------------------------------------------------------------------
  // smooth
  // ---------------------------------------------------------------------------------------

  /** Entries of an immediate-edge row: a vertex index or the -1 sentinel. */
  ghost predicate RowOk(n: nat, row: seq<int>) {
    forall j :: 0 <= j < |row| ==> row[j] == -1 || 0 <= row[j] < n
  }

  /** Sum of the positions a row names; a -1 slot contributes the zero vector. */
  function SumValid(co: seq<Vec3>, row: seq<int>): Vec3
    requires RowOk(|co|, row)
  {
    if |row| == 0 then Zero
    else Add(SumValid(co, row[..|row| - 1]),
             if row[|row| - 1] == -1 then Zero else co[row[|row| - 1]])
  }

  /** The number of slots of a row that are not -1. */
  function ValidCount(row: seq<int>): (r: nat)
    ensures r <= |row|
  {
    if |row| == 0 then 0 else ValidCount(row[..|row| - 1]) + (if row[|row| - 1] == -1 then 0 else 1)
  }

  /** One immediate-edge row and one count per vertex, every row naming vertices or -1. */
  ghost predicate RowsOk(co: seq<Vec3>, imm: seq<seq<int>>, number: seq<int>) {
    && |imm| == |co| && |number| == |co|
    && forall i :: 0 <= i < |co| ==> RowOk(|co|, imm[i])
  }

  /** Rows as above, and no count is zero, so every neighbour mean is defined. */
  ghost predicate TableOk(co: seq<Vec3>, imm: seq<seq<int>>, number: seq<int>) {
    RowsOk(co, imm, number) && forall i :: 0 <= i < |co| ==> number[i] != 0
  }

  /** The neighbour mean of vertex i: the valid neighbours' sum divided by the row's count. */
  function Mean(co: seq<Vec3>, imm: seq<seq<int>>, number: seq<int>, i: nat): Vec3
    requires TableOk(co, imm, number) && i < |co|
  {
    Div(SumValid(co, imm[i]), number[i] as real)
  }

  /** One pass of smooth: every row moves toward its neighbour mean with weight w, all rows
      computed from the same previous array. */
  function SmoothPass(co: seq<Vec3>, imm: seq<seq<int>>, number: seq<int>, w: real): (r: seq<Vec3>)
    requires TableOk(co, imm, number)
    ensures |r| == |co|
    ensures forall i :: 0 <= i < |co| ==> r[i] == Add(Scale(Mean(co, imm, number, i), w), Scale(co[i], 1.0 - w))
  {
    seq(|co|, i requires 0 <= i < |co| => Add(Scale(Mean(co, imm, number, i), w), Scale(co[i], 1.0 - w)))
  }

  function MinHalf(f: real): real {
    if f < 0.5 then f else 0.5
  }

  /** How many more times the loop of smooth runs for a remaining factor f: ceil(2 f). */
  function PassMeasure(f: real): int {
    if f <= 0.0 then 0 else (2.0 * f).Floor + 1
  }

  /** smooth(factor): passes of weight min(f, 0.5) while the remaining f is positive. */
  function Smoothed(co: seq<Vec3>, imm: seq<seq<int>>, number: seq<int>, f: real): (r: seq<Vec3>)
    requires RowsOk(co, imm, number) && (f > 0.0 ==> TableOk(co, imm, number))
    ensures |r| == |co|
    ensures f <= 0.0 ==> r == co
    decreases PassMeasure(f)
  {
    if f <= 0.0 then co
    else
      assert PassMeasure(f - 0.5) < PassMeasure(f);
      Smoothed(SmoothPass(co, imm, number, MinHalf(f)), imm, number, f - 0.5)
  }

  /** The pass weights smooth uses, in order. */
  function Weights(f: real): seq<real>
    decreases PassMeasure(f)
  {
    if f <= 0.0 then [] else
      assert PassMeasure(f - 0.5) < PassMeasure(f);
      [MinHalf(f)] + Weights(f - 0.5)
  }

  function Total(ws: seq<real>): real {
    if |ws| == 0 then 0.0 else ws[0] + Total(ws[1..])
  }

  /** Applies passes of the given weights in order. */
  function Passes(co: seq<Vec3>, imm: seq<seq<int>>, number: seq<int>, ws: seq<real>): (r: seq<Vec3>)
    requires TableOk(co, imm, number)
    ensures |r| == |co|
    decreases |ws|
  {
    if |ws| == 0 then co else Passes(SmoothPass(co, imm, number, ws[0]), imm, number, ws[1..])
  }

  /** smooth(f) with f > 0 runs ceil(2 f) passes; each weight lies in (0, 0.5] and the weights
      add up to f. */
  lemma {:induction false} WeightsOfFactor(f: real)
    requires f > 0.0
    ensures 2.0 * f <= |Weights(f)| as real < 2.0 * f + 2.0
    ensures (|Weights(f)| - 1) as real < 2.0 * f
    ensures forall k :: 0 <= k < |Weights(f)| ==> 0.0 < Weights(f)[k] <= 0.5
    ensures Total(Weights(f)) == f
    decreases PassMeasure(f)
  {
    assert PassMeasure(f - 0.5) < PassMeasure(f);
    if f - 0.5 > 0.0 {
      WeightsOfFactor(f - 0.5);
    }
  }

  /** smooth(f) is exactly the passes of weights Weights(f). */
  lemma {:induction false} SmoothedIsPasses(co: seq<Vec3>, imm: seq<seq<int>>, number: seq<int>, f: real)
    requires TableOk(co, imm, number)
    ensures Smoothed(co, imm, number, f) == Passes(co, imm, number, Weights(f))
    decreases PassMeasure(f)
  {
    if f > 0.0 {
      assert PassMeasure(f - 0.5) < PassMeasure(f);
      var co' := SmoothPass(co, imm, number, MinHalf(f));
      SmoothedIsPasses(co', imm, number, f - 0.5);
      assert Weights(f)[1..] == Weights(f - 0.5);
    }
  }

  /** Every vertex sits at the mean of its valid immediate neighbours. */
  ghost predicate Balanced(co: seq<Vec3>, imm: seq<seq<int>>, number: seq<int>)
    requires TableOk(co, imm, number)
  {
    forall i :: 0 <= i < |co| ==> Mean(co, imm, number, i) == co[i]
  }

  /** A balanced configuration is left exactly where it is by smooth, whatever the factor. */
  lemma {:induction false} BalancedIsFixed(co: seq<Vec3>, imm: seq<seq<int>>, number: seq<int>, f: real)
    requires TableOk(co, imm, number) && Balanced(co, imm, number)
    ensures Smoothed(co, imm, number, f) == co
    decreases PassMeasure(f)
  {
    if f > 0.0 {
      assert PassMeasure(f - 0.5) < PassMeasure(f);
      var w := MinHalf(f);
      var co' := SmoothPass(co, imm, number, w);
      forall i | 0 <= i < |co|
        ensures co'[i] == co[i]
      {
        var p := co[i];
        assert co'[i] == Add(Scale(p, w), Scale(p, 1.0 - w));
      }
      assert co' == co;
      BalancedIsFixed(co, imm, number, f - 0.5);
    }
  }

  /** With every vertex at one point p, each row's valid-neighbour sum is p times its count. */
  lemma {:induction false} SumOfConstant(co: seq<Vec3>, row: seq<int>, p: Vec3)
    requires RowOk(|co|, row) && forall i :: 0 <= i < |co| ==> co[i] == p
    ensures SumValid(co, row) == Scale(p, ValidCount(row) as real)
  {
    if |row| > 0 {
      var init := row[..|row| - 1];
      SumOfConstant(co, init, p);
      AddScale(p, ValidCount(init) as real);
    }
  }

  /** A mesh collapsed to one point is balanced when each row's count is its number of valid
      slots, as the engine's counts are. */
  lemma ConstantIsBalanced(co: seq<Vec3>, imm: seq<seq<int>>, number: seq<int>, p: Vec3)
    requires TableOk(co, imm, number) && forall i :: 0 <= i < |co| ==> co[i] == p
    requires forall i :: 0 <= i < |co| ==> number[i] == ValidCount(imm[i])
    ensures Balanced(co, imm, number)
  {
    forall i | 0 <= i < |co|
      ensures Mean(co, imm, number, i) == co[i]
    {
      SumOfConstant(co, imm[i], p);
      DivScale(p, number[i] as real);
    }
  }

  // ---------------------------------------------------------------------------------------
  // movement_step
  // ---------------------------------------------------------------------------------------

  /** co + (co - last) * drag, row by row. */
  function Inertia(co: seq<Vec3>, last: seq<Vec3>, drag: real): (r: seq<Vec3>)
    requires |last| == |co|
    ensures |r| == |co|
  {
    seq(|co|, i requires 0 <= i < |co| => Add(co[i], Scale(Sub(co[i], last[i]), drag)))
  }

  /** The step's velocity (new co minus the new last_co, which is the old co) is the old
      velocity times drag. */
  lemma VelocityDamped(co: seq<Vec3>, last: seq<Vec3>, drag: real, i: nat)
    requires |last| == |co| && i < |co|
    ensures Sub(Inertia(co, last, drag)[i], co[i]) == Scale(Sub(co[i], last[i]), drag)
  {
  }

  /** No drag, or no motion since the previous step, leaves every position where it is. */
  lemma InertiaStill(co: seq<Vec3>, last: seq<Vec3>, drag: real)
    requires |last| == |co| && (drag == 0.0 || co == last)
    ensures Inertia(co, last, drag) == co
  {
    forall i | 0 <= i < |co|
      ensures Inertia(co, last, drag)[i] == co[i]
    {
      if drag == 0.0 {
        assert Scale(Sub(co[i], last[i]), drag) == Zero;
      }
    }
  }

  function Power(x: real, k: nat): real {
    if k == 0 then 1.0 else x * Power(x, k - 1)
  }

  /** (co, last_co) after k movement steps. */
  function Steps(co: seq<Vec3>, last: seq<Vec3>, drag: real, k: nat): (r: (seq<Vec3>, seq<Vec3>))
    requires |last| == |co|
    ensures |r.0| == |co| && |r.1| == |co|
  {
    if k == 0 then (co, last) else
      var p := Steps(co, last, drag, k - 1);
      (Inertia(p.0, p.1, drag), p.0)
  }

  /** After k steps the velocity of every vertex is its starting velocity times drag^k. */
  lemma {:induction false} VelocityAfter(co: seq<Vec3>, last: seq<Vec3>, drag: real, k: nat, i: nat)
    requires |last| == |co| && i < |co|
    ensures var p := Steps(co, last, drag, k); Sub(p.0[i], p.1[i]) == Scale(Sub(co[i], last[i]), Power(drag, k))
  {
    if k > 0 {
      var p := Steps(co, last, drag, k - 1);
      var p' := Steps(co, last, drag, k);
      var v := Sub(co[i], last[i]);
      assert p'.0 == Inertia(p.0, p.1, drag) && p'.1 == p.0;
      calc {
        Sub(p'.0[i], p'.1[i]);
        Sub(Inertia(p.0, p.1, drag)[i], p.0[i]);
        { VelocityDamped(p.0, p.1, drag, i); }
        Scale(Sub(p.0[i], p.1[i]), drag);
        { VelocityAfter(co, last, drag, k - 1, i); }
        Scale(Scale(v, Power(drag, k - 1)), drag);
        { PowerStep(drag, k); ScaleProduct(v, Power(drag, k - 1), drag, Power(drag, k)); }
        Scale(v, Power(drag, k));
      }
    }
  }

  lemma ScaleProduct(v: Vec3, a: real, b: real, c: real)
    requires a * b == c
    ensures Scale(Scale(v, a), b) == Scale(v, c)
  {
    ScaleScale(v, a, b);
  }

  lemma PowerStep(x: real, k: nat)
    requires k > 0
    ensures Power(x, k - 1) * x == Power(x, k)
  {
  }

  // ---------------------------------------------------------------------------------------
  // x_mirror_apply
  // ---------------------------------------------------------------------------------------

  ghost predicate MirrorOk(n: nat, m: seq<nat>) {
    |m| == n && forall i :: 0 <= i < n ==> m[i] < n
  }

  /** Every row becomes the mean of itself and the X-negated old position of its mirror. */
  function MirrorApplied(co: seq<Vec3>, m: seq<nat>): (r: seq<Vec3>)
    requires MirrorOk(|co|, m)
    ensures |r| == |co|
  {
    seq(|co|, i requires 0 <= i < |co| => Mid(co[i], ReflectX(co[m[i]])))
  }

  /** Each vertex is the reflection of its mirror vertex. */
  ghost predicate Symmetric(co: seq<Vec3>, m: seq<nat>)
    requires MirrorOk(|co|, m)
  {
    forall i :: 0 <= i < |co| ==> co[i] == ReflectX(co[m[i]])
  }

  /** A symmetric configuration is unchanged by the mirror step. */
  lemma SymmetricIsFixed(co: seq<Vec3>, m: seq<nat>)
    requires MirrorOk(|co|, m) && Symmetric(co, m)
    ensures MirrorApplied(co, m) == co
  {
    forall i | 0 <= i < |co|
      ensures MirrorApplied(co, m)[i] == co[i]
    {
      assert ReflectX(co[m[i]]) == co[i];
    }
  }

  /** A vertex that is its own mirror lands on the plane X = 0, keeping Y and Z. */
  lemma SelfMirrorOnPlane(co: seq<Vec3>, m: seq<nat>, i: nat)
    requires MirrorOk(|co|, m) && i < |co| && m[i] == i
    ensures MirrorApplied(co, m)[i] == Vec3(0.0, co[i].y, co[i].z)
  {
  }

  /** With a mirror table that pairs vertices up, one mirror step makes the mesh symmetric. */
  lemma PairedMakesSymmetric(co: seq<Vec3>, m: seq<nat>)
    requires MirrorOk(|co|, m) && forall i :: 0 <= i < |co| ==> m[m[i]] == i
    ensures Symmetric(MirrorApplied(co, m), m)
  {
    var r := MirrorApplied(co, m);
    forall i | 0 <= i < |co|
      ensures r[i] == ReflectX(r[m[i]])
    {
      assert r[m[i]] == Mid(co[m[i]], ReflectX(co[i]));
    }
  }

  /** With a mirror table that pairs vertices up, a second mirror step changes nothing. */
  lemma PairedIdempotent(co: seq<Vec3>, m: seq<nat>)
    requires MirrorOk(|co|, m) && forall i :: 0 <= i < |co| ==> m[m[i]] == i
    ensures MirrorApplied(MirrorApplied(co, m), m) == MirrorApplied(co, m)
  {
    PairedMakesSymmetric(co, m);
    SymmetricIsFixed(MirrorApplied(co, m), m);
  }

  // ---------------------------------------------------------------------------------------
  // pins
  // ---------------------------------------------------------------------------------------

  /** A pin record as add_pin stores it. */
  datatype Pin = Pin(co: Vec3, vertIndex: nat, stiffness: int, factor: real, twisty: bool)

  /** max(0, min(stiffness, maxSprings)), the clamp of add_pin and of pins_apply. */
  function PinStiffness(stiffness: int, maxSprings: nat): (r: nat)
    ensures r <= maxSprings && (0 <= stiffness <= maxSprings ==> r == stiffness)
    ensures stiffness < 0 ==> r == 0
    ensures stiffness > maxSprings ==> r == maxSprings
  {
    if stiffness < 0 then 0 else if stiffness < maxSprings then stiffness else maxSprings
  }

  /** max(0, min(factor, 1)). */
  function PinFactor(factor: real): (r: real)
    ensures 0.0 <= r <= 1.0 && (0.0 <= factor <= 1.0 ==> r == factor)
    ensures factor < 0.0 ==> r == 0.0
    ensures factor > 1.0 ==> r == 1.0
  {
    if factor < 0.0 then 0.0 else if factor < 1.0 then factor else 1.0
  }

  /** The weight of the rank-k spring neighbour of a pin of stiffness s: (1 - k / s) * factor. */
  function Falloff(k: nat, s: nat, factor: real): (r: real)
    requires k < s
    ensures k == 0 ==> r == factor
    ensures 0.0 <= factor ==> 0.0 <= r <= factor
  {
    (1.0 - k as real / s as real) * factor
  }

  /** Nearer neighbours never get less weight than farther ones. */
  lemma FalloffDecreasing(k1: nat, k2: nat, s: nat, factor: real)
    requires k1 <= k2 < s && 0.0 <= factor
    ensures Falloff(k2, s, factor) <= Falloff(k1, s, factor)
  {
    assert k1 as real / s as real <= k2 as real / s as real;
  }

  ghost predicate IdsOk(n: nat, ids: seq<nat>) {
    forall k :: 0 <= k < |ids| ==> ids[k] < n
  }

  /** co[ids] = vals, with the rows written in index-list order so that a repeated index keeps
      the last value written to it. NumPy leaves the result for repeated indices unspecified;
      last-write-wins is the model's choice (what NumPy does for a 1-D index list). */
  function Scatter(xs: seq<Vec3>, ids: seq<nat>, vals: seq<Vec3>): (r: seq<Vec3>)
    requires |vals| == |ids| && IdsOk(|xs|, ids)
    ensures |r| == |xs|
    ensures forall i :: 0 <= i < |xs| && i !in ids ==> r[i] == xs[i]
    ensures forall k :: 0 <= k < |ids| && (forall k2 :: k < k2 < |ids| ==> ids[k2] != ids[k]) ==>
      r[ids[k]] == vals[k]
  {
    if |ids| == 0 then xs
    else
      var m := |ids| - 1;
      var prev := Scatter(xs, ids[..m], vals[..m]);
      ScatterLast(xs, ids, vals, prev);
      prev[ids[m] := vals[m]]
  }

  /** The last write of a scatter: rows it does not name keep what the earlier writes left,
      and it wins over every earlier write to its row. */
  lemma ScatterLast(xs: seq<Vec3>, ids: seq<nat>, vals: seq<Vec3>, prev: seq<Vec3>)
    requires |vals| == |ids| > 0 && IdsOk(|xs|, ids) && |prev| == |xs|
    requires var pre := ids[..|ids| - 1];
      forall i :: 0 <= i < |xs| && i !in pre ==> prev[i] == xs[i]
    requires var pre, pv := ids[..|ids| - 1], vals[..|ids| - 1];
      forall k :: 0 <= k < |pre| && (forall k2 :: k < k2 < |pre| ==> pre[k2] != pre[k]) ==> prev[pre[k]] == pv[k]
    ensures var r := prev[ids[|ids| - 1] := vals[|ids| - 1]];
      && (forall i :: 0 <= i < |xs| && i !in ids ==> r[i] == xs[i])
      && (forall k :: 0 <= k < |ids| && (forall k2 :: k < k2 < |ids| ==> ids[k2] != ids[k]) ==>
            r[ids[k]] == vals[k])
  {
    var m := |ids| - 1;
    var r := prev[ids[m] := vals[m]];
    forall i | 0 <= i < |xs| && i !in ids
      ensures r[i] == xs[i]
    {
      assert i !in ids[..m];
    }
    forall k | 0 <= k < |ids| && (forall k2 :: k < k2 < |ids| ==> ids[k2] != ids[k])
      ensures r[ids[k]] == vals[k]
    {
      if k < m {
        assert ids[m] != ids[k];
        assert ids[..m][k] == ids[k] && vals[..m][k] == vals[k];
        assert forall k2 :: k < k2 < m ==> ids[..m][k2] != ids[..m][k];
      }
    }
  }

  /** Writing back the values already there changes nothing. */
  lemma {:induction false} ScatterSame(xs: seq<Vec3>, ids: seq<nat>, vals: seq<Vec3>)
    requires |vals| == |ids| && IdsOk(|xs|, ids)
    requires forall k :: 0 <= k < |ids| ==> vals[k] == xs[ids[k]]
    ensures Scatter(xs, ids, vals) == xs
  {
    if |ids| > 0 {
      ScatterSame(xs, ids[..|ids| - 1], vals[..|ids| - 1]);
    }
  }

  ghost predicate PinArgsOk(n: nat, pin: Pin, ids: seq<nat>, lens: seq<real>) {
    pin.vertIndex < n && |lens| == |ids| && IdsOk(n, ids)
  }

  /** The rank weights of a pin whose first s spring ids are used. */
  function Weighting(s: nat, factor: real): (r: seq<real>)
    ensures |r| == s && forall k :: 0 <= k < s ==> r[k] == Falloff(k, s, factor)
  {
    seq(s, k requires 0 <= k < s => Falloff(k, s, factor))
  }

  /** The new position of one twisty-pin neighbour at a, for the pin at c, rest length len
      and weight f: newd * f + d * (1 - f) + c with d = a - c and newd = rescale(d, len * sizing).
      rescale is left uninterpreted; the engine computes d * (len * sizing)^2 / |d|^2. */
  function TwistyValue(a: Vec3, c: Vec3, len: real, sizing: real, f: real,
                       rescale: (Vec3, real) -> Vec3): Vec3 {
    var d := Sub(a, c);
    Add(Add(Scale(rescale(d, len * sizing), f), Scale(d, 1.0 - f)), c)
  }

  /** The new neighbour positions of a twisty pin: the offset from the pin, passed through the
      caller-supplied rescale with lengths * sizing, and blended by the weight. */
  function TwistyValues(co1: seq<Vec3>, c: Vec3, ids: seq<nat>, lens: seq<real>, sizing: real,
                        fall: seq<real>, rescale: (Vec3, real) -> Vec3): (r: seq<Vec3>)
    requires |lens| == |ids| && |fall| == |ids| && IdsOk(|co1|, ids)
    ensures |r| == |ids|
    ensures forall k :: 0 <= k < |ids| ==> r[k] == TwistyValue(co1[ids[k]], c, lens[k], sizing, fall[k], rescale)
  {
    seq(|ids|, k requires 0 <= k < |ids| => TwistyValue(co1[ids[k]], c, lens[k], sizing, fall[k], rescale))
  }

  /** The new neighbour positions of a non-twisty pin: each neighbour moved by its weight
      times the pin's displacement d. */
  function PushValues(co1: seq<Vec3>, ids: seq<nat>, d: Vec3, fall: seq<real>): (r: seq<Vec3>)
    requires |fall| == |ids| && IdsOk(|co1|, ids)
    ensures |r| == |ids|
    ensures forall k :: 0 <= k < |ids| ==> Sub(r[k], co1[ids[k]]) == Scale(d, fall[k])
  {
    seq(|ids|, k requires 0 <= k < |ids| => Add(co1[ids[k]], Scale(d, fall[k])))
  }

  /** One iteration of the loop of pins_apply, for a pin whose first s spring ids and rest
      lengths are ids and lens. */
  function ApplyPin(co: seq<Vec3>, pin: Pin, ids: seq<nat>, lens: seq<real>, sizing: real,
                    rescale: (Vec3, real) -> Vec3): (r: seq<Vec3>)
    requires PinArgsOk(|co|, pin, ids, lens)
    ensures |r| == |co|
  {
    var idx := pin.vertIndex;
    var fall := Weighting(|ids|, pin.factor);
    if pin.twisty then
      var co1 := co[idx := pin.co];
      Scatter(co1, ids, TwistyValues(co1, co1[idx], ids, lens, sizing, fall, rescale))
    else
      var d := Sub(pin.co, co[idx]);
      var co1 := co[idx := Add(co[idx], Scale(d, pin.factor))];
      Scatter(co1, ids, PushValues(co1, ids, d, fall))
  }

  /** A pin moves only its own vertex and the first s spring ids of that vertex. */
  lemma PinFrame(co: seq<Vec3>, pin: Pin, ids: seq<nat>, lens: seq<real>, sizing: real,
                 rescale: (Vec3, real) -> Vec3, i: nat)
    requires PinArgsOk(|co|, pin, ids, lens) && i < |co| && i != pin.vertIndex && i !in ids
    ensures ApplyPin(co, pin, ids, lens, sizing, rescale)[i] == co[i]
  {
  }

  /** A twisty pin puts its vertex exactly at the pin position. */
  lemma TwistySnaps(co: seq<Vec3>, pin: Pin, ids: seq<nat>, lens: seq<real>, sizing: real,
                    rescale: (Vec3, real) -> Vec3)
    requires PinArgsOk(|co|, pin, ids, lens) && pin.twisty && pin.vertIndex !in ids
    ensures ApplyPin(co, pin, ids, lens, sizing, rescale)[pin.vertIndex] == pin.co
  {
  }

  ghost predicate DistinctIds(ids: seq<nat>) {
    forall k1, k2 :: 0 <= k1 < k2 < |ids| ==> ids[k1] != ids[k2]
  }

  /** With distinct spring ids that avoid the pinned vertex, a non-twisty pin moves its vertex
      by factor * d and its rank-k neighbour by Falloff(k) * d, where d is the pin position
      minus the vertex position. */
  lemma PinDisplacement(co: seq<Vec3>, pin: Pin, ids: seq<nat>, lens: seq<real>, sizing: real,
                        rescale: (Vec3, real) -> Vec3)
    requires PinArgsOk(|co|, pin, ids, lens) && !pin.twisty
    requires DistinctIds(ids) && pin.vertIndex !in ids
    ensures var r := ApplyPin(co, pin, ids, lens, sizing, rescale);
            var d := Sub(pin.co, co[pin.vertIndex]);
            && r[pin.vertIndex] == Add(co[pin.vertIndex], Scale(d, pin.factor))
            && forall k :: 0 <= k < |ids| ==>
                 r[ids[k]] == Add(co[ids[k]], Scale(d, Falloff(k, |ids|, pin.factor)))
  {
    var r := ApplyPin(co, pin, ids, lens, sizing, rescale);
    forall k | 0 <= k < |ids|
      ensures r[ids[k]] == Add(co[ids[k]], Scale(Sub(pin.co, co[pin.vertIndex]), Falloff(k, |ids|, pin.factor)))
    {
      assert forall k2 :: k < k2 < |ids| ==> ids[k2] != ids[k];
    }
  }

  /** A non-twisty pin already at its vertex's position changes nothing. */
  lemma PinAtVertexIsStill(co: seq<Vec3>, pin: Pin, ids: seq<nat>, lens: seq<real>, sizing: real,
                           rescale: (Vec3, real) -> Vec3)
    requires PinArgsOk(|co|, pin, ids, lens) && !pin.twisty && pin.co == co[pin.vertIndex]
    ensures ApplyPin(co, pin, ids, lens, sizing, rescale) == co
  {
    var d := Sub(pin.co, co[pin.vertIndex]);
    assert d == Zero;
    var co1 := co[pin.vertIndex := Add(co[pin.vertIndex], Scale(d, pin.factor))];
    assert co1 == co;
    var fall := Weighting(|ids|, pin.factor);
    ScatterSame(co1, ids, PushValues(co1, ids, d, fall));
  }

  /** A twisty pin whose neighbours' offsets the rescale leaves alone moves only the pinned
      vertex. (The engine's d * (len * sizing)^2 / |d|^2 leaves d alone exactly when |d| is
      len * sizing.) */
  lemma TwistyAtRestMovesOnlyVertex(co: seq<Vec3>, pin: Pin, ids: seq<nat>, lens: seq<real>,
                                    sizing: real, rescale: (Vec3, real) -> Vec3)
    requires PinArgsOk(|co|, pin, ids, lens) && pin.twisty
    requires forall k :: 0 <= k < |ids| ==>
      var d := Sub(co[pin.vertIndex := pin.co][ids[k]], pin.co); rescale(d, lens[k] * sizing) == d
    ensures ApplyPin(co, pin, ids, lens, sizing, rescale) == co[pin.vertIndex := pin.co]
  {
    var co1 := co[pin.vertIndex := pin.co];
    var fall := Weighting(|ids|, pin.factor);
    assert co1[pin.vertIndex] == pin.co;
    var vals := TwistyValues(co1, pin.co, ids, lens, sizing, fall, rescale);
    forall k | 0 <= k < |ids|
      ensures vals[k] == co1[ids[k]]
    {
      var d := Sub(co1[ids[k]], pin.co);
      assert vals[k] == TwistyValue(co1[ids[k]], pin.co, lens[k], sizing, fall[k], rescale);
      BlendSelf(d, fall[k]);
      assert vals[k] == Add(d, pin.co);
    }
    ScatterSame(co1, ids, vals);
  }

  /** pins_apply: the pins in list order, each given its spring row. */
  function ApplyPins(co: seq<Vec3>, pins: seq<Pin>, rows: seq<seq<nat>>, lens: seq<seq<real>>,
                     sizing: real, rescale: (Vec3, real) -> Vec3): (r: seq<Vec3>)
    requires |rows| == |pins| && |lens| == |pins|
    requires forall p :: 0 <= p < |pins| ==> PinArgsOk(|co|, pins[p], rows[p], lens[p])
    ensures |r| == |co|
    decreases |pins|
  {
    if |pins| == 0 then co
    else
      var co' := ApplyPin(co, pins[0], rows[0], lens[0], sizing, rescale);
      ApplyPins(co', pins[1..], rows[1..], lens[1..], sizing, rescale)
  }
}

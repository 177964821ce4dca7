/** The spring sampler's pure parts: the stiffness/springs clamp, the choice of slots for one
    row, and the record the engine caches. The random draw and its argsort are a permutation
    supplied by the caller, so everything here holds for every draw. */
module Sampler {

  /** _stiffness_springs_clamp: stiffness is capped at maxSprings, then springs at stiffness. */
  function Clamp(stiffness: int, springs: int, maxSprings: int): (r: (int, int))
    ensures r.0 <= stiffness && r.0 <= maxSprings && (r.0 == stiffness || r.0 == maxSprings)
    ensures r.1 <= springs && r.1 <= r.0 && (r.1 == springs || r.1 == r.0)
    ensures springs <= stiffness <= maxSprings ==> r == (stiffness, springs)
  {
    var st := if maxSprings < stiffness then maxSprings else stiffness;
    (st, if springs < st then springs else st)
  }

  /** Clamping twice changes nothing more. */
  lemma ClampIdempotent(stiffness: int, springs: int, maxSprings: int)
    ensures var r := Clamp(stiffness, springs, maxSprings); Clamp(r.0, r.1, maxSprings) == r
  {
    var r := Clamp(stiffness, springs, maxSprings);
    assert r.1 <= r.0 <= maxSprings;
  }

  /** row lists each of 0 .. m-1 exactly once. */
  ghost predicate IsPerm(row: seq<nat>, m: nat) {
    && |row| == m
    && (forall k :: 0 <= k < m ==> row[k] < m)
    && (forall k1, k2 :: 0 <= k1 < k2 < m ==> row[k1] != row[k2])
  }

  /** What the sampler needs of the clamped pair: forcing columns 0-3 needs four columns. */
  predicate ShapeOk(st: int, sp: int) {
    0 <= sp <= st && (sp == st || 4 <= sp)
  }

  /** The slots one row samples: the first sp entries of the argsort, with columns 0-3 forced
      to the four nearest slots when fewer than all st slots are sampled. */
  function Slots(perm: seq<nat>, st: nat, sp: nat): (r: seq<nat>)
    requires IsPerm(perm, st) && ShapeOk(st, sp)
    ensures |r| == sp && forall k :: 0 <= k < sp ==> r[k] < st
    ensures sp != st ==> r[..4] == [0, 1, 2, 3] && r[4..] == perm[4..sp]
    ensures sp == st ==> IsPerm(r, st)
  {
    if sp == st then perm[..sp] else [0, 1, 2, 3] + perm[4..sp]
  }

  /** One slot row per vertex. */
  function SlotTable(perms: seq<seq<nat>>, st: nat, sp: nat): (r: seq<seq<nat>>)
    requires ShapeOk(st, sp) && forall i :: 0 <= i < |perms| ==> IsPerm(perms[i], st)
    ensures |r| == |perms| && forall i :: 0 <= i < |r| ==> r[i] == Slots(perms[i], st, sp)
  {
    seq(|perms|, i requires 0 <= i < |perms| => Slots(perms[i], st, sp))
  }

  /** Every row of a slot table has sp slots, each below st. */
  ghost predicate SlotsOk(slots: seq<seq<nat>>, st: int, sp: int) {
    forall i :: 0 <= i < |slots| ==> |slots[i]| == sp && forall k :: 0 <= k < sp ==> slots[i][k] < st
  }

  /** ids[i][k] = table[i, slots[i][k]]: numpy's table[idx, idy] with idx the row numbers. */
  function Gather<T>(table: array2<T>, slots: seq<seq<nat>>): (r: seq<seq<T>>)
    requires |slots| <= table.Length0
    requires forall i, k :: 0 <= i < |slots| && 0 <= k < |slots[i]| ==> slots[i][k] < table.Length1
    reads table
    ensures |r| == |slots|
    ensures forall i :: 0 <= i < |r| ==> |r[i]| == |slots[i]|
    ensures forall i, k :: 0 <= i < |r| && 0 <= k < |r[i]| ==> r[i][k] == table[i, slots[i][k]]
  {
    seq(|slots|, i requires 0 <= i < |slots| reads table =>
      seq(|slots[i]|, k requires 0 <= k < |slots[i]| reads table => table[i, slots[i][k]]))
  }

  /** The distinct values of the first j entries of a row number j. */
  lemma {:induction false} DistinctPrefixCard(row: seq<nat>, j: nat)
    requires j <= |row| && forall k1, k2 :: 0 <= k1 < k2 < j ==> row[k1] != row[k2]
    ensures |set k | 0 <= k < j :: row[k]| == j
  {
    if j > 0 {
      DistinctPrefixCard(row, j - 1);
      var prev := set k | 0 <= k < j - 1 :: row[k];
      assert (set k | 0 <= k < j :: row[k]) == prev + {row[j - 1]};
      assert row[j - 1] !in prev;
    }
  }

  /** The numbers below m. */
  function Below(m: nat): (r: set<nat>)
    ensures |r| == m && forall c :: c in r <==> 0 <= c < m
  {
    if m == 0 then {} else Below(m - 1) + {m - 1}
  }

  /** A row that lists m distinct numbers below m lists every one of them. */
  lemma PermCovers(row: seq<nat>, m: nat)
    requires IsPerm(row, m)
    ensures forall c :: 0 <= c < m ==> c in row
  {
    var listed := set k | 0 <= k < m :: row[k];
    var all := Below(m);
    DistinctPrefixCard(row, m);
    assert listed <= all;
    assert |all - listed| == |all| - |listed| == 0;
    forall c | 0 <= c < m
      ensures c in row
    {
      assert c in all;
      assert c in listed;
    }
  }

  /** When every slot is sampled, row i of a gathered sample holds every entry of the first
      st slots of the table's row i. */
  lemma FullSampleCoversRow<T>(table: array2<T>, perms: seq<seq<nat>>, st: nat, i: nat, c: nat)
    requires ShapeOk(st, st) && forall r :: 0 <= r < |perms| ==> IsPerm(perms[r], st)
    requires |perms| <= table.Length0 && st <= table.Length1 && i < |perms| && c < st
    ensures exists k :: 0 <= k < st && Gather(table, SlotTable(perms, st, st))[i][k] == table[i, c]
  {
    PermCovers(perms[i], st);
    assert c in perms[i] && |perms[i]| == st;
    var k :| 0 <= k < st && perms[i][k] == c;
    assert Gather(table, SlotTable(perms, st, st))[i][k] == table[i, c];
  }

  /** When fewer slots than stiffness are sampled, the first four columns of every gathered
      row are the table's first four slots: the four nearest ring vertices. */
  lemma PartialSampleKeepsNearest<T>(table: array2<T>, perms: seq<seq<nat>>, st: nat, sp: nat, i: nat)
    requires ShapeOk(st, sp) && sp != st && forall r :: 0 <= r < |perms| ==> IsPerm(perms[r], st)
    requires |perms| <= table.Length0 && st <= table.Length1 && i < |perms|
    ensures Gather(table, SlotTable(perms, st, sp))[i][..4] == [table[i, 0], table[i, 1], table[i, 2], table[i, 3]]
  {
    var slots := Slots(perms[i], st, sp);
    assert slots[..4] == [0, 1, 2, 3];
    assert slots[0] == 0 && slots[1] == 1 && slots[2] == 2 && slots[3] == 3;
  }

  /** The cached sample: the clamped key it was drawn for and the gathered rows. */
  datatype SampleCache = SampleCache(stiffness: int, springs: int, ids: seq<seq<nat>>, lengths: seq<seq<real>>)
}

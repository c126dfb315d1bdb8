/**
 * Wall-clock slices (sched_slice of fair.c): the share of the scheduling period an
 * entity gets through its hierarchy, and what all tasks of a runqueue get together.
 */
module Slices {
  import opened Arithmetic
  import opened Constants
  import opened Decay
  import opened NewtonReciprocal
  import opened WeightScaling

  /** One step of for_each_sched_entity: an entity and the total weight of its queue. */
  datatype Level = Level(weight: nat, load: nat, onRq: bool)

  /** The divisor of a level: an entity that is not queued counts itself in. */
  function Divisor(l: Level): nat {
    if l.onRq then l.load else l.load + l.weight
  }

  /** The level's 64-bit weight is part of a positive total. */
  predicate LevelOk(l: Level) {
    0 < Divisor(l) && l.weight < TWO64 && ScaleDown(l.weight) <= ScaleDown(Divisor(l))
  }

  predicate PathOk(path: seq<Level>) {
    forall k :: 0 <= k < |path| ==> LevelOk(path[k])
  }

  /** The scaled totals along the path fit 2^32, so no inverse is clamped. */
  predicate Narrow(path: seq<Level>) {
    forall k :: 0 <= k < |path| ==> ScaleDown(Divisor(path[k])) <= TWO32
  }

  /** The part of a slice that one level leaves. */
  function LevelSlice(slice: nat, l: Level): nat
    requires LevelOk(l)
  {
    LevelShift(l);
    CalcDelta(slice, l.weight, Divisor(l))
  }

  /** The slice after the levels of a path, innermost first. */
  function SliceAlong(slice: nat, path: seq<Level>): nat
    requires PathOk(path)
    decreases |path|
  {
    if path == [] then slice else SliceAlong(LevelSlice(slice, path[0]), path[1..])
  }

  lemma LevelShift(l: Level)
    requires LevelOk(l)
    ensures Shift(l.weight, InvWeight(Divisor(l))) >= 0
  {
    ShiftBounds(l.weight, Divisor(l));
  }

  /** sched_slice; floor is the minimum granularity where BASE_SLICE is on. */
  method SchedSlice(period: nat, path: seq<Level>, baseSlice: bool, floor: nat) returns (slice: nat)
    requires PathOk(path)
    ensures slice == if baseSlice then Max(SliceAlong(period, path), floor) else SliceAlong(period, path)
  {
    hide CalcDelta;
    slice := period;
    var i := 0;
    while i < |path|
      invariant 0 <= i <= |path|
      invariant SliceAlong(slice, path[i..]) == SliceAlong(period, path)
    {
      var se := path[i];
      LevelShift(se);
      var lw := new LoadWeight(se.load);
      if !se.onRq {
        lw.UpdateLoadAdd(se.weight);
      }
      assert path[i..][0] == se && path[i..][1..] == path[i + 1..];
      slice := lw.Scale(slice, se.weight);
      i := i + 1;
    }
    if baseSlice {
      slice := if slice < floor then floor else slice;
    }
  }

  /** The product of the weight ratios along a path. */
  ghost function Share(path: seq<Level>): (r: real)
    requires PathOk(path)
    ensures 0.0 <= r
  {
    if path == [] then 1.0
    else
      Ratio(path[0]) * Share(path[1..])
  }

  ghost function Ratio(l: Level): (r: real)
    requires LevelOk(l)
    ensures 0.0 <= r
  {
    ScaleDown(l.weight) as real / ScaleDown(Divisor(l)) as real
  }

  /** A level gives at most its ratio of the slice. */
  lemma LevelSliceBound(slice: nat, l: Level)
    requires LevelOk(l) && ScaleDown(Divisor(l)) <= TWO32
    ensures LevelSlice(slice, l) as real <= slice as real * Ratio(l)
  {
    hide ScaleDown;
    hide CalcDelta;
    hide Shift;
    LevelShift(l);
    CalcDeltaNeverExceeds(slice, l.weight, Divisor(l));
    ScaleDownPositive(Divisor(l));
    QuotientBound(LevelSlice(slice, l), slice, ScaleDown(l.weight), ScaleDown(Divisor(l)));
  }

  lemma ScaleDownPositive(w: nat)
    requires w > 0
    ensures ScaleDown(w) > 0
  {}

  lemma QuotientBound(r: nat, s: nat, a: nat, w: nat)
    requires w > 0 && r * w <= s * a
    ensures r as real <= s as real * (a as real / w as real)
  {
    var q := a as real / w as real;
    assert q * w as real == a as real;
    assert r as real * w as real == (r * w) as real && s as real * a as real == (s * a) as real;
    assert r as real * w as real <= (s as real * q) * w as real;
  }

  lemma ScaleReal(a: real, b: real, c: real)
    requires a <= b && 0.0 <= c
    ensures a * c <= b * c
  {}

  /** A slice is at most the period times the product of the ratios. */
  lemma {:induction false} SliceBelowShare(slice: nat, path: seq<Level>)
    requires PathOk(path) && Narrow(path)
    ensures SliceAlong(slice, path) as real <= slice as real * Share(path)
    decreases |path|
  {
    hide LevelSlice;
    hide LevelOk;
    hide Ratio;
    if path == [] {
    } else {
      LevelSliceBound(slice, path[0]);
      var next := LevelSlice(slice, path[0]);
      SliceBelowShare(next, path[1..]);
      ScaleReal(next as real, slice as real * Ratio(path[0]), Share(path[1..]));
      assert (slice as real * Ratio(path[0])) * Share(path[1..]) == slice as real * Share(path);
    }
  }

  /** An entity that is not queued gets the slice it would get once it is. */
  lemma UnqueuedCountsItselfIn(slice: nat, weight: nat, load: nat, above: seq<Level>)
    requires PathOk([Level(weight, load, false)] + above)
    ensures PathOk([Level(weight, load + weight, true)] + above)
    ensures SliceAlong(slice, [Level(weight, load, false)] + above)
         == SliceAlong(slice, [Level(weight, load + weight, true)] + above)
  {
    var p, q := [Level(weight, load, false)] + above, [Level(weight, load + weight, true)] + above;
    forall k | 0 <= k < |q|
      ensures LevelOk(q[k])
    {
      assert LevelOk(p[k]);
    }
    assert p[1..] == above == q[1..];
    hide ScaleDown;
  }

  /** From below: a level takes less than one unit more than its ratio, and the truncation of the inverse. */
  lemma LevelSliceAtLeast(slice: nat, l: Level)
    requires LevelOk(l) && ScaleDown(Divisor(l)) < TWO32 && slice < TWO64
    ensures var r, a, d := LevelSlice(slice, l), ScaleDown(l.weight), ScaleDown(Divisor(l));
            r * d * TWO32 + slice * a * d + d * TWO32 > slice * a * TWO32
  {
    LevelShift(l);
    InverseBelow(Divisor(l));
    var a, d, inv := ScaleDown(l.weight), ScaleDown(Divisor(l)), InvWeight(Divisor(l));
    var r := LevelSlice(slice, l);
    ScaleDownPositive(Divisor(l));
    MulMono(a, d, inv);
    ExcessFits(a * inv);
    assert Excess(a * inv) == 0 && Pow2(0) == 1;
    BelowU64(slice, a, d);
    CalcDeltaAtLeast(slice, l.weight, Divisor(l));
    hide *;
    NoSecondTruncation(r, slice, a, d, 1);
  }

  lemma NoSecondTruncation(r: nat, slice: nat, a: nat, d: nat, p: nat)
    requires p == 1 && (r + 1) * d * TWO32 + slice * d * (a + p - 1) > slice * a * TWO32
    ensures r * d * TWO32 + slice * a * d + d * TWO32 > slice * a * TWO32
  {
    assert (r + 1) * d * TWO32 == r * d * TWO32 + d * TWO32;
    assert slice * d * a == slice * a * d;
  }

  lemma BelowU64(slice: nat, a: nat, d: nat)
    requires slice < TWO64 && a <= d && d > 0
    ensures slice * a < TWO64 * d
  {
    MulMono(a, d, slice);
    MulMono(slice + 1, TWO64, d);
    assert (slice + 1) * d == slice * d + d;
  }

  /** What the truncated inverses of a path leave of a slice: 1 - W / 2^32 for each scaled total W. */
  ghost function Kept(path: seq<Level>): (r: real)
    requires PathOk(path) && Narrow(path)
    ensures 0.0 <= r <= 1.0
  {
    if path == [] then 1.0
    else
      UnitProduct(KeptAt(path[0]), Kept(path[1..]));
      KeptAt(path[0]) * Kept(path[1..])
  }

  lemma UnitProduct(a: real, b: real)
    requires 0.0 <= a <= 1.0 && 0.0 <= b <= 1.0
    ensures 0.0 <= a * b <= 1.0
  {
    assert 0.0 <= a * b;
    assert a * b <= 1.0 * b;
  }

  ghost function KeptAt(l: Level): (r: real)
    requires LevelOk(l) && ScaleDown(Divisor(l)) <= TWO32
    ensures 0.0 <= r <= 1.0
  {
    1.0 - ScaleDown(Divisor(l)) as real / TWO32 as real
  }

  lemma LevelSliceNear(slice: nat, l: Level)
    requires LevelOk(l) && ScaleDown(Divisor(l)) <= TWO32 && slice < TWO64
    ensures NearShare(LevelSlice(slice, l), 1, slice, Ratio(l), KeptAt(l))
  {
    hide *;
    RatioValue(l);
    if ScaleDown(Divisor(l)) == TWO32 {
      NothingKept(LevelSlice(slice, l), slice, Ratio(l), KeptAt(l));
    } else {
      LevelSliceAtLeast(slice, l);
      NearFromProducts(LevelSlice(slice, l), slice, ScaleDown(l.weight), ScaleDown(Divisor(l)), Ratio(l), KeptAt(l));
    }
  }

  lemma NothingKept(r: nat, s: nat, ratio: real, kept: real)
    requires kept == 0.0
    ensures NearShare(r, 1, s, ratio, kept)
  {}

  lemma RatioValue(l: Level)
    requires LevelOk(l) && ScaleDown(Divisor(l)) <= TWO32
    ensures ScaleDown(Divisor(l)) > 0 && Ratio(l) == ScaleDown(l.weight) as real / ScaleDown(Divisor(l)) as real
    ensures KeptAt(l) == 1.0 - ScaleDown(Divisor(l)) as real / 4294967296.0
    ensures ScaleDown(Divisor(l)) == TWO32 ==> KeptAt(l) == 0.0
  {
    ScaleDownPositive(Divisor(l));
    hide ScaleDown;
  }

  lemma NearFromProducts(r: nat, s: nat, a: nat, d: nat, ratio: real, kept: real)
    requires d > 0 && r * d * TWO32 + s * a * d + d * TWO32 > s * a * TWO32
    requires ratio == a as real / d as real && kept == 1.0 - d as real / 4294967296.0
    ensures NearShare(r, 1, s, ratio, kept)
  {
    var x := s as real * ratio;
    RatioTimes(s, a, d, ratio);
    var left, right := (r + 1) * d * 4294967296, s * a * (4294967296 - d);
    assert left == r * d * 4294967296 + d * 4294967296;
    assert right == s * a * 4294967296 - s * a * d;
    KeptTimes(s, a, d, x, kept);
    CastProduct(r, d);
    CancelReal(x * kept, r as real + 1.0, d as real * 4294967296.0);
  }

  lemma RatioTimes(s: nat, a: nat, d: nat, ratio: real)
    requires d > 0 && ratio == a as real / d as real
    ensures (s as real * ratio) * d as real == (s * a) as real
  {
    assert ratio * d as real == a as real;
    assert (s as real * ratio) * d as real == s as real * (ratio * d as real);
    assert (s * a) as real == s as real * a as real;
  }

  lemma KeptTimes(s: nat, a: nat, d: nat, x: real, kept: real)
    requires x * d as real == (s * a) as real && kept == 1.0 - d as real / 4294967296.0
    ensures (x * kept) * (d as real * 4294967296.0) == (s * a * (4294967296 - d)) as real
  {
    var k := kept * 4294967296.0;
    assert k == (4294967296 - d) as real;
    assert (x * kept) * (d as real * 4294967296.0) == (x * d as real) * k;
    CastTimes(s * a, 4294967296 - d);
  }

  lemma CastTimes(a: int, b: int)
    ensures (a * b) as real == a as real * b as real
  {}

  lemma CastProduct(r: nat, d: nat)
    ensures ((r + 1) * d * 4294967296) as real == (r as real + 1.0) * (d as real * 4294967296.0)
  {
    CastTimes(r + 1, d);
    CastTimes((r + 1) * d, 4294967296);
  }

  lemma CancelReal(a: real, b: real, k: real)
    requires k > 0.0 && a * k <= b * k
    ensures a <= b
  {
    ScaleReal(0.0, k, 1.0);
    assert a <= b <==> a * k <= b * k;
  }

  /** What is left of a slice s after n levels is at least the shares sh and ke of it, less one for each. */
  predicate NearShare(left: nat, n: nat, s: nat, sh: real, ke: real) {
    left as real + n as real >= s as real * sh * ke
  }

  /**
   * A slice is at least what the ratios and the truncated inverses leave of the period, less one
   * unit for each level.
   */
  lemma {:induction false} SliceNearShare(slice: nat, path: seq<Level>)
    requires PathOk(path) && Narrow(path) && slice < TWO64
    ensures NearShare(SliceAlong(slice, path), |path|, slice, Share(path), Kept(path))
    decreases |path|
  {
    hide *;
    if path == [] {
      NoLevels(slice, path);
    } else {
      PathUnfolds(path);
      var next := LevelSlice(slice, path[0]);
      SliceUnfolds(slice, path);
      FirstShrinks(slice, path[0]);
      LevelSliceNear(slice, path[0]);
      SliceNearShare(next, path[1..]);
      ShareAtMost1(path[1..]);
      Assemble(SliceAlong(next, path[1..]), |path|, slice, next, Ratio(path[0]), KeptAt(path[0]),
               Share(path[1..]), Kept(path[1..]), Share(path), Kept(path));
    }
  }

  lemma Assemble(left: nat, n: nat, s: nat, next: nat, r: real, k: real, share: real, kept: real, sh: real, ke: real)
    requires n > 0 && NearShare(left, n - 1, next, share, kept) && NearShare(next, 1, s, r, k)
    requires 0.0 <= share <= 1.0 && 0.0 <= kept <= 1.0 && sh == r * share && ke == k * kept
    ensures NearShare(left, n, s, sh, ke)
  {
    StepDown(s as real, next as real, r, k, share, kept);
  }

  lemma NoLevels(slice: nat, path: seq<Level>)
    requires path == []
    ensures NearShare(SliceAlong(slice, path), |path|, slice, Share(path), Kept(path))
  {}

  lemma FirstShrinks(slice: nat, l: Level)
    requires LevelOk(l) && ScaleDown(Divisor(l)) <= TWO32 && slice < TWO64
    ensures LevelSlice(slice, l) <= slice
  {
    LevelShrinks(slice, l);
  }

  lemma PathUnfolds(path: seq<Level>)
    requires path != [] && PathOk(path) && Narrow(path)
    ensures LevelOk(path[0]) && ScaleDown(Divisor(path[0])) <= TWO32 && PathOk(path[1..]) && Narrow(path[1..])
    ensures Share(path) == Ratio(path[0]) * Share(path[1..]) && Kept(path) == KeptAt(path[0]) * Kept(path[1..])
  {
    hide Ratio;
    hide KeptAt;
    hide ScaleDown;
  }

  lemma SliceUnfolds(slice: nat, path: seq<Level>)
    requires path != [] && PathOk(path)
    ensures LevelOk(path[0]) && PathOk(path[1..])
    ensures SliceAlong(slice, path) == SliceAlong(LevelSlice(slice, path[0]), path[1..])
  {}

  lemma RatioAtMost1(l: Level)
    requires LevelOk(l)
    ensures 0.0 <= Ratio(l) <= 1.0
  {
    ScaleDownPositive(Divisor(l));
    AtMostOne(ScaleDown(l.weight) as real, ScaleDown(Divisor(l)) as real);
  }

  lemma AtMostOne(a: real, d: real)
    requires 0.0 <= a <= d && d > 0.0
    ensures a / d <= 1.0
  {}

  lemma {:induction false} ShareAtMost1(path: seq<Level>)
    requires PathOk(path)
    ensures Share(path) <= 1.0
  {
    hide LevelOk;
    hide Ratio;
    if path == [] {
    } else {
      RatioAtMost1(path[0]);
      ShareAtMost1(path[1..]);
      UnitProduct(Ratio(path[0]), Share(path[1..]));
    }
  }

  lemma StepDown(s: real, next: real, r: real, k: real, share: real, kept: real)
    requires next + 1.0 >= s * r * k && 0.0 <= share <= 1.0 && 0.0 <= kept <= 1.0
    ensures next * share * kept + 1.0 >= s * (r * share) * (k * kept)
  {
    var p, x := share * kept, s * r * k;
    UnitProduct(share, kept);
    ScaleReal(x, next + 1.0, p);
    assert (next + 1.0) * p == next * p + p;
    Regroup(s, r, k, share, kept);
    assert next * share * kept == next * p;
    Finish(s * (r * share) * (k * kept), x * p, next * p, p);
  }

  lemma Finish(t: real, u: real, v: real, p: real)
    requires t == u && u <= v + p && p <= 1.0
    ensures v + 1.0 >= t
  {}

  lemma Regroup(s: real, r: real, k: real, share: real, kept: real)
    ensures s * (r * share) * (k * kept) == s * r * k * (share * kept)
  {
    assert s * (r * share) == (s * r) * share;
    assert (s * r) * share * (k * kept) == ((s * r) * k) * (share * kept);
  }

  /** A level whose scaled total fits 2^32 never stretches a time, and never wraps. */
  lemma LevelShrinks(slice: nat, l: Level)
    requires LevelOk(l) && ScaleDown(Divisor(l)) <= TWO32 && slice < TWO64
    ensures var f, k := Factor(l.weight, InvWeight(Divisor(l))), Shift(l.weight, InvWeight(Divisor(l)));
            k >= 0 && f <= Pow2(k) && LevelSlice(slice, l) == slice * f / Pow2(k) <= slice
  {
    LevelShift(l);
    LevelFactor(l);
    hide ScaleDown;
    hide Factor;
    hide Shift;
    hide InvWeight;
    hide Divisor;
    ShrunkProduct(slice, Factor(l.weight, InvWeight(Divisor(l))), Shift(l.weight, InvWeight(Divisor(l))));
  }

  lemma ShrunkProduct(slice: nat, f: nat, k: nat)
    requires slice < TWO64 && f <= Pow2(k)
    ensures MulShr(slice, f, k) == slice * f / Pow2(k) <= slice
  {
    hide Pow2;
    MulMono(f, Pow2(k), slice);
    DivMono(slice * f, slice * Pow2(k), Pow2(k));
    DivUnique(slice * Pow2(k), Pow2(k), slice);
    ModSmall(Shr(slice * f, k), TWO64);
  }

  /** The factor of a level is at most one. */
  lemma LevelFactor(l: Level)
    requires LevelOk(l) && ScaleDown(Divisor(l)) <= TWO32
    ensures var inv := InvWeight(Divisor(l));
            Shift(l.weight, inv) >= 0 && Factor(l.weight, inv) <= Pow2(Shift(l.weight, inv))
  {
    LevelShift(l);
    InverseBelow(Divisor(l));
    var a, w, inv := ScaleDown(l.weight), ScaleDown(Divisor(l)), InvWeight(Divisor(l));
    FactorTimes(l.weight, inv);
    MulMono(a, w, inv);
    var f, k := Factor(l.weight, inv), Shift(l.weight, inv);
    PowersTo32(k);
    hide *;
    MulCancel(f, Pow2(k), Pow2(32 - k));
  }

  lemma PowersTo32(k: nat)
    requires k <= 32
    ensures Pow2(k) * Pow2(32 - k) == TWO32
  {
    hide Pow2;
    Pow2Sum(k, 32 - k);
    Pow2At32();
  }

  /** The factor loses nothing to its normalisations but what they truncate. */
  lemma FactorTimes(weight: nat, inv: nat)
    requires Shift(weight, inv) >= 0
    ensures Shift(weight, inv) <= 32 && Factor(weight, inv) * Pow2(32 - Shift(weight, inv)) <= ScaleDown(weight) * inv
  {
    hide ScaleDown;
    hide Excess;
    hide Normalised;
    var a := ScaleDown(weight);
    var low := Normalised(a);
    NormalisedTimes(a);
    NormalisedTimes(low * inv);
    hide Pow2;
    Pow2Sum(Excess(low * inv), Excess(a));
    var f, p1, p2 := Factor(weight, inv), Pow2(Excess(a)), Pow2(Excess(low * inv));
    assert 32 - Shift(weight, inv) == Excess(low * inv) + Excess(a);
    TwoNormalisations(a, inv, low, f, p1, p2);
  }

  lemma TwoNormalisations(a: nat, inv: nat, low: nat, f: nat, p1: nat, p2: nat)
    requires low * p1 <= a && f * p2 <= low * inv
    ensures f * (p2 * p1) <= a * inv
  {
    MulMono(f * p2, low * inv, p1);
    assert (f * p2) * p1 == f * (p2 * p1) && (low * inv) * p1 == (low * p1) * inv;
    MulMono(low * p1, a, inv);
  }

  /** Along a path more time gives more, and two times give no more apart than together. */
  lemma {:induction false} SliceAlongAdds(a: nat, b: nat, path: seq<Level>)
    requires PathOk(path) && Narrow(path) && a + b < TWO64
    ensures SliceAlong(a, path) + SliceAlong(b, path) <= SliceAlong(a + b, path)
    decreases |path|
  {
    hide LevelOk;
    hide LevelSlice;
    if path == [] {
    } else {
      var l := path[0];
      LevelAdds(a, b, l);
      var x, y, z := LevelSlice(a, l), LevelSlice(b, l), LevelSlice(a + b, l);
      SliceAlongAdds(x, y, path[1..]);
      SliceAlongAdds(x + y, z - (x + y), path[1..]);
    }
  }

  lemma LevelAdds(a: nat, b: nat, l: Level)
    requires LevelOk(l) && ScaleDown(Divisor(l)) <= TWO32 && a + b < TWO64
    ensures LevelSlice(a, l) + LevelSlice(b, l) <= LevelSlice(a + b, l) <= a + b
  {
    LevelShrinks(a, l);
    LevelShrinks(b, l);
    LevelShrinks(a + b, l);
    var f, k := Factor(l.weight, InvWeight(Divisor(l))), Shift(l.weight, InvWeight(Divisor(l)));
    hide *;
    DivSuperadditive(a * f, b * f, Pow2(k));
    assert a * f + b * f == (a + b) * f;
  }

  /** The entities of a runqueue: tasks, and groups with a queue of their own. */
  datatype Node = Task(weight: nat) | Group(weight: nat, queue: seq<Node>)

  /** cfs_rq->load.weight of a queue with these entities. */
  function QueueWeight(queue: seq<Node>): nat {
    if queue == [] then 0 else queue[0].weight + QueueWeight(queue[1..])
  }

  /** The scaled weights of the entities, one by one. */
  function ScaledWeights(queue: seq<Node>): nat {
    if queue == [] then 0 else ScaleDown(queue[0].weight) + ScaledWeights(queue[1..])
  }

  lemma {:induction false} PartOfQueue(queue: seq<Node>, e: Node)
    requires e in queue
    ensures e.weight <= QueueWeight(queue)
  {
    if queue[0] != e {
      PartOfQueue(queue[1..], e);
    }
  }

  /** The level of an entity that is queued among siblings of this total weight. */
  function QueuedLevel(e: Node, total: nat): Level {
    Level(e.weight, total, true)
  }

  /** What the walk needs of the entities of a queue whose total weight is given. */
  ghost predicate AllQueued(queue: seq<Node>, total: nat) {
    forall e :: e in queue ==> LevelOk(QueuedLevel(e, total))
  }

  /** The total of a queue is positive, and scaled it fits 2^32. */
  predicate TotalFits(queue: seq<Node>) {
    0 < QueueWeight(queue) < TWO64 && ScaleDown(QueueWeight(queue)) <= TWO32
  }

  lemma QueueIsQueued(queue: seq<Node>)
    requires TotalFits(queue)
    ensures AllQueued(queue, QueueWeight(queue))
  {
    forall e | e in queue
      ensures LevelOk(QueuedLevel(e, QueueWeight(queue)))
    {
      PartOfQueue(queue, e);
    }
  }

  /** What the entities of one queue (or of its tail) get together of a slice. */
  ghost function LevelSlices(slice: nat, queue: seq<Node>, total: nat): nat
    requires AllQueued(queue, total)
  {
    if queue == [] then 0
    else LevelSlice(slice, QueuedLevel(queue[0], total)) + LevelSlices(slice, queue[1..], total)
  }

  /** The fixed-point shares of the entities of a queue add up to at most one. */
  predicate SharesFit(queue: seq<Node>) {
    ScaledWeights(queue) * InvWeight(QueueWeight(queue)) <= TWO32
  }

  /** The slices of the entities of one queue never add up to more than what is divided. */
  ghost predicate NeverOverruns(queue: seq<Node>)
    requires TotalFits(queue)
  {
    QueueIsQueued(queue);
    forall slice: nat :: LevelSlices(slice, queue, QueueWeight(queue)) <= slice
  }

  /** Exactly the queues whose fixed-point shares fit divide every slice without overrun. */
  lemma NeverOverrunsIff(queue: seq<Node>)
    requires TotalFits(queue)
    ensures NeverOverruns(queue) <==> SharesFit(queue)
  {
    QueueIsQueued(queue);
    var w := QueueWeight(queue);
    var shares := ScaledWeights(queue) * InvWeight(w);
    assert SharesFit(queue) <==> shares <= TWO32;
    WholeSlices(queue, w);
    forall slice: nat | shares <= TWO32
      ensures LevelSlices(slice, queue, w) <= slice
    {
      LevelSlicesBelow(slice, queue, w);
      hide *;
      SharesOf(slice, LevelSlices(slice, queue, w), shares);
    }
    hide SharesFit;
    hide LevelSlices;
    hide AllQueued;
    hide ScaleDown;
  }

  lemma SharesOf(slice: nat, r: nat, shares: nat)
    requires r * TWO32 <= slice * shares && shares <= TWO32
    ensures r <= slice
  {
    MulMono(shares, TWO32, slice);
    MulCancel(r, slice, TWO32);
  }

  lemma {:induction false} LevelSlicesBelow(slice: nat, queue: seq<Node>, total: nat)
    requires AllQueued(queue, total)
    ensures LevelSlices(slice, queue, total) * TWO32 <= slice * (ScaledWeights(queue) * InvWeight(total))
  {
    if queue == [] {
    } else {
      var l := QueuedLevel(queue[0], total);
      LevelShift(l);
      CalcDeltaBelowProduct(slice, l.weight, total);
      LevelSlicesBelow(slice, queue[1..], total);
      hide ScaleDown;
      hide InvWeight;
      hide CalcDelta;
      hide LevelOk;
      DistributeShares(slice, ScaleDown(l.weight), ScaledWeights(queue[1..]), InvWeight(total));
    }
  }

  lemma DistributeShares(slice: nat, a: nat, b: nat, inv: nat)
    ensures slice * (a * inv) + slice * (b * inv) == slice * ((a + b) * inv)
  {
    assert (a + b) * inv == a * inv + b * inv;
  }

  /** Of a slice of 2^32 every entity gets exactly its fixed-point share. */
  lemma {:induction false} WholeSlices(queue: seq<Node>, total: nat)
    requires AllQueued(queue, total) && total > 0 && ScaleDown(total) <= TWO32
    ensures LevelSlices(TWO32, queue, total) == ScaledWeights(queue) * InvWeight(total)
  {
    hide LevelOk;
    hide LevelSlice;
    hide InvWeight;
    hide ScaleDown;
    if queue == [] {
    } else {
      WholeSlice(QueuedLevel(queue[0], total));
      WholeSlices(queue[1..], total);
    }
  }

  lemma WholeSlice(l: Level)
    requires LevelOk(l) && ScaleDown(Divisor(l)) <= TWO32
    ensures LevelSlice(TWO32, l) == ScaleDown(l.weight) * InvWeight(Divisor(l))
  {
    LevelShift(l);
    var a, w, inv := ScaleDown(l.weight), ScaleDown(Divisor(l)), InvWeight(Divisor(l));
    InverseBelow(Divisor(l));
    ShiftForPart(l.weight, Divisor(l));
    hide InvWeight;
    hide ScaleDown;
    MulMono(a, w, inv);
    WholeProduct(a, w, inv);
    hide Normalised;
    hide Excess;
    hide MulShr;
  }

  lemma WholeProduct(a: nat, w: nat, inv: nat)
    requires a <= w <= TWO32 && (w < TWO32 ==> inv * w < TWO32) && (w >= TWO32 ==> inv == 1)
    ensures Excess(a) <= 32 && MulShr(TWO32, Normalised(Normalised(a) * inv), 32 - Excess(a)) == a * inv
  {
    if a < TWO32 {
      SmallFactor(a, w, inv);
      hide Normalised;
      hide Excess;
      MulShr32(TWO32, a * inv);
      hide MulShr;
      DivUnique(TWO32 * (a * inv), TWO32, a * inv);
    } else {
      LargestFactor();
    }
  }

  /** A weight that fits 32 bits is not shifted, and neither is its share. */
  lemma SmallFactor(a: nat, w: nat, inv: nat)
    requires a < TWO32 && a <= w <= TWO32 && (w < TWO32 ==> inv * w < TWO32) && (w >= TWO32 ==> inv == 1)
    ensures Excess(a) == 0 && a * inv < TWO32 && Normalised(Normalised(a) * inv) == a * inv
  {
    NormalisedSmall(a);
    MulMono(a, w, inv);
    NormalisedSmall(a * inv);
  }

  lemma LargestFactor()
    ensures Excess(TWO32) == 1 && Normalised(Normalised(TWO32) * 1) == TWO32 / 2
    ensures MulShr(TWO32, TWO32 / 2, 31) == TWO32
  {
    assert Pow2(1) == 2 && Pow2(0) == 1;
    FloorLogUnique(1, 0);
    assert Normalised(TWO32) == TWO32 / 2;
    NormalisedSmall(TWO32 / 2);
    Pow2At32();
    assert Pow2(31) == TWO32 / 2;
    DivUnique(TWO32 * (TWO32 / 2), TWO32 / 2, TWO32);
  }

  /** Every group of the hierarchy has a queue with something in it, whose shares fit. */
  predicate FairBelow(queue: seq<Node>) {
    forall e :: e in queue && e.Group? ==> TotalFits(e.queue) && SharesFit(e.queue) && FairBelow(e.queue)
  }

  /** The slices of all tasks below one entity, whose levels above it are known. */
  ghost function EntitySlices(period: nat, e: Node, total: nat, above: seq<Level>): nat
    requires PathOk(above) && LevelOk(QueuedLevel(e, total))
    requires e.Group? ==> TotalFits(e.queue) && FairBelow(e.queue)
    decreases e, 1
  {
    var path := [QueuedLevel(e, total)] + above;
    match e
    case Task(_) => SliceAlong(period, path)
    case Group(_, queue) => QueueIsQueued(queue); QueueSlices(period, queue, QueueWeight(queue), path)
  }

  /** The slices of all tasks below the entities of a queue (or its tail) of this total weight. */
  ghost function QueueSlices(period: nat, queue: seq<Node>, total: nat, above: seq<Level>): nat
    requires PathOk(above) && AllQueued(queue, total) && FairBelow(queue)
    decreases queue, 0
  {
    if queue == [] then 0
    else EntitySlices(period, queue[0], total, above) + QueueSlices(period, queue[1..], total, above)
  }

  /** All tasks below one entity together get at most what the entity would get as a task. */
  lemma {:induction false} EntityShare(period: nat, e: Node, total: nat, above: seq<Level>)
    requires PathOk(above) && Narrow(above) && LevelOk(QueuedLevel(e, total)) && ScaleDown(total) <= TWO32
    requires e.Group? ==> TotalFits(e.queue) && SharesFit(e.queue) && FairBelow(e.queue)
    requires period < TWO64
    ensures EntitySlices(period, e, total, above) <= SliceAlong(LevelSlice(period, QueuedLevel(e, total)), above)
    decreases e, 1
  {
    hide ScaleDown;
    hide LevelOk;
    hide LevelSlice;
    hide QueueSlices;
    var path := [QueuedLevel(e, total)] + above;
    assert path[1..] == above;
    match e {
      case Task(_) =>
      case Group(_, queue) => QueueShare(period, queue, path);
    }
  }

  /** All tasks below a queue together get at most what one task in its place would get. */
  lemma {:induction false} QueueShare(period: nat, queue: seq<Node>, above: seq<Level>)
    requires PathOk(above) && Narrow(above) && TotalFits(queue) && SharesFit(queue) && FairBelow(queue)
    requires period < TWO64
    ensures AllQueued(queue, QueueWeight(queue))
    ensures QueueSlices(period, queue, QueueWeight(queue), above) <= SliceAlong(period, above)
    decreases queue, 1
  {
    QueueIsQueued(queue);
    NeverOverrunsIff(queue);
    hide SharesFit;
    hide ScaleDown;
    var w := QueueWeight(queue);
    var part := LevelSlices(period, queue, w);
    TailShare(period, queue, w, above);
    SliceAlongAdds(part, period - part, above);
  }

  lemma {:induction false} TailShare(period: nat, queue: seq<Node>, total: nat, above: seq<Level>)
    requires PathOk(above) && Narrow(above) && AllQueued(queue, total) && FairBelow(queue) && ScaleDown(total) <= TWO32
    requires period < TWO64 && LevelSlices(period, queue, total) < TWO64
    ensures QueueSlices(period, queue, total, above) <= SliceAlong(LevelSlices(period, queue, total), above)
    decreases queue, 0
  {
    hide ScaleDown;
    hide LevelOk;
    hide LevelSlice;
    hide EntitySlices;
    if queue == [] {
    } else {
      var e := queue[0];
      EntityShare(period, e, total, above);
      TailShare(period, queue[1..], total, above);
      SliceAlongAdds(LevelSlice(period, QueuedLevel(e, total)), LevelSlices(period, queue[1..], total), above);
    }
  }

  /**
   * The slices of all tasks of a runqueue, through any group hierarchy, sum to at most the
   * scheduling period when the shares of every queue fit and the minimum-granularity floor
   * is off.
   */
  lemma SlicesFitPeriod(period: nat, queue: seq<Node>)
    requires (queue == [] || TotalFits(queue)) && SharesFit(queue) && FairBelow(queue) && period < TWO64
    ensures AllQueued(queue, QueueWeight(queue))
    ensures QueueSlices(period, queue, QueueWeight(queue), []) <= period
  {
    if queue != [] {
      QueueShare(period, queue, []);
    }
  }

  /** From a raw weight of 2048 on, scaling down is a plain shift, so the shares fit. */
  predicate Heavy(queue: seq<Node>) {
    forall e :: e in queue ==> e.weight >= 2048 && (e.Group? ==> TotalFits(e.queue) && Heavy(e.queue))
  }

  lemma {:induction false} HeavyWeightsFit(queue: seq<Node>)
    requires Heavy(queue)
    ensures 1024 * ScaledWeights(queue) <= QueueWeight(queue)
    ensures ScaledWeights(queue) <= ScaleDown(QueueWeight(queue))
  {
    if queue == [] {
    } else {
      assert queue[0] in queue;
      HeavyWeightsFit(queue[1..]);
    }
  }

  /** Scaled weights that add up to no more than the scaled total have shares that fit. */
  lemma WeightsFitShares(queue: seq<Node>)
    requires TotalFits(queue) && ScaledWeights(queue) <= ScaleDown(QueueWeight(queue))
    ensures SharesFit(queue)
  {
    InverseBelow(QueueWeight(queue));
    MulMono(ScaledWeights(queue), ScaleDown(QueueWeight(queue)), InvWeight(QueueWeight(queue)));
  }

  /** Hierarchies of entities that weigh at least 2048 meet the condition at every level. */
  lemma {:induction false} HeavyFits(queue: seq<Node>)
    requires Heavy(queue) && TotalFits(queue)
    ensures SharesFit(queue) && FairBelow(queue)
  {
    HeavyWeightsFit(queue);
    WeightsFitShares(queue);
    forall e | e in queue && e.Group?
      ensures SharesFit(e.queue) && FairBelow(e.queue)
    {
      HeavyFits(e.queue);
    }
  }

  /** A single entity meets it whatever its weight. */
  lemma SingleEntityFits(e: Node)
    requires TotalFits([e])
    ensures SharesFit([e])
  {
    assert [e][1..] == [];
    WeightsFitShares([e]);
  }

  /** Two groups of weight 1024 with a task of the least weight each. */
  const LIGHT_GROUPS: seq<Node> := [Group(1024, [Task(3072)]), Group(1024, [Task(3072)])]

  /** A weight that fits 32 bits gets its fixed-point share of a slice, truncated. */
  lemma SmallSlice(slice: nat, l: Level)
    requires LevelOk(l) && ScaleDown(l.weight) < TWO32 && ScaleDown(Divisor(l)) <= TWO32 && slice < TWO64
    ensures LevelSlice(slice, l) == slice * (ScaleDown(l.weight) * InvWeight(Divisor(l))) / TWO32
  {
    LevelShift(l);
    var a, w, inv := ScaleDown(l.weight), ScaleDown(Divisor(l)), InvWeight(Divisor(l));
    InverseBelow(Divisor(l));
    ShiftForPart(l.weight, Divisor(l));
    SmallFactor(a, w, inv);
    hide InvWeight;
    hide ScaleDown;
    hide Normalised;
    hide Excess;
    MulShr32(slice, a * inv);
    hide MulShr;
  }

  /** One task in a queue of its own loses a nanosecond to the truncation. */
  lemma LoneSlice()
    ensures LevelOk(Level(3072, 3072, true)) && LevelSlice(1000000, Level(3072, 3072, true)) == 999999
  {
    assert ScaleDown(3072) == 3 && InvWeight(3072) == 1431655765;
    hide ScaleDown;
    hide InvWeight;
    hide LevelSlice;
    SmallSlice(1000000, Level(3072, 3072, true));
  }

  /** A group of weight 1024 in a queue of 2048 loses no more, instead of half. */
  lemma LightSlice()
    ensures LevelOk(Level(1024, 2048, true)) && LevelSlice(999999, Level(1024, 2048, true)) == 999998
  {
    assert ScaleDown(1024) == 2 && ScaleDown(2048) == 2 && InvWeight(2048) == 2147483647;
    hide ScaleDown;
    hide InvWeight;
    hide LevelSlice;
    SmallSlice(999999, Level(1024, 2048, true));
  }

  /** Their shares do not fit, and they get nearly the whole period each. */
  lemma LightGroupsOverrun()
    ensures TotalFits(LIGHT_GROUPS) && FairBelow(LIGHT_GROUPS) && !SharesFit(LIGHT_GROUPS)
    ensures AllQueued(LIGHT_GROUPS, QueueWeight(LIGHT_GROUPS))
    ensures QueueSlices(1000000, LIGHT_GROUPS, QueueWeight(LIGHT_GROUPS), []) == 2 * 999998
  {
    LightGroupsSized();
    QueueIsQueued(LIGHT_GROUPS);
    hide SharesFit;
    hide FairBelow;
    LightGroup();
    assert LIGHT_GROUPS[1..] == [LIGHT_GROUPS[0]] && LIGHT_GROUPS[1..][1..] == [];
    hide EntitySlices;
    hide AllQueued;
    assert QueueSlices(1000000, LIGHT_GROUPS[1..], 2048, []) == 999998;
  }

  lemma LightGroupsSized()
    ensures QueueWeight([Task(3072)]) == 3072 && TotalFits([Task(3072)]) && SharesFit([Task(3072)])
    ensures QueueWeight(LIGHT_GROUPS) == 2048 && TotalFits(LIGHT_GROUPS) && !SharesFit(LIGHT_GROUPS)
    ensures FairBelow(LIGHT_GROUPS)
  {
    assert [Task(3072)][1..] == [];
    SingleEntityFits(Task(3072));
    assert LIGHT_GROUPS[1..] == [LIGHT_GROUPS[0]] && LIGHT_GROUPS[1..][1..] == [];
    assert ScaleDown(1024) == 2 && ScaleDown(2048) == 2 && InvWeight(2048) == 2147483647;
    assert ScaledWeights(LIGHT_GROUPS[1..]) == 2;
  }

  lemma LightGroup()
    ensures LevelOk(QueuedLevel(LIGHT_GROUPS[0], 2048))
    ensures TotalFits(LIGHT_GROUPS[0].queue) && FairBelow(LIGHT_GROUPS[0].queue)
    ensures EntitySlices(1000000, LIGHT_GROUPS[0], 2048, []) == 999998
  {
    LightGroupsSized();
    LoneSlice();
    LightSlice();
    assert LIGHT_GROUPS[0] == Group(1024, [Task(3072)]);
    hide *;
    GroupOfOne(1000000, 1024, 2048, 3072, 999999, 999998);
  }

  /** The walk of the only task of a group goes through two levels. */
  lemma GroupOfOne(period: nat, weight: nat, total: nat, taskWeight: nat, inner: nat, outer: nat)
    requires LevelOk(Level(weight, total, true)) && LevelOk(Level(taskWeight, taskWeight, true))
    requires LevelSlice(period, Level(taskWeight, taskWeight, true)) == inner
    requires LevelSlice(inner, Level(weight, total, true)) == outer
    requires TotalFits([Task(taskWeight)]) && QueueWeight([Task(taskWeight)]) == taskWeight
    ensures LevelOk(QueuedLevel(Group(weight, [Task(taskWeight)]), total))
    ensures FairBelow([Task(taskWeight)])
    ensures EntitySlices(period, Group(weight, [Task(taskWeight)]), total, []) == outer
  {
    hide LevelOk;
    hide LevelSlice;
    hide TotalFits;
    hide QueueWeight;
    var task, group := Task(taskWeight), Level(weight, total, true);
    QueueIsQueued([task]);
    assert [group] + [] == [group] && [task][1..] == [];
    var path := [Level(taskWeight, taskWeight, true)] + [group];
    assert path[1..] == [group] && [group][1..] == [];
    assert SliceAlong(inner, [group]) == outer;
    assert SliceAlong(period, path) == outer;
    hide SliceAlong;
    assert QueueSlices(period, [task], taskWeight, [group]) == EntitySlices(period, task, taskWeight, [group]);
  }
}

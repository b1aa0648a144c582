/** How many stripes a pool can hold: the binary search behind the reported free
    space, and the optimum it computes. */
module StripeCapacity {
  import opened Arithmetic

  /** Sums wrap at this. */
  const U64: nat := U64_MAX + 1

  function Sum(xs: seq<nat>): nat {
    if xs == [] then 0 else Sum(xs[..|xs| - 1]) + xs[|xs| - 1]
  }

  /** The units the disks can give to `t` stripes, at most one per stripe each. */
  function Support(perDisk: seq<nat>, t: nat): nat {
    if perDisk == [] then 0 else Support(perDisk[..|perDisk| - 1], t) + Min(perDisk[|perDisk| - 1], t)
  }

  // ---------------------------------------------------------------------------
  // What the number means
  // ---------------------------------------------------------------------------

  /** The number of stripes of a placement that use disk `d`. */
  ghost function Usage(stripes: seq<set<nat>>, d: nat): nat {
    if stripes == [] then 0
    else Usage(stripes[..|stripes| - 1], d) + (if d in stripes[|stripes| - 1] then 1 else 0)
  }

  /** Each stripe takes `width` distinct disks, and no disk is used beyond its
      capacity. */
  ghost predicate IsPlacement(stripes: seq<set<nat>>, perDisk: seq<nat>, width: nat) {
    && (forall i | 0 <= i < |stripes| :: |stripes[i]| == width)
    && (forall i, d | 0 <= i < |stripes| && d in stripes[i] :: d < |perDisk|)
    && (forall d | 0 <= d < |perDisk| :: Usage(stripes, d) <= perDisk[d])
  }

  ghost predicate Placeable(perDisk: seq<nat>, width: nat, t: nat) {
    exists stripes: seq<set<nat>> :: |stripes| == t && IsPlacement(stripes, perDisk, width)
  }

  // ---------------------------------------------------------------------------
  // Necessity: counting the units twice
  // ---------------------------------------------------------------------------

  ghost function UsageSum(stripes: seq<set<nat>>, n: nat): nat {
    if n == 0 then 0 else UsageSum(stripes, n - 1) + Usage(stripes, n - 1)
  }

  ghost function Below(s: set<nat>, n: nat): set<nat> { set d | d in s && d < n }

  lemma BelowSnoc(s: set<nat>, n: nat)
    ensures |Below(s, n + 1)| == |Below(s, n)| + if n in s then 1 else 0
  {
    if n in s {
      assert Below(s, n + 1) == Below(s, n) + {n};
    } else {
      assert Below(s, n + 1) == Below(s, n);
    }
  }

  lemma {:induction false} UsageSumSnoc(stripes: seq<set<nat>>, row: set<nat>, n: nat)
    ensures UsageSum(stripes + [row], n) == UsageSum(stripes, n) + |Below(row, n)|
  {
    if n == 0 {
      assert Below(row, 0) == {};
    } else {
      UsageSumSnoc(stripes, row, n - 1);
      BelowSnoc(row, n - 1);
      assert (stripes + [row])[..|stripes|] == stripes;
    }
  }

  lemma {:induction false} UsageSumTotal(stripes: seq<set<nat>>, n: nat, width: nat)
    requires forall i | 0 <= i < |stripes| :: |stripes[i]| == width && forall d | d in stripes[i] :: d < n
    ensures UsageSum(stripes, n) == |stripes| * width
  {
    if stripes == [] {
      UsageSumEmpty(n);
    } else {
      var init, row := stripes[..|stripes| - 1], stripes[|stripes| - 1];
      assert stripes == init + [row];
      UsageSumTotal(init, n, width);
      UsageSumSnoc(init, row, n);
      assert Below(row, n) == row;
      assert (|init| + 1) * width == |init| * width + width;
    }
  }

  lemma {:induction false} UsageSumEmpty(n: nat)
    ensures UsageSum([], n) == 0
  {
    if n > 0 { UsageSumEmpty(n - 1); }
  }

  lemma {:induction false} UsageAtMostAll(stripes: seq<set<nat>>, d: nat)
    ensures Usage(stripes, d) <= |stripes|
  {
    if stripes != [] { UsageAtMostAll(stripes[..|stripes| - 1], d); }
  }

  lemma {:induction false} UsageSumSupported(stripes: seq<set<nat>>, perDisk: seq<nat>)
    requires forall d | 0 <= d < |perDisk| :: Usage(stripes, d) <= perDisk[d]
    ensures UsageSum(stripes, |perDisk|) <= Support(perDisk, |stripes|)
  {
    if perDisk != [] {
      var n := |perDisk| - 1;
      UsageSumSupported(stripes, perDisk[..n]);
      UsageAtMostAll(stripes, n);
    }
  }

  lemma PlacementNeedsSupport(stripes: seq<set<nat>>, perDisk: seq<nat>, width: nat)
    requires IsPlacement(stripes, perDisk, width)
    ensures Support(perDisk, |stripes|) >= |stripes| * width
  {
    UsageSumTotal(stripes, |perDisk|, width);
    UsageSumSupported(stripes, perDisk);
  }

  // ---------------------------------------------------------------------------
  // Sufficiency: filling the stripes round after round
  // ---------------------------------------------------------------------------

  lemma {:induction false} UsageUpdate(stripes: seq<set<nat>>, q: nat, d: nat, e: nat)
    requires q < |stripes| && d !in stripes[q]
    ensures Usage(stripes[q := stripes[q] + {d}], e) == Usage(stripes, e) + if e == d then 1 else 0
  {
    var n := |stripes| - 1;
    var updated := stripes[q := stripes[q] + {d}];
    if q < n {
      assert updated[..n] == stripes[..n][q := stripes[..n][q] + {d}];
      UsageUpdate(stripes[..n], q, d, e);
    } else {
      assert updated[..n] == stripes[..n];
    }
  }

  lemma {:induction false} UsageUnused(stripes: seq<set<nat>>, d: nat)
    requires forall i | 0 <= i < |stripes| :: d !in stripes[i]
    ensures Usage(stripes, d) == 0
  {
    if stripes != [] { UsageUnused(stripes[..|stripes| - 1], d); }
  }

  /** The filling pointer is at row `q` of round `round`: rows before it hold one
      unit more. */
  ghost predicate Levelled(rows: seq<set<nat>>, round: nat, q: nat) {
    && q < |rows|
    && forall i | 0 <= i < |rows| :: |rows[i]| == if i < q then round + 1 else round
  }

  /** The last `u` rows filled, cyclically, before row `q` of `t`. */
  ghost predicate InWindow(i: int, q: nat, u: nat, t: nat) {
    if i < q then q - u <= i else t + q - u <= i
  }

  /** Only disks below `n` are used, each within its capacity. */
  ghost predicate Within(rows: seq<set<nat>>, perDisk: seq<nat>, n: nat)
    requires n <= |perDisk|
  {
    && (forall i, d | 0 <= i < |rows| && d in rows[i] :: d < n)
    && (forall d | 0 <= d < n :: Usage(rows, d) <= perDisk[d])
  }

  /** One more unit of disk `n` goes into the row under the pointer. */
  lemma PlaceUnit(rows: seq<set<nat>>, perDisk: seq<nat>, n: nat, round: nat, q: nat, u: nat)
    returns (rows': seq<set<nat>>, round': nat, q': nat)
    requires n < |perDisk| && Levelled(rows, round, q)
    requires forall i, d | 0 <= i < |rows| && d in rows[i] :: d <= n
    requires forall d | 0 <= d < n :: Usage(rows, d) <= perDisk[d]
    requires forall i | 0 <= i < |rows| :: n in rows[i] <==> InWindow(i, q, u, |rows|)
    requires u < |rows| && Usage(rows, n) == u
    ensures |rows'| == |rows| && Levelled(rows', round', q')
    ensures round' * |rows| + q' == round * |rows| + q + 1
    ensures forall i, d | 0 <= i < |rows'| && d in rows'[i] :: d <= n
    ensures forall d | 0 <= d < n :: Usage(rows', d) <= perDisk[d]
    ensures forall i | 0 <= i < |rows'| :: n in rows'[i] <==> InWindow(i, q', u + 1, |rows|)
    ensures Usage(rows', n) == u + 1
  {
    rows' := rows[q := rows[q] + {n}];
    forall e ensures Usage(rows', e) == Usage(rows, e) + if e == n then 1 else 0 {
      UsageUpdate(rows, q, n, e);
    }
    if q + 1 == |rows| {
      round', q' := round + 1, 0;
      assert (round + 1) * |rows| == round * |rows| + |rows|;
    } else {
      round', q' := round, q + 1;
    }
  }

  /** `units` units of disk `n` are placed; a disk gives a stripe at most one. */
  lemma PlaceDisk(rows: seq<set<nat>>, perDisk: seq<nat>, n: nat, round: nat, q: nat, units: nat)
    returns (rows': seq<set<nat>>, round': nat, q': nat)
    requires n < |perDisk| && Levelled(rows, round, q) && Within(rows, perDisk, n)
    requires units <= |rows| && units <= perDisk[n]
    ensures |rows'| == |rows| && Levelled(rows', round', q') && Within(rows', perDisk, n + 1)
    ensures round' * |rows| + q' == round * |rows| + q + units
  {
    rows', round', q' := rows, round, q;
    UsageUnused(rows, n);
    var u := 0;
    while u < units
      invariant 0 <= u <= units && |rows'| == |rows| && Levelled(rows', round', q')
      invariant round' * |rows| + q' == round * |rows| + q + u
      invariant forall i, d | 0 <= i < |rows'| && d in rows'[i] :: d <= n
      invariant forall d | 0 <= d < n :: Usage(rows', d) <= perDisk[d]
      invariant forall i | 0 <= i < |rows'| :: n in rows'[i] <==> InWindow(i, q', u, |rows'|)
      invariant Usage(rows', n) == u
    {
      rows', round', q' := PlaceUnit(rows', perDisk, n, round', q', u);
      u := u + 1;
    }
  }

  /** Disks give what they can until `need` units are placed. */
  lemma {:induction false} PlaceDisks(perDisk: seq<nat>, n: nat, t: nat, need: nat)
    returns (rows: seq<set<nat>>, round: nat, q: nat)
    requires n <= |perDisk| && t > 0
    ensures |rows| == t && Levelled(rows, round, q) && Within(rows, perDisk, n)
    ensures round * t + q == Min(need, Support(perDisk[..n], t))
  {
    if n == 0 {
      rows, round, q := seq(t, i => {}), 0, 0;
    } else {
      rows, round, q := PlaceDisks(perDisk, n - 1, t, need);
      assert perDisk[..n][..n - 1] == perDisk[..n - 1];
      var placed := round * t + q;
      var units := Min(need - placed, Min(perDisk[n - 1], t));
      rows, round, q := PlaceDisk(rows, perDisk, n - 1, round, q, units);
    }
  }

  lemma FullRounds(round: nat, q: nat, t: nat, width: nat)
    requires round * t + q == t * width && q < t
    ensures round == width && q == 0
  {
    assert width * t == t * width;
    assert (round + 1) * t == round * t + t && (width + 1) * t == width * t + t;
    if round < width {
      MulMono(round + 1, width, t);
    } else if round > width {
      MulMono(width + 1, round, t);
    }
  }

  /** Enough support lets the stripes be filled. */
  lemma SupportPlaces(perDisk: seq<nat>, width: nat, t: nat)
    requires Support(perDisk, t) >= t * width
    ensures Placeable(perDisk, width, t)
  {
    if t == 0 {
      var none: seq<set<nat>> := [];
      assert |none| == t && IsPlacement(none, perDisk, width);
    } else {
      var rows, round, q := PlaceDisks(perDisk, |perDisk|, t, t * width);
      assert perDisk[..|perDisk|] == perDisk;
      FullRounds(round, q, t, width);
      assert IsPlacement(rows, perDisk, width);
    }
  }

  /** `t` stripes fit exactly when the disks support that many units. */
  lemma PlaceableIffSupported(perDisk: seq<nat>, width: nat, t: nat)
    ensures Placeable(perDisk, width, t) <==> Support(perDisk, t) >= t * width
  {
    if Placeable(perDisk, width, t) {
      var stripes: seq<set<nat>> :| |stripes| == t && IsPlacement(stripes, perDisk, width);
      PlacementNeedsSupport(stripes, perDisk, width);
    } else if Support(perDisk, t) >= t * width {
      SupportPlaces(perDisk, width, t);
    }
  }

  // ---------------------------------------------------------------------------
  // The search
  // ---------------------------------------------------------------------------

  lemma {:induction false} UsagePrefix(stripes: seq<set<nat>>, d: nat)
    requires stripes != []
    ensures Usage(stripes[..|stripes| - 1], d) <= Usage(stripes, d)
  {
  }

  /** Fewer stripes are no harder to place. */
  lemma PlaceableDown(perDisk: seq<nat>, width: nat, t: nat, u: nat)
    requires u <= t && Placeable(perDisk, width, t)
    ensures Placeable(perDisk, width, u)
    decreases t
  {
    if u < t {
      var stripes: seq<set<nat>> :| |stripes| == t && IsPlacement(stripes, perDisk, width);
      var fewer := stripes[..t - 1];
      forall d | 0 <= d < |perDisk| ensures Usage(fewer, d) <= perDisk[d] { UsagePrefix(stripes, d); }
      assert IsPlacement(fewer, perDisk, width);
      PlaceableDown(perDisk, width, t - 1, u);
    }
  }

  lemma {:induction false} SupportBelowSum(perDisk: seq<nat>, t: nat)
    ensures Support(perDisk, t) <= Sum(perDisk)
  {
    if perDisk != [] { SupportBelowSum(perDisk[..|perDisk| - 1], t); }
  }

  lemma PlaceableBound(perDisk: seq<nat>, width: nat, t: nat)
    requires width > 0 && Placeable(perDisk, width, t)
    ensures t <= Sum(perDisk) / width
  {
    PlaceableIffSupported(perDisk, width, t);
    SupportBelowSum(perDisk, t);
    DivBound(t, width, Sum(perDisk));
  }

  lemma DivBound(t: nat, width: nat, sum: nat)
    requires width > 0 && t * width <= sum
    ensures t <= sum / width
  {
    var d := sum / width;
    assert sum == d * width + sum % width;
    assert (d + 1) * width == d * width + width;
    if t > d {
      MulMono(d + 1, t, width);
    }
  }

  method ComputeSupport(perDisk: seq<nat>, t: nat) returns (support: nat)
    ensures support == Support(perDisk, t)
  {
    support := 0;
    for i := 0 to |perDisk|
      invariant support == Support(perDisk[..i], t)
    {
      assert perDisk[..i + 1][..i] == perDisk[..i];
      support := support + Min(perDisk[i], t);
    }
    assert perDisk[..|perDisk|] == perDisk;
  }

  ghost predicate IsOptimum(perDisk: seq<nat>, width: nat, t: nat) {
    Placeable(perDisk, width, t) && forall u: nat | Placeable(perDisk, width, u) :: u <= t
  }

  /** The bound the search starts from; the sum wraps as in a release build. */
  function SearchBound(perDisk: seq<nat>, width: nat): nat
    requires width > 0
  {
    (Sum(perDisk) % U64) / width
  }

  /** A sum that does not wrap bounds every placeable number of stripes. */
  lemma WithinSearchBound(perDisk: seq<nat>, width: nat, u: nat)
    requires width > 0 && Sum(perDisk) < U64 && Placeable(perDisk, width, u)
    ensures u <= SearchBound(perDisk, width)
  {
    hide Placeable, Sum;
    PlaceableBound(perDisk, width, u);
  }

  /** The result is the largest placeable number of stripes within the starting
      bound; for capacity sums below 2^64 that is the exact optimum. */
  method MaxStripeUnits(perDisk: seq<nat>, width: nat) returns (t: nat)
    ensures width == 0 ==> t == 0
    ensures width > 0 ==> Placeable(perDisk, width, t) && t <= SearchBound(perDisk, width)
    ensures width > 0 ==> forall u: nat | Placeable(perDisk, width, u) && u <= SearchBound(perDisk, width) :: u <= t
    ensures width > 0 && Sum(perDisk) < U64 ==> IsOptimum(perDisk, width, t)
  {
    hide Placeable, Sum, Support, SearchBound;
    if width == 0 || |perDisk| < width {
      if width > 0 {
        NarrowPool(perDisk, width);
      }
      return 0;
    }
    var low := 0;
    var high := SearchBound(perDisk, width);
    PlaceableIffSupported(perDisk, width, 0);
    while low < high
      invariant 0 <= low <= high <= SearchBound(perDisk, width)
      invariant Placeable(perDisk, width, low)
      invariant forall u: nat | Placeable(perDisk, width, u) && u <= SearchBound(perDisk, width) :: u <= high
    {
      var mid := low + (high - low + 1) / 2;
      var support := ComputeSupport(perDisk, mid);
      PlaceableIffSupported(perDisk, width, mid);
      if support >= mid * width {
        low := mid;
      } else {
        forall u: nat | Placeable(perDisk, width, u) && u <= high ensures u <= mid - 1 {
          if u >= mid { PlaceableDown(perDisk, width, u, mid); }
        }
        high := mid - 1;
      }
    }
    t := low;
    if Sum(perDisk) < U64 {
      forall u: nat | Placeable(perDisk, width, u) ensures u <= t {
        WithinSearchBound(perDisk, width, u);
      }
    }
  }

  lemma {:induction false} SupportFewDisks(perDisk: seq<nat>, t: nat)
    ensures Support(perDisk, t) <= |perDisk| * t
  {
    if perDisk != [] {
      SupportFewDisks(perDisk[..|perDisk| - 1], t);
      assert |perDisk| * t == (|perDisk| - 1) * t + t;
    }
  }

  /** A pool with fewer disks than the stripe is wide holds no stripe. */
  lemma NarrowPool(perDisk: seq<nat>, width: nat)
    requires |perDisk| < width
    ensures Placeable(perDisk, width, 0)
    ensures forall u: nat | Placeable(perDisk, width, u) :: u == 0
  {
    PlaceableIffSupported(perDisk, width, 0);
    forall u: nat | Placeable(perDisk, width, u) ensures u == 0 {
      PlaceableIffSupported(perDisk, width, u);
      SupportFewDisks(perDisk, u);
      MulMono(|perDisk| + 1, width, u);
      assert (|perDisk| + 1) * u == |perDisk| * u + u;
      assert width * u == u * width;
    }
  }

  /** Whatever the sum, a result as the search returns it is the optimum exactly
      when no placeable number of stripes lies beyond the starting bound. */
  lemma OptimalIffBoundReached(perDisk: seq<nat>, width: nat, t: nat)
    requires width > 0 && Placeable(perDisk, width, t) && t <= SearchBound(perDisk, width)
    requires forall u: nat | Placeable(perDisk, width, u) && u <= SearchBound(perDisk, width) :: u <= t
    ensures IsOptimum(perDisk, width, t) <==> !Placeable(perDisk, width, SearchBound(perDisk, width) + 1)
  {
    var bound := SearchBound(perDisk, width);
    if !Placeable(perDisk, width, bound + 1) {
      forall u: nat | Placeable(perDisk, width, u) ensures u <= t {
        if u > bound { PlaceableDown(perDisk, width, u, bound + 1); }
      }
    }
  }

  /** The bound does bite when the sum wraps: two disks of 2^63 units each. */
  lemma WrappedSumMissesOptimum()
    ensures SearchBound([U64 / 2, U64 / 2], 1) == 0
    ensures Placeable([U64 / 2, U64 / 2], 1, 1)
  {
    var caps := [U64 / 2, U64 / 2];
    var first := caps[..1];
    assert first == [U64 / 2] && first[..0] == [];
    assert Sum(first[..0]) == 0 && Support(first[..0], 1) == 0;
    assert Sum(first) == U64 / 2 && Support(first, 1) == Support(first[..0], 1) + Min(U64 / 2, 1);
    PlaceableIffSupported(caps, 1, 1);
  }
}

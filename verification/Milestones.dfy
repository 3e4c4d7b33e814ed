/** Progress milestones of the generated update scripts: running totals of weighted
    file sizes scaled to a progress range and rounded down. Floating point is
    idealised as real arithmetic. */
module Milestones {

  /** Sum of the first k weights. */
  function SumTo(s: seq<real>, k: nat): real
    requires k <= |s|
  {
    if k == 0 then 0.0 else SumTo(s, k - 1) + s[k - 1]
  }

  function Sum(s: seq<real>): real {
    SumTo(s, |s|)
  }

  predicate NonNegative(s: seq<real>) {
    forall i :: 0 <= i < |s| ==> s[i] >= 0.0
  }

  /** The running total after k parts, each adding its share of `total` times `span`. */
  function Reached(parts: seq<real>, total: real, k: nat, from: real, span: real): real
    requires k <= |parts| && total > 0.0
  {
    if k == 0 then from else Reached(parts, total, k - 1, from, span) + parts[k - 1] / total * span
  }

  function FloorAt(parts: seq<real>, total: real, k: nat, from: real, span: real): int
    requires k <= |parts| && total > 0.0
  {
    Reached(parts, total, k, from, span).Floor
  }

  // ----- the generators

  /** The accumulation loop: running total and its floor after every part. */
  method Accumulate(parts: seq<real>, total: real, from: real, span: real) returns (progress: real, list: seq<int>)
    requires total > 0.0
    ensures |list| == |parts| && progress == Reached(parts, total, |parts|, from, span)
    ensures forall i :: 0 <= i < |list| ==> list[i] == FloorAt(parts, total, i + 1, from, span)
  {
    progress, list := from, [];
    var i := 0;
    while i < |parts|
      invariant i <= |parts| && |list| == i
      invariant progress == Reached(parts, total, i, from, span)
      invariant forall k :: 0 <= k < i ==> list[k] == FloorAt(parts, total, k + 1, from, span)
    {
      progress := progress + parts[i] / total * span;
      list := list + [progress.Floor];
      i := i + 1;
    }
  }

  /** `list` holds the milestones of a package: floors of the running total from 30
      towards the maximum, the last one replaced by the maximum. */
  predicate IsMilestones(sizes: seq<real>, max: int, list: seq<int>)
    requires Sum(sizes) > 0.0
  {
    && |list| == |sizes|
    && (forall i :: 0 <= i < |list| - 1 ==> list[i] == FloorAt(sizes, Sum(sizes), i + 1, 30.0, (max - 30) as real))
    && (list != [] ==> list[|list| - 1] == max)
  }

  /** The list of `gen_full_sh`. An empty package or one of total weight zero raises an
      exception there. */
  method GenMilestones(sizes: seq<real>, endProgress: int) returns (list: seq<int>)
    requires |sizes| > 0 && Sum(sizes) > 0.0
    ensures IsMilestones(sizes, 100 - endProgress, list)
  {
    var maxProgress := 100 - endProgress;
    var progress;
    progress, list := Accumulate(sizes, Sum(sizes), 30.0, (maxProgress - 30) as real);
    list := list[|list| - 1 := maxProgress];
  }

  /** With new partitions the total goes on from where the patches end, by shares of a
      second range among all new images, the patched ones included. */
  predicate IsDiffMilestones(patches: seq<real>, added: seq<real>, total: real, max: int, list: seq<int>)
    requires Sum(patches) > 0.0 && (added != [] ==> total > 0.0)
  {
    var n := |patches|;
    var base := Reached(patches, Sum(patches), n, 30.0, (max - 30) as real);
    && |list| == n + |added|
    && (forall i :: 0 <= i < n && i < |list| - 1 ==>
          list[i] == FloorAt(patches, Sum(patches), i + 1, 30.0, (max - 30) as real))
    && (forall p :: n <= p < |list| - 1 ==> list[p] == FloorAt(added, total, p - n + 1, base, (max - 70) as real))
    && (list != [] ==> list[|list| - 1] == max)
  }

  /** Without new partitions the list is that of a full package of the patches. */
  lemma NoNewPartitions(patches: seq<real>, total: real, max: int, list: seq<int>)
    requires Sum(patches) > 0.0
    ensures IsDiffMilestones(patches, [], total, max, list) <==> IsMilestones(patches, max, list)
  {
  }

  /** The list of `gen_diff_ota_sh`: `patched` are the weights of the new images that are
      patched in, `added` those of the new partitions. */
  method GenDiffMilestones(patches: seq<real>, patched: seq<real>, added: seq<real>, endProgress: int)
    returns (list: seq<int>)
    requires |patches| > 0 && |patched| == |patches|
    requires Sum(patches) > 0.0 && (added != [] ==> Sum(patched + added) > 0.0)
    ensures IsDiffMilestones(patches, added, Sum(patched + added), 100 - endProgress, list)
  {
    var maxProgress := 100 - endProgress;
    var progress;
    progress, list := Accumulate(patches, Sum(patches), 30.0, (maxProgress - 30) as real);
    if added != [] {
      var more;
      progress, more := Accumulate(added, Sum(patched + added), progress, (maxProgress - 70) as real);
      list := list + more;
    }
    list := list[|list| - 1 := maxProgress];
  }

  // ----- bounds

  lemma SumQuotient(a: real, b: real, t: real, span: real)
    requires t > 0.0
    ensures (a + b) / t * span == a / t * span + b / t * span
  {
    var x, y, z := a / t, b / t, (a + b) / t;
    assert x * t == a && y * t == b && z * t == a + b;
    assert (z - x - y) * t == 0.0;
    assert (x + y) * span == x * span + y * span;
  }

  /** In closed form: the start plus the share of the parts so far. */
  lemma {:induction false} ReachedIs(parts: seq<real>, total: real, k: nat, from: real, span: real)
    requires k <= |parts| && total > 0.0
    ensures Reached(parts, total, k, from, span) == from + SumTo(parts, k) / total * span
  {
    if k > 0 {
      ReachedIs(parts, total, k - 1, from, span);
      SumQuotient(SumTo(parts, k - 1), parts[k - 1], total, span);
    }
  }

  lemma Step(a: real, total: real, span: real)
    requires a >= 0.0 && total > 0.0 && span >= 0.0
    ensures a / total * span >= 0.0
  {
    assert a / total >= 0.0;
  }

  lemma {:induction false} ReachedRises(parts: seq<real>, total: real, j: nat, k: nat, from: real, span: real)
    requires NonNegative(parts) && total > 0.0 && j <= k <= |parts| && span >= 0.0
    ensures Reached(parts, total, j, from, span) <= Reached(parts, total, k, from, span)
    decreases k
  {
    if j < k {
      ReachedRises(parts, total, j, k - 1, from, span);
      Step(parts[k - 1], total, span);
    }
  }

  lemma ReachedEnds(parts: seq<real>, from: real, span: real)
    requires Sum(parts) > 0.0
    ensures Reached(parts, Sum(parts), |parts|, from, span) == from + span
  {
    ReachedIs(parts, Sum(parts), |parts|, from, span);
    assert Sum(parts) / Sum(parts) == 1.0;
  }

  /** Every milestone but the last is 30 and the part's share of the range so far, rounded
      down; the shares of new partitions are of the weight of all new images, on top of the
      maximum. */
  lemma MilestoneShares(patches: seq<real>, added: seq<real>, total: real, max: int, list: seq<int>, i: nat)
    requires Sum(patches) > 0.0 && (added != [] ==> total > 0.0) && IsDiffMilestones(patches, added, total, max, list)
    requires i < |list| - 1
    ensures var n := |patches|;
            var share := if i < n then 30.0 + SumTo(patches, i + 1) / Sum(patches) * (max - 30) as real
                         else max as real + SumTo(added, i + 1 - n) / total * (max - 70) as real;
            list[i] as real <= share < list[i] as real + 1.0
  {
    hide SumTo;
    var n := |patches|;
    if i < n {
      ReachedIs(patches, Sum(patches), i + 1, 30.0, (max - 30) as real);
    } else {
      ReachedEnds(patches, 30.0, (max - 30) as real);
      ReachedIs(added, total, i + 1 - n, max as real, (max - 70) as real);
    }
  }

  predicate Rising(list: seq<int>) {
    forall i, j :: 0 <= i < j < |list| ==> list[i] <= list[j]
  }

  predicate InRange(list: seq<int>, lo: int, hi: int) {
    forall i :: 0 <= i < |list| ==> lo <= list[i] <= hi
  }

  lemma FloorMonotone(a: real, b: real)
    requires a <= b
    ensures a.Floor <= b.Floor
  {
  }

  lemma PatchFloors(sizes: seq<real>, max: int, i: nat, j: nat)
    requires NonNegative(sizes) && Sum(sizes) > 0.0 && i <= j <= |sizes| && max >= 30
    ensures var span := (max - 30) as real;
            30 <= FloorAt(sizes, Sum(sizes), i, 30.0, span) <= FloorAt(sizes, Sum(sizes), j, 30.0, span) <= max
    ensures FloorAt(sizes, Sum(sizes), |sizes|, 30.0, (max - 30) as real) == max
  {
    var span := (max - 30) as real;
    ReachedRises(sizes, Sum(sizes), 0, i, 30.0, span);
    ReachedRises(sizes, Sum(sizes), i, j, 30.0, span);
    ReachedRises(sizes, Sum(sizes), j, |sizes|, 30.0, span);
    ReachedEnds(sizes, 30.0, span);
    FloorMonotone(30.0, Reached(sizes, Sum(sizes), i, 30.0, span));
    FloorMonotone(Reached(sizes, Sum(sizes), i, 30.0, span), Reached(sizes, Sum(sizes), j, 30.0, span));
    FloorMonotone(Reached(sizes, Sum(sizes), j, 30.0, span), max as real);
  }

  /** The milestones rise from at least 30 to exactly the maximum, within 30..100, if
      and only if the share kept for the user's end script is between 0 and 70. */
  lemma MilestonesRise(sizes: seq<real>, endProgress: int, list: seq<int>)
    requires |sizes| > 0 && NonNegative(sizes) && Sum(sizes) > 0.0
    requires IsMilestones(sizes, 100 - endProgress, list)
    ensures list[|list| - 1] == 100 - endProgress
    ensures Rising(list) && InRange(list, 30, 100) <==> 0 <= endProgress <= 70
  {
    var max := 100 - endProgress;
    if 0 <= endProgress <= 70 {
      forall i, j | 0 <= i <= j < |list|
        ensures 30 <= list[i] <= list[j] <= max
      {
        PatchFloors(sizes, max, i + 1, j + 1);
      }
    }
  }

  // ----- differential packages that bring new partitions

  lemma {:induction false} ReachedFalls(parts: seq<real>, total: real, j: nat, k: nat, from: real, span: real)
    requires NonNegative(parts) && total > 0.0 && j <= k <= |parts| && span <= 0.0
    ensures Reached(parts, total, k, from, span) <= Reached(parts, total, j, from, span)
    decreases k
  {
    if j < k {
      ReachedFalls(parts, total, j, k - 1, from, span);
      Step(parts[k - 1], total, -span);
      assert parts[k - 1] / total * -span == -(parts[k - 1] / total * span);
    }
  }

  /** Where the running total stands before the last new partition is counted. */
  function BeforeLast(added: seq<real>, total: real, max: int): real
    requires added != [] && total > 0.0
  {
    Reached(added, total, |added| - 1, max as real, (max - 70) as real)
  }

  /** The weight of all new partitions but the last, times the span of their range. */
  function RestTimesSpan(added: seq<real>, max: int): real
    requires added != []
  {
    SumTo(added, |added| - 1) * (max - 70) as real
  }

  /** Being within one step above the maximum, in terms of the weights. */
  lemma BeforeLastIs(added: seq<real>, total: real, max: int)
    requires added != [] && total > 0.0
    ensures max as real <= BeforeLast(added, total, max) < max as real + 1.0 <==>
              0.0 <= RestTimesSpan(added, max) < total
  {
    var rest, span := SumTo(added, |added| - 1), (max - 70) as real;
    ShareWithin(rest, total, span);
    FromShare(added, total, max as real, span, rest / total * span);
  }

  lemma FromShare(added: seq<real>, total: real, from: real, span: real, share: real)
    requires added != [] && total > 0.0 && share == SumTo(added, |added| - 1) / total * span
    ensures Reached(added, total, |added| - 1, from, span) == from + share
  {
    hide Reached, SumTo;
    ReachedIs(added, total, |added| - 1, from, span);
  }

  lemma ShareWithin(s: real, total: real, span: real)
    requires total > 0.0
    ensures 0.0 <= s / total * span < 1.0 <==> 0.0 <= s * span < total
  {
    assert s / total * total == s;
    Swap(s / total, span, total);
    Within(s / total * span, total, s * span);
  }

  lemma Within(q: real, total: real, product: real)
    requires total > 0.0 && q * total == product
    ensures 0.0 <= q < 1.0 <==> 0.0 <= product < total
  {
    SignOfProduct(q, total);
    SignOfProduct(1.0 - q, total);
    assert (1.0 - q) * total == total - product;
  }

  lemma Swap(a: real, b: real, c: real)
    ensures a * b * c == a * c * b
  {
    assert b * c == c * b;
    assert a * b * c == a * (b * c);
    assert a * c * b == a * (c * b);
  }

  lemma SignOfProduct(q: real, t: real)
    requires t > 0.0
    ensures (q * t >= 0.0 <==> q >= 0.0) && (q * t > 0.0 <==> q > 0.0)
  {
    if q < 0.0 {
      assert (0.0 - q) * t > 0.0;
    }
  }

  lemma {:induction false} SumNonNegative(s: seq<real>, k: nat)
    requires NonNegative(s) && k <= |s|
    ensures SumTo(s, k) >= 0.0
  {
    if k > 0 {
      SumNonNegative(s, k - 1);
    }
  }

  /** With new partitions the list rises within 30..100 if and only if the share kept for
      the end script is between 0 and 70, and the weights of all new partitions but the last,
      times the span of the second range, are below the weight of all new images, and not
      negative. The latter is so with a single new partition; with more, the maximum must not
      be below 70 and their share small. */
  lemma NewPartitionsOvershoot(patches: seq<real>, patched: seq<real>, added: seq<real>, endProgress: int,
                               list: seq<int>)
    requires patches != [] && added != [] && NonNegative(patches) && NonNegative(added)
    requires Sum(patches) > 0.0 && Sum(patched + added) > 0.0
    requires IsDiffMilestones(patches, added, Sum(patched + added), 100 - endProgress, list)
    ensures Rising(list) && InRange(list, 30, 100) <==>
              0 <= endProgress <= 70 && 0.0 <= RestTimesSpan(added, 100 - endProgress) < Sum(patched + added)
    ensures Rising(list) && InRange(list, 30, 100) ==> InRange(list, 30, 100 - endProgress)
    ensures |added| == 1 ==> (Rising(list) && InRange(list, 30, 100) <==> 0 <= endProgress <= 70)
    ensures Rising(list) && InRange(list, 30, 100) && SumTo(added, |added| - 1) > 0.0 ==> 100 - endProgress >= 70
  {
    var total, max := Sum(patched + added), 100 - endProgress;
    hide SumTo, Sum, BeforeLast, RestTimesSpan, IsDiffMilestones;
    EndsOnMaximum(patches, added, total, max, list);
    if 30 <= max <= 100 {
      RisesIfWithin(patches, added, total, max, list);
      BeforeLastIs(added, total, max);
    }
    SumNonNegative(added, |added| - 1);
    if |added| == 1 {
      NothingBefore(added, max);
    } else if SumTo(added, |added| - 1) > 0.0 && RestTimesSpan(added, max) >= 0.0 {
      SpanSign(added, max);
    }
  }

  lemma EndsOnMaximum(patches: seq<real>, added: seq<real>, total: real, max: int, list: seq<int>)
    requires patches != [] && added != [] && Sum(patches) > 0.0 && total > 0.0
    requires IsDiffMilestones(patches, added, total, max, list)
    ensures |list| > 0 && list[|list| - 1] == max
    ensures Rising(list) && InRange(list, 30, 100) <==> max <= 100 && Rising(list) && InRange(list, 30, max)
  {
    var last := |list| - 1;
    assert forall i :: 0 <= i < last ==> Rising(list) ==> list[i] <= list[last];
  }

  lemma NothingBefore(added: seq<real>, max: int)
    requires |added| == 1
    ensures SumTo(added, |added| - 1) == 0.0 == RestTimesSpan(added, max)
  {
  }

  lemma SpanSign(added: seq<real>, max: int)
    requires added != [] && SumTo(added, |added| - 1) > 0.0 && RestTimesSpan(added, max) >= 0.0
    ensures max >= 70
  {
    hide SumTo;
    SignOfProduct((max - 70) as real, SumTo(added, |added| - 1));
  }

  lemma RisesIfWithin(patches: seq<real>, added: seq<real>, total: real, max: int, list: seq<int>)
    requires patches != [] && added != [] && NonNegative(patches) && NonNegative(added) && 30 <= max <= 100
    requires Sum(patches) > 0.0 && total > 0.0 && IsDiffMilestones(patches, added, total, max, list)
    ensures Rising(list) && InRange(list, 30, max) <==>
              max as real <= BeforeLast(added, total, max) < max as real + 1.0
  {
    var n, m := |patches|, |list|;
    var before := BeforeLast(added, total, max);
    PatchFloors(patches, max, n, n);
    ReachedEnds(patches, 30.0, (max - 30) as real);
    assert list[n - 1] == max;
    if max as real <= before < max as real + 1.0 {
      WithinBefore(patches, added, total, max, list);
    } else {
      assert |added| > 1;
      assert list[m - 2] == before.Floor;
      if before < max as real {
        assert list[m - 2] < list[n - 1];
      } else {
        assert list[m - 2] > max;
      }
    }
  }

  lemma WithinBefore(patches: seq<real>, added: seq<real>, total: real, max: int, list: seq<int>)
    requires patches != [] && added != [] && NonNegative(patches) && NonNegative(added) && 30 <= max <= 100
    requires Sum(patches) > 0.0 && total > 0.0 && IsDiffMilestones(patches, added, total, max, list)
    requires max as real <= BeforeLast(added, total, max) < max as real + 1.0
    ensures Rising(list) && InRange(list, 30, max)
  {
    var n, m := |patches|, |list|;
    ReachedEnds(patches, 30.0, (max - 30) as real);
    forall p | n <= p < m
      ensures list[p] == max
    {
      AddedFloor(added, total, max, p - n + 1);
    }
    forall i, j | 0 <= i <= j < n
      ensures 30 <= list[i] <= list[j] <= max
    {
      PatchFloors(patches, max, i + 1, j + 1);
    }
  }

  lemma AddedFloor(added: seq<real>, total: real, max: int, k: nat)
    requires NonNegative(added) && total > 0.0 && 1 <= k <= |added|
    requires max as real <= BeforeLast(added, total, max) < max as real + 1.0
    ensures k < |added| ==> FloorAt(added, total, k, max as real, (max - 70) as real) == max
  {
    if k < |added| {
      var span := (max - 70) as real;
      if max >= 70 {
        ReachedRises(added, total, 0, k, max as real, span);
        ReachedRises(added, total, k, |added| - 1, max as real, span);
      } else {
        ReachedFalls(added, total, 0, k, max as real, span);
        ReachedFalls(added, total, k, |added| - 1, max as real, span);
      }
    }
  }

  // ----- the first new partition

  /** Of a list with new partitions that rises to its maximum, the first new milestone equals
      the first of all exactly when the first patch has all the weight of the patches, or the
      patches have no range of their own. */
  lemma FirstNewIsFirst(patches: seq<real>, added: seq<real>, total: real, max: int, list: seq<int>)
    requires patches != [] && added != [] && NonNegative(patches) && Sum(patches) > 0.0 && total > 0.0
    requires IsDiffMilestones(patches, added, total, max, list) && 30 <= max
    requires Rising(list) && InRange(list, 30, max)
    ensures list[|patches|] == list[0] <==> max == 30 || patches[0] == Sum(patches)
  {
    var n, span := |patches|, (max - 30) as real;
    ReachedEnds(patches, 30.0, span);
    assert list[n - 1] == max;
    assert list[n - 1] <= list[n] <= max;
    FirstWeight(patches);
    ReachedIs(patches, Sum(patches), 1, 30.0, span);
    ShareIsAll(patches[0], Sum(patches), span);
    assert list[0] == Reached(patches, Sum(patches), 1, 30.0, span).Floor;
  }

  lemma {:induction false} SumRises(s: seq<real>, j: nat, k: nat)
    requires NonNegative(s) && j <= k <= |s|
    ensures SumTo(s, j) <= SumTo(s, k)
    decreases k
  {
    if j < k {
      SumRises(s, j, k - 1);
    }
  }

  lemma FirstWeight(s: seq<real>)
    requires s != [] && NonNegative(s)
    ensures SumTo(s, 1) == s[0] && 0.0 <= s[0] <= Sum(s)
  {
    assert SumTo(s, 0) == 0.0;
    SumRises(s, 1, |s|);
  }

  lemma ShareIsAll(p: real, total: real, span: real)
    requires 0.0 <= p <= total && total > 0.0 && span >= 0.0
    ensures p / total * span <= span
    ensures p / total * span == span <==> span == 0.0 || p == total
  {
    var q := p / total;
    assert q * total == p;
    SignOfProduct(1.0 - q, total);
    assert (1.0 - q) * total == total - p;
    if span > 0.0 {
      SignOfProduct(1.0 - q, span);
      assert (1.0 - q) * span == span - q * span;
    }
  }
}

/** One colour channel of the image converter: quantisation, and error diffusion
    through an accumulator with one slot per column plus one at either end. */
module Dither {
  import opened Bits

  /** Exact leaves a value alone; To(bits) keeps that many of its eight bits. */
  datatype Quant = Exact | To(bits: nat)

  predicate ValidQuant(q: Quant) {
    q.To? ==> q.bits == 2 || q.bits == 3 || q.bits == 5 || q.bits == 6 || q.bits == 8
  }

  /** The distance between two levels. */
  function Unit(bits: nat): nat {
    match bits
    case 2 => 64
    case 3 => 32
    case 5 => 8
    case 6 => 4
    case _ => 1
  }

  /** ceil(v / u) * u for u = Unit(bits). */
  function CeilTo(v: int, bits: nat): int {
    match bits
    case 2 => (v + 63) / 64 * 64
    case 3 => (v + 31) / 32 * 32
    case 5 => (v + 7) / 8 * 8
    case 6 => (v + 3) / 4 * 4
    case _ => v
  }

  /** `_classify_pixel`: the level at or above v, negative results replaced by zero. */
  function Classify(v: int, bits: nat): int {
    var val := CeilTo(v, bits);
    if val >= 0 then val else 0
  }

  function Quantise(v: int, q: Quant): int {
    match q
    case Exact => v
    case To(bits) =>
      var c := Classify(v, bits);
      if c > 256 - Unit(bits) then 256 - Unit(bits) else c
  }

  /** A representable level: a multiple of the unit from zero to the largest one. */
  predicate IsLevel(v: int, bits: nat) {
    match bits
    case 2 => 0 <= v <= 192 && v % 64 == 0
    case 3 => 0 <= v <= 224 && v % 32 == 0
    case 5 => 0 <= v <= 248 && v % 8 == 0
    case 6 => 0 <= v <= 252 && v % 4 == 0
    case _ => 0 <= v <= 255
  }

  /** round(n / 16), ties to the even neighbour. */
  function Round16(n: int): int {
    var q, r := n / 16, n % 16;
    if r < 8 then q else if r > 8 then q + 1 else if q % 2 == 0 then q else q + 1
  }

  lemma RoundIsNearest(n: int, k: int)
    ensures 16 * Round16(n) - n <= 8 && n - 16 * Round16(n) <= 8
    ensures 16 * k - n == 8 || n - 16 * k == 8 ==> Round16(n) % 2 == 0
    ensures Round16(-n) == -Round16(n)
  {
  }

  /** The unit divides the range of a byte into the levels of that many bits. */
  lemma UnitIs(q: Quant)
    requires ValidQuant(q) && q.To?
    ensures Unit(q.bits) * Pow2(q.bits) == 256
  {
    Pow2Small();
  }

  /** The value at or above v is the next multiple of the unit, and grows with it. */
  predicate CeilOk(v: int, w: int, bits: nat) {
    var c, u := CeilTo(v, bits), Unit(bits);
    && v <= c < v + u && (v <= w ==> c <= CeilTo(w, bits))
    && (0 <= v <= 256 - u ==> IsLevel(c, bits) && c <= 256 - u)
    && (IsLevel(v, bits) ==> 0 <= v == c <= 256 - u)
  }

  lemma CeilIs2(v: int, w: int)
    ensures CeilOk(v, w, 2)
  {
  }

  lemma CeilIs3(v: int, w: int)
    ensures CeilOk(v, w, 3)
  {
  }

  lemma CeilIs5(v: int, w: int)
    ensures CeilOk(v, w, 5)
  {
  }

  lemma CeilIs6(v: int, w: int)
    ensures CeilOk(v, w, 6)
  {
  }

  lemma CeilIs(v: int, w: int, bits: nat)
    requires ValidQuant(To(bits))
    ensures CeilOk(v, w, bits)
  {
    hide CeilOk;
    match bits {
      case 2 => CeilIs2(v, w);
      case 3 => CeilIs3(v, w);
      case 5 => CeilIs5(v, w);
      case 6 => CeilIs6(v, w);
      case _ => CeilIs8(v, w);
    }
  }

  lemma CeilIs8(v: int, w: int)
    ensures CeilOk(v, w, 8)
  {
  }

  lemma EndsAreLevels(bits: nat)
    ensures CeilTo(0, bits) == 0 && 0 < Unit(bits) <= 64 && IsLevel(0, bits) && IsLevel(256 - Unit(bits), bits)
  {
  }

  /** For every value, in or out of the range of a sample: values below 0 give the smallest
      level, from the largest level on the largest, and between them the next level up. */
  lemma QuantiseClamps(v: int, q: Quant)
    requires ValidQuant(q) && q.To?
    ensures var l, u := Quantise(v, q), Unit(q.bits);
            && (v <= 0 ==> l == 0)
            && (v >= 256 - u ==> l == 256 - u)
            && (0 <= v <= 256 - u ==> v <= l < v + u && IsLevel(l, q.bits))
            && (IsLevel(v, q.bits) ==> l == v)
  {
    hide CeilTo, IsLevel, Unit;
    CeilIs(v, 0, q.bits);
    EndsAreLevels(q.bits);
  }

  /** A quantised value is a level. On an undithered sample it is the next level up,
      or the largest one, so less than one unit away. */
  lemma QuantiseLevel(v: int, q: Quant)
    requires ValidQuant(q) && q.To?
    ensures var l := Quantise(v, q); var u := Unit(q.bits);
            && IsLevel(l, q.bits)
            && (0 <= v <= 255 ==> 0 - u < l - v < u)
            && (0 <= v <= 256 - u ==> l >= v)
            && (v <= 0 ==> l == 0)
  {
    hide Quantise, IsLevel, Unit;
    QuantiseClamps(v, q);
    EndsAreLevels(q.bits);
  }

  lemma QuantiseMonotone(v: int, w: int, q: Quant)
    requires ValidQuant(q) && v <= w
    ensures Quantise(v, q) <= Quantise(w, q)
  {
    hide CeilTo, Unit;
    if q.To? {
      CeilIs(v, w, q.bits);
    }
  }

  /** A value brought into the range of a sample. */
  function Clamp(v: int): int {
    if v < 0 then 0 else if v > 255 then 255 else v
  }

  /** Every value gives a level less than one unit from its clamped self. */
  lemma LevelNearClamped(v: int, q: Quant)
    requires ValidQuant(q) && q.To?
    ensures 0 - Unit(q.bits) < Quantise(v, q) - Clamp(v) < Unit(q.bits)
  {
  }

  // ----- error diffusion

  datatype Chan = Chan(earr: seq<int>, nerr: int)

  /** The value handed to the quantiser at column x. */
  function Seen(c: Chan, v: int, x: nat): int
    requires x + 1 < |c.earr|
  {
    v + c.nerr + c.earr[x + 1]
  }

  /** Slot x + 1 is consumed, then the error is shared out below-left, below and below-right. */
  function Spread(earr: seq<int>, x: nat, err: int): (r: seq<int>)
    requires x + 2 < |earr|
    ensures |r| == |earr|
  {
    var e0 := earr[x + 1 := 0];
    var e1 := e0[x := e0[x] + Round16(3 * err)];
    var e2 := e1[x + 1 := e1[x + 1] + Round16(5 * err)];
    e2[x + 2 := e2[x + 2] + Round16(err)]
  }

  /** The four shares hand on the whole error but for rounding: at most 2 either way. */
  lemma SharesKeepError(err: int)
    ensures -2 <= Round16(7 * err) + Round16(3 * err) + Round16(5 * err) + Round16(err) - err <= 2
  {
    RoundIsNearest(7 * err, 0);
    RoundIsNearest(3 * err, 0);
    RoundIsNearest(5 * err, 0);
    RoundIsNearest(err, 0);
  }

  function Act(c: Chan, v: int, x: nat, q: Quant): int
    requires x + 1 < |c.earr|
  {
    Quantise(Seen(c, v, x), q)
  }

  function Diffuse(c: Chan, v: int, x: nat, q: Quant): (r: Chan)
    requires x + 2 < |c.earr|
    ensures |r.earr| == |c.earr|
  {
    var err := v - Act(c, v, x, q);
    Chan(Spread(c.earr, x, err), Round16(7 * err))
  }

  /** One pixel, slot by slot: with e the sample less its level, the three slots take 3, 5
      and 1 sixteenths of e and the next column 7, each to the nearest integer; the slot that
      was read is emptied first, and no other changes. */
  lemma DiffuseShares(c: Chan, v: int, x: nat, q: Quant)
    requires x + 2 < |c.earr|
    ensures var r, e := Diffuse(c, v, x, q), v - Quantise(v + c.nerr + c.earr[x + 1], q);
            && Nearest(r.earr[x] - c.earr[x], 3 * e)
            && Nearest(r.earr[x + 1], 5 * e)
            && Nearest(r.earr[x + 2] - c.earr[x + 2], e)
            && Nearest(r.nerr, 7 * e)
            && (forall j :: 0 <= j < |c.earr| && !(x <= j <= x + 2) ==> r.earr[j] == c.earr[j])
  {
    hide Round16, Quantise, Nearest;
    var e := v - Quantise(v + c.nerr + c.earr[x + 1], q);
    SixteenthIsNearest(7 * e);
    SixteenthIsNearest(3 * e);
    SixteenthIsNearest(5 * e);
    SixteenthIsNearest(e);
  }

  /** r is n / 16 to the nearest integer, and to the even one of two. */
  predicate Nearest(r: int, n: int) {
    -8 <= 16 * r - n <= 8 && (16 * r - n == 8 || 16 * r - n == -8 ==> r % 2 == 0)
  }

  lemma SixteenthIsNearest(n: int)
    ensures Nearest(Round16(n), n)
  {
  }

  /** The sum of all slots. */
  function Total(s: seq<int>): int {
    if s == [] then 0 else Total(s[..|s| - 1]) + s[|s| - 1]
  }

  lemma {:induction false} TotalUpdate(s: seq<int>, i: nat, v: int)
    requires i < |s|
    ensures Total(s[i := v]) == Total(s) - s[i] + v
  {
    var n := |s| - 1;
    if i < n {
      TotalUpdate(s[..n], i, v);
      assert s[i := v][..n] == s[..n][i := v];
    } else {
      assert s[i := v][..n] == s[..n];
    }
  }

  /** Over one pixel, slots and carried error lose what the pixel consumed and gain the
      sample less its level, up to 2 for rounding. */
  lemma ErrorKept(c: Chan, v: int, x: nat, q: Quant)
    requires x + 2 < |c.earr|
    ensures var r, consumed := Diffuse(c, v, x, q), c.nerr + c.earr[x + 1];
            var level := Quantise(v + consumed, q);
            -2 <= Total(r.earr) + r.nerr - (Total(c.earr) + c.nerr - consumed + (v - level)) <= 2
  {
    hide Round16, Quantise, Total;
    var err := v - Act(c, v, x, q);
    var e0 := c.earr[x + 1 := 0];
    var e1 := e0[x := e0[x] + Round16(3 * err)];
    var e2 := e1[x + 1 := e1[x + 1] + Round16(5 * err)];
    TotalUpdate(c.earr, x + 1, 0);
    TotalUpdate(e0, x, e0[x] + Round16(3 * err));
    TotalUpdate(e1, x + 1, e1[x + 1] + Round16(5 * err));
    TotalUpdate(e2, x + 2, e2[x + 2] + Round16(err));
    SharesKeepError(err);
  }

  /** The channel after columns 0..x of a row. */
  function RowChan(earr: seq<int>, vs: seq<int>, x: nat, q: Quant): (c: Chan)
    requires x <= |vs| && |earr| == |vs| + 2
    ensures |c.earr| == |earr|
  {
    if x == 0 then Chan(earr, 0)
    else Diffuse(RowChan(earr, vs, x - 1, q), vs[x - 1], x - 1, q)
  }

  /** One row of samples and the quantiser in force when it is converted. */
  datatype Row = Row(vs: seq<int>, q: Quant)

  predicate ValidRow(r: Row, w: nat) {
    |r.vs| == w && ValidQuant(r.q) && forall i :: 0 <= i < w ==> 0 <= r.vs[i] <= 255
  }

  function Zeros(n: nat): (s: seq<int>)
    ensures |s| == n && forall i :: 0 <= i < n ==> s[i] == 0
  {
    seq(n, i => 0)
  }

  // ----- bounds

  function Bound(j: int, x: int): int {
    if j == x then 80 else if j == x + 1 && x > 0 then 144 else 128
  }

  /** The accumulator of a w column image when column x is next: the slot left
      behind last holds one share, the slot about to be read three, all others two. */
  predicate Phased(c: Chan, w: nat, x: nat) {
    && |c.earr| == w + 2
    && -112 <= c.nerr <= 112
    && forall j {:trigger c.earr[j]} :: 1 <= j <= w ==> 0 - Bound(j, x) <= c.earr[j] <= Bound(j, x)
  }

  /** What a column reads is bounded. */
  predicate Calm(c: Chan, v: int, x: nat)
    requires x + 1 < |c.earr|
  {
    -144 <= c.earr[x + 1] <= 144 && -112 <= c.nerr <= 112 && -256 <= Seen(c, v, x) <= 511
  }

  lemma ErrorBound(s: int, v: int, q: Quant)
    requires 0 <= v <= 255 && -256 <= s - v <= 256 && ValidQuant(q)
    ensures -256 <= v - Quantise(s, q) <= 256
  {
    if q.To? {
      QuantiseLevel(s, q);
    }
  }

  lemma ShareBounds(err: int)
    requires -256 <= err <= 256
    ensures -48 <= Round16(3 * err) <= 48 && -80 <= Round16(5 * err) <= 80
    ensures -16 <= Round16(err) <= 16 && -112 <= Round16(7 * err) <= 112
  {
  }

  lemma SpreadSlots(earr: seq<int>, x: nat, err: int)
    requires x + 2 < |earr|
    ensures var r := Spread(earr, x, err);
            && r[x] == earr[x] + Round16(3 * err)
            && r[x + 1] == Round16(5 * err)
            && r[x + 2] == earr[x + 2] + Round16(err)
            && (forall j :: 0 <= j < |earr| && !(x <= j <= x + 2) ==> r[j] == earr[j])
  {
  }

  lemma PhasedStep(c: Chan, v: int, w: nat, x: nat, q: Quant)
    requires Phased(c, w, x) && x < w && 0 <= v <= 255 && ValidQuant(q)
    ensures Calm(c, v, x)
    ensures Phased(Diffuse(c, v, x, q), w, x + 1)
  {
    hide Round16, Spread, Quantise;
    assert -144 <= c.earr[x + 1] <= 144;
    ErrorBound(Seen(c, v, x), v, q);
    var err := v - Act(c, v, x, q);
    ShareBounds(err);
    SpreadSlots(c.earr, x, err);
    var r := Diffuse(c, v, x, q);
    forall j {:trigger r.earr[j]} | 1 <= j <= w
      ensures 0 - Bound(j, x + 1) <= r.earr[j] <= Bound(j, x + 1)
    {
      assert 0 - Bound(j, x) <= c.earr[j] <= Bound(j, x);
    }
  }

  lemma {:induction false} RowBounds(earr: seq<int>, r: Row, w: nat, x: nat)
    requires ValidRow(r, w) && Phased(Chan(earr, 0), w, 0) && x <= w
    ensures Phased(RowChan(earr, r.vs, x, r.q), w, x)
    ensures x < w ==> Calm(RowChan(earr, r.vs, x, r.q), r.vs[x], x)
  {
    hide Round16, Spread, Quantise, Diffuse;
    if x > 0 {
      RowBounds(earr, r, w, x - 1);
      PhasedStep(RowChan(earr, r.vs, x - 1, r.q), r.vs[x - 1], w, x - 1, r.q);
    }
    if x < w {
      PhasedStep(RowChan(earr, r.vs, x, r.q), r.vs[x], w, x, r.q);
    }
  }

  /** After its last column a row leaves every slot within the row-start bound. */
  lemma RowEndPhased(c: Chan, w: nat)
    requires Phased(c, w, w)
    ensures Phased(Chan(c.earr, 0), w, 0)
  {
    var r := Chan(c.earr, 0);
    forall j {:trigger r.earr[j]} | 1 <= j <= w
      ensures 0 - Bound(j, 0) <= r.earr[j] <= Bound(j, 0)
    {
      assert 0 - Bound(j, w) <= c.earr[j] <= Bound(j, w);
    }
  }

  // ----- the two end slots

  predicate SameInside(e: seq<int>, f: seq<int>) {
    |e| == |f| && forall j :: 1 <= j < |e| - 1 ==> e[j] == f[j]
  }

  lemma DiffuseInside(c: Chan, d: Chan, v: int, x: nat, q: Quant)
    requires SameInside(c.earr, d.earr) && c.nerr == d.nerr && x + 2 < |c.earr|
    ensures Act(c, v, x, q) == Act(d, v, x, q)
    ensures Diffuse(c, v, x, q).nerr == Diffuse(d, v, x, q).nerr
    ensures SameInside(Diffuse(c, v, x, q).earr, Diffuse(d, v, x, q).earr)
  {
    hide Round16, Spread, Quantise;
    assert c.earr[x + 1] == d.earr[x + 1];
    SpreadInside(c.earr, d.earr, x, v - Act(c, v, x, q));
  }

  lemma SpreadInside(e: seq<int>, f: seq<int>, x: nat, err: int)
    requires SameInside(e, f) && x + 2 < |e|
    ensures SameInside(Spread(e, x, err), Spread(f, x, err))
  {
    SpreadSlots(e, x, err);
    SpreadSlots(f, x, err);
    var r, t := Spread(e, x, err), Spread(f, x, err);
    forall j | 1 <= j < |r| - 1
      ensures r[j] == t[j]
    {
      assert e[j] == f[j];
    }
  }

  /** The slots at either end collect errors but are never read within a row. */
  lemma {:induction false} RowInside(e: seq<int>, f: seq<int>, vs: seq<int>, x: nat, q: Quant)
    requires SameInside(e, f) && |e| == |vs| + 2 && x <= |vs|
    ensures x < |vs| ==> Act(RowChan(e, vs, x, q), vs[x], x, q) == Act(RowChan(f, vs, x, q), vs[x], x, q)
    ensures RowChan(e, vs, x, q).nerr == RowChan(f, vs, x, q).nerr
    ensures SameInside(RowChan(e, vs, x, q).earr, RowChan(f, vs, x, q).earr)
    decreases x
  {
    hide Round16, Spread, Quantise, Diffuse;
    if x > 0 {
      RowInside(e, f, vs, x - 1, q);
      DiffuseInside(RowChan(e, vs, x - 1, q), RowChan(f, vs, x - 1, q), vs[x - 1], x - 1, q);
    }
    if x < |vs| {
      DiffuseInside(RowChan(e, vs, x, q), RowChan(f, vs, x, q), vs[x], x, q);
    }
  }
}

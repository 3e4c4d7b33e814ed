/** Rows of n-bit samples packed most significant field first into bytes, each row
    padded with zero bits to a whole byte: the layout of the 1, 2, 4 and 8 bit
    alpha and indexed image formats. */
module Packing {
  import opened Bits

  type Depth = n: nat | n == 1 || n == 2 || n == 4 || n == 8 witness 1

  /** Samples in one byte. */
  function PerByte(n: Depth): nat {
    match n
    case 1 => 8
    case 2 => 4
    case 4 => 2
    case _ => 1
  }

  /** Bits left in a byte that already holds j samples. */
  function Room(j: nat, n: Depth): nat
    requires j <= PerByte(n)
  {
    match n
    case 1 => 8 - j
    case 2 => 8 - 2 * j
    case 4 => 8 - 4 * j
    case _ => 8 - 8 * j
  }

  /** Bytes in a row of w samples. */
  function Stride(w: nat, n: Depth): nat {
    match n
    case 1 => (w + 7) / 8
    case 2 => (w + 3) / 4
    case 4 => (w + 1) / 2
    case _ => w
  }

  /** Byte of its row that sample x falls into, and its field in that byte. */
  function ByteOf(x: nat, n: Depth): nat {
    match n
    case 1 => x / 8
    case 2 => x / 4
    case 4 => x / 2
    case _ => x
  }

  function FieldOf(x: nat, n: Depth): (j: nat)
    ensures j < PerByte(n)
  {
    match n
    case 1 => x % 8
    case 2 => x % 4
    case 4 => x % 2
    case _ => 0
  }

  predicate Samples(s: seq<nat>, n: nat) {
    forall i :: 0 <= i < |s| ==> s[i] < Pow2(n)
  }

  /** The samples of one byte read as a base 2^n numeral. */
  function Numeral(c: seq<nat>, n: nat): nat {
    if c == [] then 0 else Shl(Numeral(c[..|c| - 1], n), n) + c[|c| - 1]
  }

  function PackByte(c: seq<nat>, n: Depth): nat
    requires |c| <= PerByte(n)
  {
    Shl(Numeral(c, n), Room(|c|, n))
  }

  function PackRow(s: seq<nat>, n: Depth): seq<nat> {
    var k := PerByte(n);
    if s == [] then []
    else if |s| <= k then [PackByte(s, n)]
    else [PackByte(s[..k], n)] + PackRow(s[k..], n)
  }

  /** The j-th field of a byte, counted from the most significant end. */
  function Field(b: nat, j: nat, n: Depth): nat
    requires j < PerByte(n)
  {
    Low(Shr(b, Room(j + 1, n)), n)
  }

  /** The fields of a byte by position: field j has the value of its bits, the ones before
      it and the bits behind it make up the rest. */
  lemma FieldIs(b: nat, j: nat, n: Depth)
    requires j < PerByte(n)
    ensures var low := 8 - n * (j + 1);
            && low >= 0 && Field(b, j, n) < Pow2(n)
            && b == (Shr(b, low + n) * Pow2(n) + Field(b, j, n)) * Pow2(low) + Low(b, low)
            && Low(b, low) < Pow2(low)
  {
    var low := Room(j + 1, n);
    assert low == 8 - n * (j + 1);
    ShiftedParts(b, low);
    ShiftedParts(Shr(b, low), n);
    ShrShr(b, low, n);
  }

  // ----- row length

  lemma StrideStep(w: nat, n: Depth)
    ensures w > PerByte(n) ==> Stride(w, n) == 1 + Stride(w - PerByte(n), n)
    ensures 0 < w <= PerByte(n) ==> Stride(w, n) == 1
    ensures Stride(0, n) == 0
    ensures FieldOf(w, n) == 0 ==> Stride(w, n) == ByteOf(w, n)
    ensures FieldOf(w, n) != 0 ==> Stride(w, n) == ByteOf(w, n) + 1
  {
  }

  /** A row takes the bits of its samples, rounded up to whole bytes. */
  lemma StrideIsCeiling(w: nat, n: Depth)
    ensures Stride(w, n) == (w * n + 7) / 8
  {
    if n == 1 {
    } else if n == 2 {
    } else if n == 4 {
    } else {
    }
  }

  lemma {:induction false} RowLength(s: seq<nat>, n: Depth)
    ensures |PackRow(s, n)| == Stride(|s|, n)
  {
    StrideStep(|s|, n);
    if |s| > PerByte(n) {
      RowLength(s[PerByte(n)..], n);
    }
  }

  // ----- one more sample

  /** The byte's free low bits take the next sample by a bitwise or. */
  lemma OrAppends(c: seq<nat>, v: nat, n: Depth)
    requires |c| < PerByte(n) && v < Pow2(n)
    ensures PackByte(c + [v], n) == Or(PackByte(c, n), Shl(v, Room(|c| + 1, n)))
  {
    assert (c + [v])[..|c|] == c;
    assert n + Room(|c| + 1, n) == Room(|c|, n);
    OrShifted(Numeral(c, n), v, n, Room(|c| + 1, n));
  }

  lemma OrShifted(q: nat, v: nat, n: nat, low: nat)
    requires v < Pow2(n)
    ensures Shl(Shl(q, n) + v, low) == Or(Shl(q, n + low), Shl(v, low))
  {
    ShlSum(Shl(q, n), v, low);
    ShlShl(q, n, low);
    ShlBound(v, n, low);
    OrDisjoint(q, Shl(v, low), n + low);
  }

  lemma ByteEdge(x: nat, n: Depth)
    ensures x < PerByte(n) ==> ByteOf(x, n) == 0 && FieldOf(x, n) == x
    ensures x >= PerByte(n) ==>
              && FieldOf(x, n) == FieldOf(x - PerByte(n), n)
              && ByteOf(x, n) == ByteOf(x - PerByte(n), n) + 1
  {
  }

  /** Adding a sample to a row: a new byte when the row is byte aligned, otherwise
      an update of the last byte. */
  lemma {:induction false} RowAppends(s: seq<nat>, v: nat, n: Depth)
    requires v < Pow2(n)
    ensures PackRow(s + [v], n) == Appended(PackRow(s, n), FieldOf(|s|, n), v, n)
    decreases |s|
  {
    if |s| <= PerByte(n) {
      ShortRowAppends(s, v, n);
    } else {
      var head, tail := s[..PerByte(n)], s[PerByte(n)..];
      RowAppends(tail, v, n);
      ByteEdge(|s|, n);
      RowSplit(head, tail, n);
      RowSplit(head, tail + [v], n);
      assert s == head + tail && s + [v] == head + (tail + [v]);
      RowLength(tail, n);
      StrideStep(|tail|, n);
      AppendedTail(PackByte(head, n), PackRow(tail, n), FieldOf(|s|, n), v, n);
    }
  }

  lemma RowSplit(head: seq<nat>, tail: seq<nat>, n: Depth)
    requires |head| == PerByte(n) && tail != []
    ensures PackRow(head + tail, n) == [PackByte(head, n)] + PackRow(tail, n)
  {
    assert (head + tail)[..|head|] == head && (head + tail)[|head|..] == tail;
  }

  lemma ShortRowAppends(s: seq<nat>, v: nat, n: Depth)
    requires v < Pow2(n) && |s| <= PerByte(n)
    ensures PackRow(s + [v], n) == Appended(PackRow(s, n), FieldOf(|s|, n), v, n)
  {
    ByteEdge(|s|, n);
    if |s| == PerByte(n) {
      FirstField(v, n);
      RowSplit(s, [v], n);
    } else if s == [] {
      FirstField(v, n);
      assert s + [v] == [v];
    } else {
      OrAppends(s, v, n);
      assert PackRow(s, n) == [PackByte(s, n)];
      assert PackRow(s + [v], n) == [PackByte(s + [v], n)];
    }
  }

  lemma FirstField(v: nat, n: Depth)
    requires v < Pow2(n)
    ensures PackRow([v], n) == [Or(0, Shl(v, Room(1, n)))]
  {
    OrAppends([], v, n);
    assert [] + [v] == [v];
  }

  /** Whole-byte samples are their own bytes. */
  lemma WholeByteAppends(s: seq<nat>, v: nat)
    requires v < 256
    ensures PackRow(s + [v], 8) == PackRow(s, 8) + [v]
  {
    assert v < Pow2(8) by { Pow2Small(); }
    RowAppends(s, v, 8);
    assert Or(0, Shl(v, 0)) == v;
  }

  lemma AppendedTail(first: nat, p: seq<nat>, j: nat, v: nat, n: Depth)
    requires j < PerByte(n) && p != []
    ensures Appended([first] + p, j, v, n) == [first] + Appended(p, j, v, n)
  {
    assert ([first] + p)[..|p|] == [first] + p[..|p| - 1];
  }

  /** The bytes p of a row after a sample that falls into field j of the last byte;
      field 0 opens a new byte. */
  function Appended(p: seq<nat>, j: nat, v: nat, n: Depth): seq<nat>
    requires j < PerByte(n)
  {
    if j == 0 then p + [Or(0, Shl(v, Room(1, n)))]
    else if p == [] then []
    else p[..|p| - 1] + [Or(p[|p| - 1], Shl(v, Room(j + 1, n)))]
  }

  // ----- reading samples back

  lemma {:induction false} NumeralDigit(c: seq<nat>, j: nat, n: Depth)
    requires Samples(c, n) && j < |c| <= PerByte(n)
    ensures Room(j + 1, n) >= Room(|c|, n)
    ensures Low(Shr(Numeral(c, n), Room(j + 1, n) - Room(|c|, n)), n) == c[j]
    decreases |c|
  {
    hide Shl, Pow2, Room;
    var m := |c|;
    var d := c[..m - 1];
    ShiftBack(Numeral(d, n), c[m - 1], n);
    RoomStep(j + 1, m - 1, n);
    if j < m - 1 {
      NumeralDigit(d, j, n);
      ShrShr(Numeral(c, n), n, Room(j + 1, n) - Room(m - 1, n));
    }
  }

  lemma RoomStep(i: nat, j: nat, n: Depth)
    requires i <= j + 1 <= PerByte(n)
    ensures Room(j, n) == Room(j + 1, n) + n
    ensures Room(i, n) >= Room(j + 1, n)
    ensures i <= j ==> Room(i, n) >= Room(j, n)
  {
  }

  lemma ByteField(c: seq<nat>, j: nat, n: Depth)
    requires Samples(c, n) && j < |c| <= PerByte(n)
    ensures Field(PackByte(c, n), j, n) == c[j]
  {
    NumeralDigit(c, j, n);
    var pad, e := Room(|c|, n), Room(j + 1, n) - Room(|c|, n);
    ShiftBack(Numeral(c, n), 0, pad);
    ShrShr(PackByte(c, n), pad, e);
  }

  /** Every sample is found in its own field: byte x / k of the row, field x % k. */
  lemma {:induction false} RowField(s: seq<nat>, x: nat, n: Depth)
    requires Samples(s, n) && x < |s|
    ensures ByteOf(x, n) < |PackRow(s, n)|
    ensures Field(PackRow(s, n)[ByteOf(x, n)], FieldOf(x, n), n) == s[x]
    decreases |s|
  {
    var k := PerByte(n);
    ByteEdge(x, n);
    if x < k {
      ByteField(if |s| <= k then s else s[..k], x, n);
    } else {
      RowField(s[k..], x - k, n);
    }
  }

  /** The bits of the last byte that belong to no sample are zero. */
  lemma {:induction false} RowPadding(s: seq<nat>, n: Depth)
    requires FieldOf(|s|, n) != 0
    ensures var p := PackRow(s, n);
            |p| > 0 && Low(p[|p| - 1], Room(FieldOf(|s|, n), n)) == 0
    decreases |s|
  {
    var k := PerByte(n);
    ByteEdge(|s|, n);
    if |s| < k {
      ShiftBack(Numeral(s, n), 0, Room(|s|, n));
    } else {
      RowPadding(s[k..], n);
    }
  }

  lemma {:induction false} NumeralBound(c: seq<nat>, n: Depth)
    requires Samples(c, n) && |c| <= PerByte(n)
    ensures Numeral(c, n) < Pow2(8 - Room(|c|, n))
    decreases |c|
  {
    if c != [] {
      var m := |c|;
      NumeralBound(c[..m - 1], n);
      assert 8 - Room(m, n) == (8 - Room(m - 1, n)) + n;
      ShlRoom(Numeral(c[..m - 1], n), c[m - 1], 8 - Room(m - 1, n), n);
    }
  }

  lemma {:induction false} ShlRoom(q: nat, v: nat, m: nat, n: nat)
    requires q < Pow2(m) && v < Pow2(n)
    ensures Shl(q, n) + v < Pow2(m + n)
  {
    if n > 0 {
      ShlRoom(q, v / 2, m, n - 1);
    }
  }

  lemma ByteBound(c: seq<nat>, n: Depth)
    requires Samples(c, n) && |c| <= PerByte(n)
    ensures PackByte(c, n) < 256
  {
    NumeralBound(c, n);
    ShlBound(Numeral(c, n), 8 - Room(|c|, n), Room(|c|, n));
    Pow2Small();
  }

  lemma {:induction false} RowBytes(s: seq<nat>, n: Depth)
    requires Samples(s, n)
    ensures forall i :: 0 <= i < |PackRow(s, n)| ==> PackRow(s, n)[i] < 256
  {
    if s != [] {
      var k := PerByte(n);
      ByteBound(if |s| <= k then s else s[..k], n);
      if |s| > k {
        RowBytes(s[k..], n);
      }
    }
  }
}

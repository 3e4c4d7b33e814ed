/** The progress widget: which bar image stands for a value, and the digits of the
    value with the cache that skips repeated updates. */
module UpgradeWidget {

  import opened MachineInts

  /** `abs(value - key)` with the subtraction in unsigned arithmetic. */
  function Diff(value: nat, key: int): int {
    var d := Int32(value - key);
    if d < 0 then -d else d
  }

  // ----- bar image

  /** Index i is the first among the nearest keys. */
  predicate FirstNearest(keys: seq<int>, value: nat, i: nat) {
    && i < |keys|
    && (forall j :: 0 <= j < |keys| ==> Diff(value, keys[i]) <= Diff(value, keys[j]))
    && (forall j :: 0 <= j < i ==> Diff(value, keys[i]) < Diff(value, keys[j]))
  }

  lemma NearestIsUnique(keys: seq<int>, value: nat, m: nat, n: nat)
    requires FirstNearest(keys, value, m) && FirstNearest(keys, value, n)
    ensures m == n
  {
    var dm, dn := Diff(value, keys[m]), Diff(value, keys[n]);
    assert dm <= dn && dn <= dm;
  }

  /** `lv_get_closest_element_index`: the first nearest key, except that the last one is
      shown only when it is matched exactly. The result is an unsigned byte. */
  method ClosestIndex(keys: seq<int>, value: nat) returns (index: nat)
    requires 0 < |keys| <= 255
    ensures exists n :: FirstNearest(keys, value, n)
    ensures forall n :: FirstNearest(keys, value, n) ==> index == Shown(keys, value, n)
    ensures forall n :: FirstNearest(keys, value, n) && n != |keys| - 1 ==> index == n
    ensures forall n: nat :: FirstNearest(keys, value, n) && n == |keys| - 1 ==>
              index == if Diff(value, keys[n]) == 0 then n else if n == 0 then 255 else n - 1
  {
    var targetIndex := 0;
    var minDiff := Diff(value, keys[0]);
    var i := 1;
    while i < |keys|
      invariant 1 <= i <= |keys| && 0 <= targetIndex < i && minDiff == Diff(value, keys[targetIndex])
      invariant forall j :: 0 <= j < i ==> minDiff <= Diff(value, keys[j])
      invariant forall j :: 0 <= j < targetIndex ==> minDiff < Diff(value, keys[j])
    {
      var diff := Diff(value, keys[i]);
      if diff < minDiff {
        minDiff := diff;
        targetIndex := i;
      }
      i := i + 1;
    }
    assert FirstNearest(keys, value, targetIndex);
    if minDiff != 0 && targetIndex == |keys| - 1 {
      index := (targetIndex - 1) % 256;
    } else {
      index := targetIndex;
    }
    forall n | FirstNearest(keys, value, n)
      ensures n == targetIndex
    {
      NearestIsUnique(keys, value, n, targetIndex);
    }
  }

  function Shown(keys: seq<int>, value: nat, nearest: nat): nat
    requires nearest < |keys|
  {
    if Diff(value, keys[nearest]) != 0 && nearest == |keys| - 1 then (nearest - 1) % 256 else nearest
  }

  /** Keys as a bar is configured with them: in order, within the range of an int. */
  predicate SortedKeys(keys: seq<int>) {
    && (forall i, j :: 0 <= i < j < |keys| ==> keys[i] <= keys[j])
    && (forall i :: 0 <= i < |keys| ==> 0 <= keys[i] < 0x8000_0000)
  }

  /** The image shown exists exactly when there are two keys or the only one is matched. */
  lemma IndexInRange(keys: seq<int>, value: nat, n: nat)
    requires 0 < |keys| <= 255 && SortedKeys(keys) && value < 0x1_0000_0000 && FirstNearest(keys, value, n)
    ensures Shown(keys, value, n) < |keys| <==> |keys| >= 2 || value == keys[0]
  {
  }

  /** With two or more keys, the last image stands for its own key only. */
  lemma LastOnlyOnExactMatch(keys: seq<int>, value: nat, n: nat)
    requires 2 <= |keys| <= 255 && SortedKeys(keys) && value < 0x1_0000_0000 && FirstNearest(keys, value, n)
    ensures Shown(keys, value, n) == |keys| - 1 ==> value == keys[|keys| - 1]
    ensures value == keys[|keys| - 1] && keys[|keys| - 2] < keys[|keys| - 1] ==> Shown(keys, value, n) == |keys| - 1
  {
    var last, other, nearest := keys[|keys| - 1], keys[|keys| - 2], keys[n];
    assert Diff(value, nearest) <= Diff(value, last);
  }

  /** A smaller key that is no farther from u is no farther from any smaller v. */
  lemma Exchange(a: int, b: int, v: nat, u: nat)
    requires 0 <= b <= a < 0x8000_0000 && v <= u < 0x8000_0000 && Diff(u, b) <= Diff(u, a)
    ensures Diff(v, b) <= Diff(v, a)
  {
    DiffIs(u, a);
    DiffIs(u, b);
    DiffIs(v, a);
    DiffIs(v, b);
  }

  lemma DiffIs(value: nat, key: int)
    requires 0 <= key < 0x8000_0000 && value < 0x8000_0000
    ensures Diff(value, key) == if value >= key then value - key else key - value
  {
  }

  lemma NearestMonotone(keys: seq<int>, v: nat, u: nat, m: nat, n: nat)
    requires SortedKeys(keys) && v <= u < 0x8000_0000
    requires FirstNearest(keys, v, m) && FirstNearest(keys, u, n)
    ensures m <= n
  {
    assert n < m ==> Diff(v, keys[m]) < Diff(v, keys[n]);
    assert Diff(u, keys[n]) <= Diff(u, keys[m]);
    if keys[n] <= keys[m] {
      Exchange(keys[m], keys[n], v, u);
    }
  }

  /** The bar never goes back as the value grows up to the last key. */
  lemma ShownMonotone(keys: seq<int>, v: nat, u: nat, m: nat, n: nat)
    requires 2 <= |keys| <= 255 && SortedKeys(keys) && v <= u <= keys[|keys| - 1]
    requires FirstNearest(keys, v, m) && FirstNearest(keys, u, n)
    ensures Shown(keys, v, m) <= Shown(keys, u, n)
  {
    NearestMonotone(keys, v, u, m, n);
    if m == n == |keys| - 1 && v != keys[m] && u == keys[n] {
    } else if n == |keys| - 1 && u != keys[n] && m == n {
      assert v != keys[m];
    }
  }

  // ----- digits

  /** The digit buffer, least significant first, -1 where unused. */
  datatype Digits = Digits(d0: int, d1: int, d2: int)

  const BLANK := Digits(-1, -1, -1)

  /** C's division of an int, which truncates towards zero. */
  function CDiv(a: int, b: nat): int
    requires b > 0
  {
    if a >= 0 then a / b else -((-a) / b)
  }

  function CRem(a: int, b: nat): int
    requires b > 0
  {
    if a >= 0 then a % b else -((-a) % b)
  }

  /** Quotient and remainder make up the value, and the remainder takes its sign. */
  lemma TruncatesToZero(a: int, b: nat)
    requires b > 0
    ensures a == b * CDiv(a, b) + CRem(a, b)
    ensures if a >= 0 then 0 <= CRem(a, b) < b else 0 - b < CRem(a, b) <= 0
  {
  }

  /** The digits of an unsigned value, which is taken apart as an int. */
  function DigitsOf(v: nat): Digits {
    var t := Int32(v);
    if CDiv(t, 10) == 0 then Digits(CRem(t, 10), -1, -1)
    else if CDiv(t, 100) == 0 then Digits(CRem(t, 10), CRem(CDiv(t, 10), 10), -1)
    else Digits(CRem(t, 10), CRem(CDiv(t, 10), 10), CRem(CDiv(t, 100), 10))
  }

  /** What the digits read as: positions are counted up to the first unused one. */
  function ReadDigits(d: Digits): int {
    if d.d0 < 0 then 0
    else if d.d1 < 0 then d.d0
    else if d.d2 < 0 then d.d0 + 10 * d.d1
    else d.d0 + 10 * d.d1 + 100 * d.d2
  }

  /** Digit buffer and cached value after an update. */
  datatype Face = Face(digits: Digits, cache: int)

  const UNSET := Face(BLANK, -1)

  function Put(f: Face, v: nat): Face {
    if f.cache >= 0 && f.cache == v then f else Face(DigitsOf(v), Int8(v))
  }

  class Upgrade {
    var progress: array<int>
    var value: int

    ghost predicate Valid()
      reads this
    {
      progress.Length == 3
    }

    function AsFace(): Face
      requires progress.Length == 3
      reads this, progress
    {
      Face(Digits(progress[0], progress[1], progress[2]), value)
    }

    constructor ()
      ensures Valid() && fresh(progress) && AsFace() == UNSET
    {
      progress := new int[3](i => -1);
      value := -1;
    }

    /** The digit and cache part of `lv_upgrade_set_progress`. */
    method SetProgress(v: nat)
      requires Valid() && v < 0x1_0000_0000
      modifies this`value, progress
      ensures Valid() && AsFace() == Put(old(AsFace()), v)
    {
      if value >= 0 && value == v {
        return;
      }
      progress[0], progress[1], progress[2] := -1, -1, -1;
      ghost var t := Int32(v);
      var tmp := Int32(v);
      var i := 0;
      while i < 3
        invariant 0 <= i <= 3 && progress.Length == 3
        invariant i == 0 ==> tmp == t && progress[..] == [-1, -1, -1]
        invariant i == 1 ==> tmp == CDiv(t, 10) != 0 && progress[..] == [CRem(t, 10), -1, -1]
        invariant i == 2 ==> tmp == CDiv(t, 100) != 0 && progress[..] == [CRem(t, 10), CRem(CDiv(t, 10), 10), -1]
        invariant i == 3 ==> CDiv(t, 100) != 0 &&
                             progress[..] == [CRem(t, 10), CRem(CDiv(t, 10), 10), CRem(CDiv(t, 100), 10)]
      {
        progress[i] := CRem(tmp, 10);
        tmp := CDiv(tmp, 10);
        if tmp == 0 {
          break;
        }
        i := i + 1;
      }
      value := Int8(v);
    }

    /** `lv_upgrade_get_value` */
    method GetValue() returns (result: int)
      requires Valid()
      ensures result == ReadDigits(AsFace().digits)
    {
      result := 0;
      var inc := 1;
      var i := 0;
      while i < 3
        invariant 0 <= i <= 3 && inc == (if i == 0 then 1 else if i == 1 then 10 else if i == 2 then 100 else 1000)
        invariant forall k :: 0 <= k < i ==> progress[k] >= 0
        invariant result == (if i == 0 then 0 else if i == 1 then progress[0]
                             else if i == 2 then progress[0] + 10 * progress[1]
                             else progress[0] + 10 * progress[1] + 100 * progress[2])
      {
        if progress[i] < 0 {
          break;
        }
        result := result + progress[i] * inc;
        inc := inc * 10;
        i := i + 1;
      }
    }
  }

  /** What a value reads back as: its last three digits, and nothing from 2^31 on, where
      it is taken apart as a negative number. */
  function ReadsAs(v: nat): nat {
    if v < 0x8000_0000 then v % 1000 else 0
  }

  lemma DigitsRoundTrip(v: nat)
    requires v < 0x1_0000_0000
    ensures ReadDigits(DigitsOf(v)) == ReadsAs(v)
  {
    if 100 <= v < 0x8000_0000 {
      var m := v / 1000;
      var r := v - 1000 * m;
      var a := r / 100;
      var b := (r - 100 * a) / 10;
      ThreeDigits(m, a, b, r - 100 * a - 10 * b);
    }
  }

  /** Below 2^31 the used digits are decimal ones from the last position on, without a
      leading zero, and below 1000 as many as the value has. */
  lemma DigitsShape(v: nat)
    requires v < 0x8000_0000
    ensures var d := DigitsOf(v);
            && 0 <= d.d0 <= 9 && -1 <= d.d1 <= 9 && -1 <= d.d2 <= 9
            && (d.d1 == -1 <==> v < 10) && (d.d2 == -1 <==> v < 100)
            && (10 <= v < 100 ==> d.d1 > 0) && (100 <= v < 1000 ==> d.d2 > 0)
  {
  }

  lemma ThreeDigits(m: nat, a: nat, b: nat, c: nat)
    requires a < 10 && b < 10 && c < 10
    ensures var v := 1000 * m + 100 * a + 10 * b + c;
            v % 10 == c && v / 10 % 10 == b && v / 100 % 10 == a && v % 1000 == 100 * a + 10 * b + c
  {
    assert (1000 * m + 100 * a + 10 * b + c) / 10 == 100 * m + 10 * a + b;
    assert (1000 * m + 100 * a + 10 * b + c) / 100 == 10 * m + a;
  }

  function PutAll(f: Face, vs: seq<nat>): Face {
    if vs == [] then f else Put(PutAll(f, vs[..|vs| - 1]), vs[|vs| - 1])
  }

  /** The cache either is negative or names the value the digits show. */
  predicate Coherent(f: Face) {
    f.cache >= 0 ==> ReadDigits(f.digits) == f.cache
  }

  lemma PutReads(f: Face, v: nat)
    requires Coherent(f) && v <= 255
    ensures ReadDigits(Put(f, v).digits) == v && Coherent(Put(f, v))
  {
    DigitsRoundTrip(v);
  }

  /** After any sequence of updates with values in 0..255, the widget reads back the
      last one. */
  lemma {:induction false} ReadsBackLast(vs: seq<nat>)
    requires vs != [] && forall i :: 0 <= i < |vs| ==> vs[i] <= 255
    ensures ReadDigits(PutAll(UNSET, vs).digits) == vs[|vs| - 1]
    ensures Coherent(PutAll(UNSET, vs))
    decreases |vs|
  {
    var n := |vs| - 1;
    if n > 0 {
      ReadsBackLast(vs[..n]);
    } else {
      assert vs[..n] == [];
    }
    PutReads(PutAll(UNSET, vs[..n]), vs[n]);
  }

  /** Beyond 255 the cache keeps only eight bits. An update to v is followed correctly by
      every later update exactly when the cached byte is negative or is the value shown. */
  lemma CacheAliasing(f: Face, v: nat)
    requires v < 0x1_0000_0000 && !(f.cache >= 0 && f.cache == v)
    ensures (forall u: nat :: u < 1000 ==> ReadDigits(Put(Put(f, v), u).digits) == u)
            <==> v % 256 >= 128 || ReadsAs(v) == v % 256
  {
    DigitsRoundTrip(v);
    forall u: nat | u < 1000
      ensures ReadDigits(DigitsOf(u)) == u
    {
      DigitsRoundTrip(u);
    }
    if v % 256 < 128 && ReadsAs(v) != v % 256 {
      var u := v % 256;
      assert Put(Put(f, v), u) == Put(f, v);
      assert ReadDigits(Put(Put(f, v), u).digits) != u;
    }
  }
}

/** The two files a conversion is written to: the rows of a C array, and a binary
    image behind a 32 bit header. */
module ImageFile {
  import opened Bits
  import opened Bytes
  import opened Packing
  import opened ImageFormat

  // ----- C array

  /** `format_to_c_array`: the bytes in the order in which they are appended. Each
      pixel takes its own bytes, or one byte when it opens a new one. */
  method Walk(cf: Format, alpha: bool, w: nat, h: nat, dOut: seq<nat>) returns (tmpArr: seq<nat>)
    requires |dOut| == 4 * PaletteSize(cf) + h * RowLen(cf, alpha, w)
    ensures tmpArr == dOut[4 * PaletteSize(cf)..]
  {
    hide RowLen;
    RowBytesIs(h, RowLen(cf, alpha, w));
    var start := PaletteSize(cf) * 4;
    var i := start;
    tmpArr := [];
    var y := 0;
    while y < h
      invariant y <= h && i + RowBytes(h - y, RowLen(cf, alpha, w)) == |dOut| && start <= i
      invariant tmpArr == dOut[start..i]
    {
      ghost var before := i;
      i, tmpArr := WalkRow(cf, alpha, w, dOut, i, tmpArr);
      NextPiece([], dOut, start, before, i);
      y := y + 1;
    }
  }

  /** The bytes of n rows of m bytes. */
  function RowBytes(n: nat, m: nat): nat {
    if n == 0 then 0 else m + RowBytes(n - 1, m)
  }

  lemma {:induction false} RowBytesIs(n: nat, m: nat)
    ensures RowBytes(n, m) == n * m
  {
    if n > 0 {
      RowBytesIs(n - 1, m);
    }
  }

  /** Appending the next piece of a sequence to the ones before it. */
  lemma NextPiece(front: seq<nat>, s: seq<nat>, lo: nat, mid: nat, hi: nat)
    requires lo <= mid <= hi <= |s|
    ensures front + s[lo..mid] + s[mid..hi] == front + s[lo..hi]
  {
    assert s[lo..mid] + s[mid..hi] == s[lo..hi];
  }

  /** The inner loop: one row of pixels. */
  method WalkRow(cf: Format, alpha: bool, w: nat, dOut: seq<nat>, i0: nat, tmpArr0: seq<nat>)
    returns (i: nat, tmpArr: seq<nat>)
    requires i0 + RowLen(cf, alpha, w) <= |dOut|
    ensures i == i0 + RowLen(cf, alpha, w)
    ensures tmpArr == tmpArr0 + dOut[i0..i]
  {
    hide RowLen, BytesTaken;
    i, tmpArr := i0, tmpArr0;
    RowLenZero(cf, alpha);
    var x := 0;
    while x < w
      invariant x <= w && i0 <= i == i0 + RowLen(cf, alpha, x) <= |dOut|
      invariant tmpArr == tmpArr0 + dOut[i0..i]
    {
      Consumed(cf, alpha, w, x);
      var n := BytesTaken(cf, alpha, x);
      tmpArr := tmpArr + dOut[i..i + n];
      NextPiece(tmpArr0, dOut, i0, i, i + n);
      i := i + n;
      x := x + 1;
    }
  }

  lemma RowLenZero(cf: Format, alpha: bool)
    ensures RowLen(cf, alpha, 0) == 0
  {
  }

  /** How many bytes the branch for one pixel appends. */
  function BytesTaken(cf: Format, alpha: bool, x: nat): nat {
    match cf
    case Rgb332 => if alpha then 2 else 1
    case Rgb565 => if alpha then 3 else 2
    case Rgb565Swap => if alpha then 3 else 2
    case Rgb888 => 4
    case Alpha1 => if x % 8 == 0 then 1 else 0
    case Indexed1 => if x % 8 == 0 then 1 else 0
    case Alpha2 => if x % 4 == 0 then 1 else 0
    case Indexed2 => if x % 4 == 0 then 1 else 0
    case Alpha4 => if x % 2 == 0 then 1 else 0
    case Indexed4 => if x % 2 == 0 then 1 else 0
    case _ => 1
  }

  lemma Consumed(cf: Format, alpha: bool, w: nat, x: nat)
    requires x < w
    ensures RowLen(cf, alpha, x) + BytesTaken(cf, alpha, x) == RowLen(cf, alpha, x + 1) <= RowLen(cf, alpha, w)
  {
    if TrueColour(cf) {
      ConsumedColour(cf, alpha, w, x);
    } else {
      StrideNext(x, w, DepthOf(cf));
    }
  }

  lemma StrideNext(x: nat, w: nat, n: Depth)
    requires x < w
    ensures Stride(x + 1, n) == Stride(x, n) + (if FieldOf(x, n) == 0 then 1 else 0)
    ensures Stride(x + 1, n) <= Stride(w, n)
  {
  }

  lemma ConsumedColour(cf: Format, alpha: bool, w: nat, x: nat)
    requires x < w && TrueColour(cf)
    ensures RowLen(cf, alpha, x) + BytesTaken(cf, alpha, x) == RowLen(cf, alpha, x + 1) <= RowLen(cf, alpha, w)
  {
    var m := BytesPerPixel(cf, alpha);
    assert (x + 1) * m == x * m + m;
    assert w * m == (x + 1) * m + (w - x - 1) * m;
  }

  /** Values printed on one line of the array. */
  function LineLen(cf: Format, alpha: bool, w: nat): nat {
    match cf
    case Rgb565 => w * if alpha then 3 else 2
    case Rgb565Swap => w * if alpha then 3 else 2
    case Rgb888 => w * 4
    case Alpha1 => w / 8
    case Indexed1 => w / 8
    case Alpha2 => w / 4
    case Indexed2 => w / 4
    case Alpha4 => w / 2
    case Indexed4 => w / 2
    case _ => w
  }

  /** The first h lines: slices of `m` values, cut short at the end as Python slices are. */
  function Printed(tmpArr: seq<nat>, m: nat, h: nat): seq<nat> {
    if h == 0 then [] else Printed(tmpArr, m, h - 1) + Line(tmpArr, (h - 1) * m, h * m)
  }

  function Line(s: seq<nat>, lo: nat, hi: nat): seq<nat> {
    var b := if hi <= |s| then hi else |s|;
    if lo <= b then s[lo..b] else []
  }

  lemma {:induction false} PrintedPrefix(tmpArr: seq<nat>, m: nat, h: nat)
    requires h * m <= |tmpArr|
    ensures Printed(tmpArr, m, h) == tmpArr[..h * m]
    decreases h
  {
    if h > 0 {
      assert h * m == (h - 1) * m + m;
      PrintedPrefix(tmpArr, m, h - 1);
    }
  }

  /** The printed lines carry every data byte exactly when rows fill whole bytes and
      the format is not RGB332 with alpha; otherwise the tail of the data is missing: only as
      many whole bytes as the pixels of a row fill are counted, or one byte for each. */
  lemma PrintedIsComplete(cf: Format, alpha: bool, w: nat, h: nat, tmpArr: seq<nat>)
    requires w > 0 && h > 0 && |tmpArr| == h * RowLen(cf, alpha, w)
    ensures Printed(tmpArr, LineLen(cf, alpha, w), h) == tmpArr <==>
              (TrueColour(cf) || FieldOf(w, DepthOf(cf)) == 0) && !(cf.Rgb332? && alpha)
    ensures var perLine := if !TrueColour(cf) then w * DepthOf(cf) / 8
                           else if cf.Rgb332? then w else RowLen(cf, alpha, w);
            h * perLine <= |tmpArr| && Printed(tmpArr, LineLen(cf, alpha, w), h) == tmpArr[..h * perLine]
  {
    var m, full := LineLen(cf, alpha, w), RowLen(cf, alpha, w);
    LineFits(cf, alpha, w);
    Scale(h, m, full);
    PrintedPrefix(tmpArr, m, h);
  }

  lemma LineFits(cf: Format, alpha: bool, w: nat)
    requires w > 0
    ensures LineLen(cf, alpha, w) <= RowLen(cf, alpha, w)
    ensures LineLen(cf, alpha, w) == (if !TrueColour(cf) then w * DepthOf(cf) / 8
                                      else if cf.Rgb332? then w else RowLen(cf, alpha, w))
    ensures LineLen(cf, alpha, w) == RowLen(cf, alpha, w) <==>
              (TrueColour(cf) || FieldOf(w, DepthOf(cf)) == 0) && !(cf.Rgb332? && alpha)
  {
  }

  lemma Scale(h: nat, m: nat, n: nat)
    requires h > 0 && m <= n
    ensures h * m <= h * n && (h * m == h * n <==> m == n)
  {
    assert h * n == h * m + h * (n - m);
    if m < n {
      assert h * (n - m) == h + h * (n - m - 1);
    }
  }

  // ----- binary file

  datatype BinFormat = Of(cf: Format) | TrueColor | TrueColorAlpha | TrueColorChroma

  /** The colour format number of lvgl; formats missing from the table get 4. */
  function LvCf(f: BinFormat): nat {
    match f
    case TrueColor => 4
    case TrueColorAlpha => 5
    case TrueColorChroma => 6
    case Of(cf) =>
      match cf
      case Indexed1 => 7
      case Indexed2 => 8
      case Indexed4 => 9
      case Indexed8 => 10
      case Alpha1 => 11
      case Alpha2 => 12
      case Alpha4 => 13
      case Alpha8 => 14
      case _ => 4
  }

  /** The numbers fit ten bits and tell formats apart, but for those missing from the table. */
  lemma LvCfTellsApart(f: BinFormat, g: BinFormat)
    ensures 0 < LvCf(f) < 1024
    ensures LvCf(f) == LvCf(g) <==> f == g || (Unlisted(f) && Unlisted(g))
  {
  }

  /** The indexed and the alpha formats are numbered by depth, from 7 and from 11 on. */
  lemma LvCfByDepth(cf: Format)
    requires !TrueColour(cf)
    ensures var k := LvCf(Of(cf)) - (if PaletteSize(cf) > 0 then 7 else 11);
            0 <= k <= 3 && DepthOf(cf) == Pow2(k)
  {
    Pow2Small();
  }

  /** Plain true colour, and the converter's true colour formats. */
  predicate Unlisted(f: BinFormat) {
    f.TrueColor? || (f.Of? && TrueColour(f.cf))
  }

  datatype PackResult = StructError | Packed(bytes: seq<Byte>)

  /** `get_bin_file`: the header must fit 32 bits, which `struct.pack` checks. */
  function BinFile(f: BinFormat, w: nat, h: nat, content: seq<Byte>): PackResult {
    var header := LvCf(f) + w * 1024 + h * 2097152;
    if header >= 0x1_0000_0000 then StructError else Packed(Le(header, 4) + content)
  }

  datatype BinImage = BinImage(lvCf: nat, w: nat, h: nat, content: seq<Byte>)

  /** The header fields as lvgl declares them: 10 bits of format, 11 of width, 11 of height. */
  function ReadBinFile(bytes: seq<Byte>): BinImage
    requires |bytes| >= 4
  {
    var header := LeValue(bytes[..4]);
    BinImage(header % 1024, header / 1024 % 2048, header / 2097152, bytes[4..])
  }

  /** The file can be written and read back exactly for images below 2048 by 2048. */
  lemma BinFileRoundTrip(f: BinFormat, w: nat, h: nat, content: seq<Byte>)
    ensures (match BinFile(f, w, h, content)
             case StructError => false
             case Packed(bytes) => |bytes| >= 4 && ReadBinFile(bytes) == BinImage(LvCf(f), w, h, content))
            <==> w < 2048 && h < 2048
  {
    hide Le, LeValue, LvCf;
    var header := LvCf(f) + w * 1024 + h * 2097152;
    LvCfTellsApart(f, f);
    if header < 0x1_0000_0000 {
      Widths();
      LeRoundTrip(header, 4);
      var bytes := Le(header, 4) + content;
      assert bytes[..4] == Le(header, 4) && bytes[4..] == content;
      assert header / 1024 == w + h * 2048;
    }
  }
}

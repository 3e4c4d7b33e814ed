/** The image formats of the converter and the byte layout they promise: palette,
    then rows of equal length, each row packed samples or whole pixels. */
module ImageFormat {
  import opened Bits
  import opened Bytes
  import opened Packing
  import opened Dither

  datatype Format =
    | Rgb332 | Rgb565 | Rgb565Swap | Rgb888
    | Alpha1 | Alpha2 | Alpha4 | Alpha8
    | Indexed1 | Indexed2 | Indexed4 | Indexed8

  /** A pixel as the converter reads it: colour, opacity, and palette index. */
  datatype Pixel = Pixel(r: Byte, g: Byte, b: Byte, a: Byte, index: Byte)

  predicate TrueColour(cf: Format) {
    cf.Rgb332? || cf.Rgb565? || cf.Rgb565Swap? || cf.Rgb888?
  }

  // ----- packed formats

  /** Bits per sample of the alpha and indexed formats. */
  function DepthOf(cf: Format): Depth {
    match cf
    case Alpha1 => 1
    case Indexed1 => 1
    case Alpha2 => 2
    case Indexed2 => 2
    case Alpha4 => 4
    case Indexed4 => 4
    case _ => 8
  }

  /** The n-bit sample a pixel contributes. */
  function Sample(cf: Format, p: Pixel): nat
    requires !TrueColour(cf)
  {
    match cf
    case Alpha1 => if p.a > 0x80 then 1 else 0
    case Alpha2 => p.a / 64
    case Alpha4 => p.a / 16
    case Alpha8 => p.a
    case Indexed1 => p.index % 2
    case Indexed2 => p.index % 4
    case Indexed4 => p.index % 16
    case Indexed8 => p.index
  }

  /** What a sample says about its pixel: the opacity to within one step, or the index. */
  predicate SampleOf(cf: Format, f: nat, p: Pixel) {
    match cf
    case Alpha1 => f <= 1 && (f == 1 <==> p.a > 128)
    case Alpha2 => 64 * f <= p.a < 64 * (f + 1)
    case Alpha4 => 16 * f <= p.a < 16 * (f + 1)
    case Alpha8 => f == p.a
    case Indexed1 => f < 2 && (p.index - f) % 2 == 0 && (p.index < 2 ==> f == p.index)
    case Indexed2 => f < 4 && (p.index - f) % 4 == 0 && (p.index < 4 ==> f == p.index)
    case Indexed4 => f < 16 && (p.index - f) % 16 == 0 && (p.index < 16 ==> f == p.index)
    case Indexed8 => f == p.index
    case _ => false
  }

  lemma SampleMeaning(cf: Format, p: Pixel)
    requires !TrueColour(cf)
    ensures SampleOf(cf, Sample(cf, p), p)
  {
  }

  function RowSamples(cf: Format, row: seq<Pixel>): (s: seq<nat>)
    requires !TrueColour(cf)
    ensures |s| == |row|
    ensures forall i :: 0 <= i < |row| ==> s[i] == Sample(cf, row[i])
  {
    seq(|row|, i requires 0 <= i < |row| => Sample(cf, row[i]))
  }

  lemma SampleFits(cf: Format, row: seq<Pixel>)
    requires !TrueColour(cf)
    ensures Samples(RowSamples(cf, row), DepthOf(cf))
  {
    Pow2Small();
  }

  // ----- true colour formats

  datatype Rgb = Rgb(r: int, g: int, b: int)

  datatype Channel = Red | Green | Blue

  function Value(p: Pixel, ch: Channel): int {
    match ch
    case Red => p.r
    case Green => p.g
    case Blue => p.b
  }

  /** How each channel is quantised; formats without colour leave it alone. */
  function QuantOf(cf: Format, ch: Channel): (q: Quant)
    ensures ValidQuant(q) && (q.To? <==> TrueColour(cf))
  {
    match cf
    case Rgb332 => To(if ch.Blue? then 2 else 3)
    case Rgb565 => To(if ch.Green? then 6 else 5)
    case Rgb565Swap => To(if ch.Green? then 6 else 5)
    case Rgb888 => To(8)
    case _ => Exact
  }

  /** A colour made of representable levels is kept as it is, so no level is missed. */
  lemma LevelsAreKept(cf: Format, c: Rgb)
    requires TrueColour(cf) && Levels(cf, c)
    ensures Quantise(c.r, QuantOf(cf, Red)) == c.r
    ensures Quantise(c.g, QuantOf(cf, Green)) == c.g
    ensures Quantise(c.b, QuantOf(cf, Blue)) == c.b
  {
    hide Quantise, IsLevel;
    QuantiseClamps(c.r, QuantOf(cf, Red));
    QuantiseClamps(c.g, QuantOf(cf, Green));
    QuantiseClamps(c.b, QuantOf(cf, Blue));
  }

  predicate Levels(cf: Format, c: Rgb) {
    match cf
    case Rgb332 => IsLevel(c.r, 3) && IsLevel(c.g, 3) && IsLevel(c.b, 2)
    case Rgb565 => IsLevel(c.r, 5) && IsLevel(c.g, 6) && IsLevel(c.b, 5)
    case Rgb565Swap => IsLevel(c.r, 5) && IsLevel(c.g, 6) && IsLevel(c.b, 5)
    case Rgb888 => IsLevel(c.r, 8) && IsLevel(c.g, 8) && IsLevel(c.b, 8)
    case _ => false
  }

  function BytesPerPixel(cf: Format, alpha: bool): (n: nat)
    ensures n > 0
  {
    match cf
    case Rgb888 => 4
    case Rgb332 => if alpha then 2 else 1
    case _ => if alpha then 3 else 2
  }

  /** The bytes of one pixel whose channels hold levels. */
  function PixelBytes(cf: Format, alpha: bool, c: Rgb, a: Byte): (s: seq<nat>)
    requires TrueColour(cf) && Levels(cf, c)
    ensures |s| == BytesPerPixel(cf, alpha)
  {
    var tail := if alpha then [a] else [];
    match cf
    case Rgb332 => [c.r + c.g / 8 + c.b / 64] + tail
    case Rgb565 => var v := c.r * 256 + c.g * 8 + c.b / 8; [v % 256, v / 256] + tail
    case Rgb565Swap => var v := c.r * 256 + c.g * 8 + c.b / 8; [v / 256, v % 256] + tail
    case Rgb888 => [c.b, c.g, c.r, a]
  }

  /** What a display reads back from the bytes of a pixel. */
  function DecodePixel(cf: Format, s: seq<nat>): Rgb
    requires TrueColour(cf) && |s| >= BytesPerPixel(cf, false)
  {
    match cf
    case Rgb332 => Rgb(s[0] / 32 * 32, s[0] / 4 % 8 * 32, s[0] % 4 * 64)
    case Rgb565 => Unpack565(s[0] + 256 * s[1])
    case Rgb565Swap => Unpack565(s[1] + 256 * s[0])
    case Rgb888 => Rgb(s[2], s[1], s[0])
  }

  function Unpack565(v: nat): Rgb {
    Rgb(v / 2048 * 8, v / 32 % 64 * 4, v % 32 * 8)
  }

  lemma Fields332(i: nat, j: nat, k: nat)
    requires i < 8 && j < 8 && k < 4
    ensures var v := 32 * i + 4 * j + k;
            v < 256 && v / 32 == i && v / 4 % 8 == j && v % 4 == k
  {
  }

  lemma RoundTrip332(r: int, g: int, b: int)
    requires IsLevel(r, 3) && IsLevel(g, 3) && IsLevel(b, 2)
    ensures var v := r + g / 8 + b / 64;
            v < 256 && Rgb(v / 32 * 32, v / 4 % 8 * 32, v % 4 * 64) == Rgb(r, g, b)
  {
    var i, j, k := r / 32, g / 32, b / 64;
    assert r == 32 * i && g == 32 * j && b == 64 * k;
    Fields332(i, j, k);
  }

  lemma Fields565(i: nat, j: nat, k: nat)
    requires i < 32 && j < 64 && k < 32
    ensures var v := 2048 * i + 32 * j + k;
            v < 65536 && v / 2048 == i && v / 32 % 64 == j && v % 32 == k
  {
  }

  /** Channel fields are disjoint: every level is read back, next to the alpha byte. */
  lemma PixelRoundTrip(cf: Format, alpha: bool, c: Rgb, a: Byte)
    requires TrueColour(cf) && Levels(cf, c)
    ensures var s := PixelBytes(cf, alpha, c, a);
            && DecodePixel(cf, s) == c
            && (alpha || cf.Rgb888? ==> s[|s| - 1] == a)
            && (forall i :: 0 <= i < |s| ==> s[i] < 256)
  {
    if cf.Rgb332? {
      RoundTrip332(c.r, c.g, c.b);
    } else if cf.Rgb565? || cf.Rgb565Swap? {
      RoundTrip565(c.r, c.g, c.b);
    }
  }

  lemma RoundTrip565(r: int, g: int, b: int)
    requires 0 <= r <= 248 && r % 8 == 0 && 0 <= g <= 252 && g % 4 == 0 && 0 <= b <= 248 && b % 8 == 0
    ensures var v := r * 256 + g * 8 + b / 8;
            v < 65536 && Unpack565(v) == Rgb(r, g, b) && v % 256 + 256 * (v / 256) == v
  {
    var i, j, k := r / 8, g / 4, b / 8;
    assert r == 8 * i && g == 4 * j && b == 8 * k;
    Fields565(i, j, k);
  }

  /** The bytes in terms of the levels: RGB565 as a 16 bit word, low byte first or, swapped,
      high byte first; RGB332 as one byte; RGB888 as blue, green, red. */
  lemma PixelWords(cf: Format, alpha: bool, c: Rgb, a: Byte)
    requires TrueColour(cf) && Levels(cf, c)
    ensures var s := PixelBytes(cf, alpha, c, a);
            var word := c.r / 8 * 2048 + c.g / 4 * 32 + c.b / 8;
            && (cf.Rgb565? ==> s[0] + 256 * s[1] == word)
            && (cf.Rgb565Swap? ==> s[1] + 256 * s[0] == word)
            && (cf.Rgb332? ==> s[0] == c.r / 32 * 32 + c.g / 32 * 4 + c.b / 64)
            && (cf.Rgb888? ==> s[0] == c.b && s[1] == c.g && s[2] == c.r)
  {
  }

  // ----- dithered levels of a row

  function Values(row: seq<Pixel>, ch: Channel): (vs: seq<int>)
    ensures |vs| == |row|
    ensures forall i :: 0 <= i < |row| ==> vs[i] == Value(row[i], ch)
  {
    seq(|row|, i requires 0 <= i < |row| => Value(row[i], ch))
  }

  /** The accumulators of the three channels. */
  datatype Acc = Acc(r: seq<int>, g: seq<int>, b: seq<int>)

  predicate AccWidth(acc: Acc, w: nat) {
    |acc.r| == |acc.g| == |acc.b| == w + 2
  }

  function Slots(acc: Acc, ch: Channel): seq<int> {
    match ch
    case Red => acc.r
    case Green => acc.g
    case Blue => acc.b
  }

  /** Level of one channel at column x of a row. */
  function LevelAt(cf: Format, dither: bool, acc: Acc, row: seq<Pixel>, x: nat, ch: Channel): int
    requires AccWidth(acc, |row|) && x < |row|
  {
    var q, vs := QuantOf(cf, ch), Values(row, ch);
    if dither then Act(RowChan(Slots(acc, ch), vs, x, q), vs[x], x, q) else Quantise(vs[x], q)
  }

  function ColourAt(cf: Format, dither: bool, acc: Acc, row: seq<Pixel>, x: nat): (c: Rgb)
    requires AccWidth(acc, |row|) && x < |row|
    ensures TrueColour(cf) ==> Levels(cf, c)
  {
    QuantisedIsLevel(cf, dither, acc, row, x, Red);
    QuantisedIsLevel(cf, dither, acc, row, x, Green);
    QuantisedIsLevel(cf, dither, acc, row, x, Blue);
    Rgb(LevelAt(cf, dither, acc, row, x, Red),
        LevelAt(cf, dither, acc, row, x, Green),
        LevelAt(cf, dither, acc, row, x, Blue))
  }

  lemma QuantisedIsLevel(cf: Format, dither: bool, acc: Acc, row: seq<Pixel>, x: nat, ch: Channel)
    requires AccWidth(acc, |row|) && x < |row|
    ensures TrueColour(cf) ==> IsLevel(LevelAt(cf, dither, acc, row, x, ch), QuantOf(cf, ch).bits)
  {
    if TrueColour(cf) {
      var q, vs := QuantOf(cf, ch), Values(row, ch);
      QuantiseLevel(if dither then Seen(RowChan(Slots(acc, ch), vs, x, q), vs[x], x) else vs[x], q);
    }
  }

  // ----- rows and images

  function Concat(blocks: seq<seq<nat>>): seq<nat> {
    if blocks == [] then [] else Concat(blocks[..|blocks| - 1]) + blocks[|blocks| - 1]
  }

  lemma {:induction false} ConcatLength(blocks: seq<seq<nat>>, m: nat)
    requires forall j :: 0 <= j < |blocks| ==> |blocks[j]| == m
    ensures |Concat(blocks)| == |blocks| * m
  {
    if blocks != [] {
      var n := |blocks| - 1;
      ConcatLength(blocks[..n], m);
      assert (n + 1) * m == n * m + m;
    }
  }

  /** Blocks of equal length are found at the multiples of that length. */
  lemma {:induction false} ConcatBlock(blocks: seq<seq<nat>>, m: nat, i: nat)
    requires forall j :: 0 <= j < |blocks| ==> |blocks[j]| == m
    requires i < |blocks|
    ensures i * m + m <= |Concat(blocks)| && Concat(blocks)[i * m..i * m + m] == blocks[i]
    decreases |blocks|
  {
    var n := |blocks| - 1;
    var before := Concat(blocks[..n]);
    ConcatLength(blocks[..n], m);
    if i < n {
      ConcatBlock(blocks[..n], m, i);
      SliceOfConcat(before, blocks[n], i * m, i * m + m);
    } else {
      assert (before + blocks[n])[|before|..|before| + m] == blocks[n];
    }
  }

  lemma SliceOfConcat(s: seq<nat>, t: seq<nat>, lo: nat, hi: nat)
    requires lo <= hi <= |s|
    ensures (s + t)[lo..hi] == s[lo..hi]
  {
  }

  function PixelBlocks(cf: Format, alpha: bool, dither: bool, acc: Acc, row: seq<Pixel>, x: nat): (s: seq<seq<nat>>)
    requires TrueColour(cf) && AccWidth(acc, |row|) && x <= |row|
    ensures |s| == x
  {
    if x == 0 then []
    else PixelBlocks(cf, alpha, dither, acc, row, x - 1)
         + [PixelBytes(cf, alpha, ColourAt(cf, dither, acc, row, x - 1), row[x - 1].a)]
  }

  lemma {:induction false} PixelBlockAt(cf: Format, alpha: bool, dither: bool, acc: Acc, row: seq<Pixel>,
                                        x: nat, i: nat)
    requires TrueColour(cf) && AccWidth(acc, |row|) && i < x <= |row|
    ensures PixelBlocks(cf, alpha, dither, acc, row, x)[i] ==
            PixelBytes(cf, alpha, ColourAt(cf, dither, acc, row, i), row[i].a)
    decreases x
  {
    if i < x - 1 {
      PixelBlockAt(cf, alpha, dither, acc, row, x - 1, i);
    }
  }

  /** The bytes of the first x pixels of a row. */
  function RowOut(cf: Format, alpha: bool, dither: bool, acc: Acc, row: seq<Pixel>, x: nat): seq<nat>
    requires AccWidth(acc, |row|) && x <= |row|
  {
    if TrueColour(cf) then Concat(PixelBlocks(cf, alpha, dither, acc, row, x))
    else PackRow(RowSamples(cf, row[..x]), DepthOf(cf))
  }

  lemma PixelBlockLengths(cf: Format, alpha: bool, dither: bool, acc: Acc, row: seq<Pixel>, x: nat)
    requires TrueColour(cf) && AccWidth(acc, |row|) && x <= |row|
    ensures forall i :: 0 <= i < x ==> |PixelBlocks(cf, alpha, dither, acc, row, x)[i]| == BytesPerPixel(cf, alpha)
  {
    forall i | 0 <= i < x
      ensures |PixelBlocks(cf, alpha, dither, acc, row, x)[i]| == BytesPerPixel(cf, alpha)
    {
      PixelBlockAt(cf, alpha, dither, acc, row, x, i);
    }
  }

  function RowLen(cf: Format, alpha: bool, w: nat): nat {
    if TrueColour(cf) then w * BytesPerPixel(cf, alpha) else Stride(w, DepthOf(cf))
  }

  lemma RowOutLength(cf: Format, alpha: bool, dither: bool, acc: Acc, row: seq<Pixel>)
    requires AccWidth(acc, |row|)
    ensures |RowOut(cf, alpha, dither, acc, row, |row|)| == RowLen(cf, alpha, |row|)
  {
    if TrueColour(cf) {
      PixelBlockLengths(cf, alpha, dither, acc, row, |row|);
      ConcatLength(PixelBlocks(cf, alpha, dither, acc, row, |row|), BytesPerPixel(cf, alpha));
    } else {
      RowLength(RowSamples(cf, row[..|row|]), DepthOf(cf));
    }
  }

  predicate Image(img: seq<seq<Pixel>>, w: nat) {
    forall y :: 0 <= y < |img| ==> |img[y]| == w
  }

  /** The accumulators after converting some rows; undithered conversions leave them alone. */
  function AccAfter(cf: Format, dither: bool, acc: Acc, img: seq<seq<Pixel>>, w: nat): (r: Acc)
    requires AccWidth(acc, w) && Image(img, w)
    ensures AccWidth(r, w)
  {
    if img == [] || !dither then acc
    else
      var before := AccAfter(cf, dither, acc, img[..|img| - 1], w);
      var row := img[|img| - 1];
      Acc(RowChan(before.r, Values(row, Red), w, QuantOf(cf, Red)).earr,
          RowChan(before.g, Values(row, Green), w, QuantOf(cf, Green)).earr,
          RowChan(before.b, Values(row, Blue), w, QuantOf(cf, Blue)).earr)
  }

  function ImageRows(cf: Format, alpha: bool, dither: bool, acc: Acc, img: seq<seq<Pixel>>, w: nat): (s: seq<seq<nat>>)
    requires AccWidth(acc, w) && Image(img, w)
    ensures |s| == |img|
  {
    if img == [] then []
    else
      var n := |img| - 1;
      ImageRows(cf, alpha, dither, acc, img[..n], w)
      + [RowOut(cf, alpha, dither, AccAfter(cf, dither, acc, img[..n], w), img[n], w)]
  }

  lemma {:induction false} ImageRow(cf: Format, alpha: bool, dither: bool, acc: Acc, img: seq<seq<Pixel>>,
                                    w: nat, y: nat)
    requires AccWidth(acc, w) && Image(img, w) && y < |img|
    ensures ImageRows(cf, alpha, dither, acc, img, w)[y] ==
            RowOut(cf, alpha, dither, AccAfter(cf, dither, acc, img[..y], w), img[y], w)
    ensures |ImageRows(cf, alpha, dither, acc, img, w)[y]| == RowLen(cf, alpha, w)
    decreases |img|
  {
    hide RowOut, RowLen, AccAfter;
    var n := |img| - 1;
    if y == n {
      RowOutLength(cf, alpha, dither, AccAfter(cf, dither, acc, img[..n], w), img[n]);
    } else {
      ImageRow(cf, alpha, dither, acc, img[..n], w, y);
      assert img[..n][..y] == img[..y];
    }
  }

  // ----- palette

  function PaletteSize(cf: Format): nat {
    match cf
    case Indexed1 => 2
    case Indexed2 => 4
    case Indexed4 => 16
    case Indexed8 => 256
    case _ => 0
  }

  /** The palette has an entry for every index a sample can hold, and other formats none. */
  lemma PaletteSizeIs(cf: Format)
    ensures PaletteSize(cf) == (if cf.Indexed1? || cf.Indexed2? || cf.Indexed4? || cf.Indexed8?
                                then Pow2(DepthOf(cf)) else 0)
  {
    Pow2Small();
  }

  /** Entry i of the palette: its colour and an opaque alpha, white beyond the colours in use. */
  function PaletteEntry(colours: seq<Rgb>, i: nat, bgr: bool): (s: seq<nat>)
    requires ByteColours(colours)
    ensures |s| == 4
  {
    if i < |colours| then
      var c := colours[i];
      if bgr then [c.b, c.g, c.r, 255] else [c.r, c.g, c.b, 255]
    else [255, 255, 255, 255]
  }

  predicate ByteColours(colours: seq<Rgb>) {
    forall i {:trigger colours[i]} :: 0 <= i < |colours| ==>
      0 <= colours[i].r < 256 && 0 <= colours[i].g < 256 && 0 <= colours[i].b < 256
  }

  function PaletteEntries(colours: seq<Rgb>, bgr: bool, n: nat): (s: seq<seq<nat>>)
    requires ByteColours(colours)
    ensures |s| == n
    ensures forall i :: 0 <= i < n ==> |s[i]| == 4
  {
    if n == 0 then [] else PaletteEntries(colours, bgr, n - 1) + [PaletteEntry(colours, n - 1, bgr)]
  }

  /** The whole output of a conversion. */
  function ImageOut(cf: Format, alpha: bool, dither: bool, acc: Acc, img: seq<seq<Pixel>>, w: nat,
                    colours: seq<Rgb>, bgr: bool): seq<nat>
    requires AccWidth(acc, w) && Image(img, w) && ByteColours(colours)
  {
    Concat(PaletteEntries(colours, bgr, PaletteSize(cf)))
    + Concat(ImageRows(cf, alpha, dither, acc, img, w))
  }
}

/** What the output of a conversion means: every byte position and bit field, and
    the bounds of the dithering accumulators over any sequence of conversions. */
module ImageLayout {
  import opened Bits
  import opened Bytes
  import opened Packing
  import opened Dither
  import opened ImageFormat

  /** A conversion: its parameters and the image it reads. */
  datatype Job = Job(cf: Format, alpha: bool, dither: bool, acc: Acc, img: seq<seq<Pixel>>, w: nat,
                     colours: seq<Rgb>, bgr: bool)

  predicate ValidJob(j: Job) {
    AccWidth(j.acc, j.w) && Image(j.img, j.w) && ByteColours(j.colours)
  }

  function Out(j: Job): seq<nat>
    requires ValidJob(j)
  {
    ImageOut(j.cf, j.alpha, j.dither, j.acc, j.img, j.w, j.colours, j.bgr)
  }

  function PaletteLen(j: Job): nat {
    4 * PaletteSize(j.cf)
  }

  function RowBase(j: Job, y: nat): nat {
    PaletteLen(j) + y * RowLen(j.cf, j.alpha, j.w)
  }

  function OutRow(j: Job, y: nat): seq<nat>
    requires ValidJob(j) && y < |j.img|
  {
    RowOut(j.cf, j.alpha, j.dither, AccAfter(j.cf, j.dither, j.acc, j.img[..y], j.w), j.img[y], j.w)
  }

  /** The output is the palette followed by h rows of equal length, nothing else. */
  lemma Rows(j: Job, y: nat)
    requires ValidJob(j)
    ensures |Out(j)| == RowBase(j, |j.img|)
    ensures y < |j.img| ==>
              && |OutRow(j, y)| == RowLen(j.cf, j.alpha, j.w)
              && RowBase(j, y) + |OutRow(j, y)| <= |Out(j)|
              && Out(j)[RowBase(j, y)..RowBase(j, y) + |OutRow(j, y)|] == OutRow(j, y)
  {
    hide PaletteEntries, ImageRows, RowOut, AccAfter, RowLen, PaletteSize;
    var pal := Concat(PaletteEntries(j.colours, j.bgr, PaletteSize(j.cf)));
    var rows := ImageRows(j.cf, j.alpha, j.dither, j.acc, j.img, j.w);
    var m := RowLen(j.cf, j.alpha, j.w);
    ConcatLength(PaletteEntries(j.colours, j.bgr, PaletteSize(j.cf)), 4);
    forall i | 0 <= i < |rows|
      ensures |rows[i]| == m
    {
      ImageRow(j.cf, j.alpha, j.dither, j.acc, j.img, j.w, i);
    }
    if y < |j.img| {
      ImageRow(j.cf, j.alpha, j.dither, j.acc, j.img, j.w, y);
    }
    BlocksAfter(pal, rows, m, y);
  }

  lemma BlocksAfter(s: seq<nat>, rows: seq<seq<nat>>, m: nat, y: nat)
    requires forall i :: 0 <= i < |rows| ==> |rows[i]| == m
    ensures |s + Concat(rows)| == |s| + |rows| * m
    ensures y < |rows| ==>
              && |s| + y * m + m <= |s + Concat(rows)|
              && (s + Concat(rows))[|s| + y * m..|s| + y * m + m] == rows[y]
  {
    ConcatLength(rows, m);
    if y < |rows| {
      ConcatBlock(rows, m, y);
      SliceAfter(s, Concat(rows), y * m, y * m + m);
    }
  }

  lemma SliceAfter(s: seq<nat>, t: seq<nat>, lo: nat, hi: nat)
    requires lo <= hi <= |t|
    ensures (s + t)[|s| + lo..|s| + hi] == t[lo..hi]
  {
  }

  lemma RowIndex(j: Job, y: nat, i: nat)
    requires ValidJob(j) && y < |j.img| && i < RowLen(j.cf, j.alpha, j.w)
    ensures |OutRow(j, y)| == RowLen(j.cf, j.alpha, j.w)
    ensures RowBase(j, y) + i < |Out(j)| && Out(j)[RowBase(j, y) + i] == OutRow(j, y)[i]
  {
    Rows(j, y);
    assert Out(j)[RowBase(j, y)..RowBase(j, y) + |OutRow(j, y)|][i] == OutRow(j, y)[i];
  }

  /** Alpha and indexed formats: the output has palette + stride * h bytes, the n-bit
      field of pixel (x, y) holds its sample, and the padding bits of a row are zero. */
  lemma PackedLayout(j: Job, y: nat, x: nat)
    requires ValidJob(j) && !TrueColour(j.cf) && y < |j.img| && x < j.w
    ensures var n := DepthOf(j.cf);
            && |Out(j)| == RowBase(j, |j.img|)
            && RowBase(j, y) + ByteOf(x, n) < |Out(j)|
            && Field(Out(j)[RowBase(j, y) + ByteOf(x, n)], FieldOf(x, n), n) == Sample(j.cf, j.img[y][x])
            && SampleOf(j.cf, Field(Out(j)[RowBase(j, y) + ByteOf(x, n)], FieldOf(x, n), n), j.img[y][x])
    ensures var n := DepthOf(j.cf); var last := RowBase(j, y) + Stride(j.w, n) - 1;
            FieldOf(j.w, n) != 0 ==>
              0 <= last < |Out(j)| && Low(Out(j)[last], Room(FieldOf(j.w, n), n)) == 0
  {
    hide RowBase, Out, PackRow, Field, DepthOf, Sample, SampleOf, Low, Pow2, AccAfter;
    SampleMeaning(j.cf, j.img[y][x]);
    var n := DepthOf(j.cf);
    assert j.img[y][..j.w] == j.img[y];
    var s := RowSamples(j.cf, j.img[y]);
    Rows(j, y);
    RowLength(s, n);
    SampleFits(j.cf, j.img[y]);
    RowField(s, x, n);
    RowIndex(j, y, ByteOf(x, n));
    if FieldOf(j.w, n) != 0 {
      RowPadding(s, n);
      RowIndex(j, y, Stride(j.w, n) - 1);
    }
  }

  /** The samples of a row read back from the output. */
  function ReadRow(bytes: seq<nat>, base: nat, x: nat, n: Depth): seq<nat>
    requires x > 0 ==> base + ByteOf(x - 1, n) < |bytes|
  {
    if x == 0 then []
    else
      assert x > 1 ==> ByteOf(x - 2, n) <= ByteOf(x - 1, n);
      ReadRow(bytes, base, x - 1, n) + [Field(bytes[base + ByteOf(x - 1, n)], FieldOf(x - 1, n), n)]
  }

  /** Decoding a row of the output gives exactly the quantised image row. */
  lemma {:induction false} PackedRoundTrip(j: Job, y: nat, x: nat)
    requires ValidJob(j) && !TrueColour(j.cf) && y < |j.img| && x <= j.w
    ensures x > 0 ==> RowBase(j, y) + ByteOf(x - 1, DepthOf(j.cf)) < |Out(j)|
    ensures ReadRow(Out(j), RowBase(j, y), x, DepthOf(j.cf)) == RowSamples(j.cf, j.img[y][..x])
    decreases x
  {
    if x > 0 {
      PackedRoundTrip(j, y, x - 1);
      PackedLayout(j, y, x - 1);
      assert RowSamples(j.cf, j.img[y][..x]) ==
             RowSamples(j.cf, j.img[y][..x - 1]) + [Sample(j.cf, j.img[y][x - 1])];
    }
  }

  /** Position of pixel (x, y) in a true colour output. */
  function PixelBase(j: Job, y: nat, x: nat): nat {
    (y * j.w + x) * BytesPerPixel(j.cf, j.alpha)
  }

  /** Colour of pixel (x, y) after quantisation. */
  function PixelColour(j: Job, y: nat, x: nat): Rgb
    requires ValidJob(j) && y < |j.img| && x < j.w
  {
    ColourAt(j.cf, j.dither, AccAfter(j.cf, j.dither, j.acc, j.img[..y], j.w), j.img[y], x)
  }

  /** The value of a channel of pixel (x, y) together with the errors handed on to it. */
  function ValueRead(j: Job, y: nat, x: nat, ch: Channel): int
    requires ValidJob(j) && y < |j.img| && x < j.w
  {
    var acc := AccAfter(j.cf, j.dither, j.acc, j.img[..y], j.w);
    Seen(RowChan(Slots(acc, ch), Values(j.img[y], ch), x, QuantOf(j.cf, ch)), Value(j.img[y][x], ch), x)
  }

  /** True colour formats: pixel (x, y) occupies the bytes at (y * w + x) times the
      pixel size and nothing else; they decode to its quantised colour and, when
      present, its alpha. Each channel is less than one step off its sample, or with
      dithering off the value read, brought into the range of a sample. */
  lemma ColourLayout(j: Job, y: nat, x: nat)
    requires ValidJob(j) && TrueColour(j.cf) && y < |j.img| && x < j.w
    ensures |Out(j)| == PixelBase(j, |j.img|, 0)
    ensures var p := PixelBase(j, y, x); var m := BytesPerPixel(j.cf, j.alpha);
            && p + m <= |Out(j)|
            && DecodePixel(j.cf, Out(j)[p..p + m]) == PixelColour(j, y, x)
            && Levels(j.cf, PixelColour(j, y, x))
            && (j.alpha || j.cf.Rgb888? ==> Out(j)[p + m - 1] == j.img[y][x].a)
            && (!j.dither ==> LessThanAStep(j.cf, PixelColour(j, y, x), j.img[y][x]))
            && (j.dither ==>
                  && Near(PixelColour(j, y, x).r, Clamp(ValueRead(j, y, x, Red)), QuantOf(j.cf, Red))
                  && Near(PixelColour(j, y, x).g, Clamp(ValueRead(j, y, x, Green)), QuantOf(j.cf, Green))
                  && Near(PixelColour(j, y, x).b, Clamp(ValueRead(j, y, x, Blue)), QuantOf(j.cf, Blue)))
  {
    hide Out, PixelBase, DecodePixel, AccAfter, LessThanAStep;
    var m := BytesPerPixel(j.cf, j.alpha);
    var c := PixelColour(j, y, x);
    PixelStored(j, y, x);
    PixelRoundTrip(j.cf, j.alpha, c, j.img[y][x].a);
    var p := PixelBase(j, y, x);
    assert Out(j)[p + m - 1] == Out(j)[p..p + m][m - 1];
    if !j.dither {
      UnditheredStep(j.cf, j.img[y][x]);
    } else {
      DitheredStep(j, y, x, Red);
      DitheredStep(j, y, x, Green);
      DitheredStep(j, y, x, Blue);
    }
  }

  lemma DitheredStep(j: Job, y: nat, x: nat, ch: Channel)
    requires ValidJob(j) && TrueColour(j.cf) && y < |j.img| && x < j.w && j.dither
    ensures var acc := AccAfter(j.cf, j.dither, j.acc, j.img[..y], j.w);
            Near(LevelAt(j.cf, j.dither, acc, j.img[y], x, ch), Clamp(ValueRead(j, y, x, ch)), QuantOf(j.cf, ch))
  {
    hide AccAfter, RowChan, Quantise, Clamp;
    LevelNearClamped(ValueRead(j, y, x, ch), QuantOf(j.cf, ch));
  }

  lemma PixelStored(j: Job, y: nat, x: nat)
    requires ValidJob(j) && TrueColour(j.cf) && y < |j.img| && x < j.w
    ensures |Out(j)| == PixelBase(j, |j.img|, 0)
    ensures var p := PixelBase(j, y, x); var m := BytesPerPixel(j.cf, j.alpha);
            && p + m <= |Out(j)|
            && Out(j)[p..p + m] == PixelBytes(j.cf, j.alpha, PixelColour(j, y, x), j.img[y][x].a)
  {
    hide Out, PixelBytes, ColourAt, BytesPerPixel, PixelBlocks, AccAfter, Concat;
    var m := BytesPerPixel(j.cf, j.alpha);
    var acc := AccAfter(j.cf, j.dither, j.acc, j.img[..y], j.w);
    var row := j.img[y];
    var blocks := PixelBlocks(j.cf, j.alpha, j.dither, acc, row, j.w);
    Rows(j, y);
    PixelBlockLengths(j.cf, j.alpha, j.dither, acc, row, j.w);
    PixelBlockAt(j.cf, j.alpha, j.dither, acc, row, j.w, x);
    ConcatLength(blocks, m);
    ConcatBlock(blocks, m, x);
    RowMajor(y, j.w, x, m);
    RowMajor(|j.img|, j.w, 0, m);
    var base := RowBase(j, y);
    assert PixelBase(j, y, x) == base + x * m;
    SliceOfSlice(Out(j), base, base + |Concat(blocks)|, x * m, x * m + m);
  }

  lemma {:induction false} RowMajor(y: nat, w: nat, x: nat, m: nat)
    ensures (y * w + x) * m == y * (w * m) + x * m
    decreases y
  {
    if y > 0 {
      RowMajor(y - 1, w, x, m);
      var before := (y - 1) * w + x;
      assert y * w + x == before + w;
      assert (before + w) * m == before * m + w * m;
      assert y * (w * m) == (y - 1) * (w * m) + w * m;
    }
  }

  lemma SliceOfSlice(s: seq<nat>, lo: nat, hi: nat, i: nat, k: nat)
    requires lo <= hi <= |s| && i <= k <= hi - lo
    ensures s[lo..hi][i..k] == s[lo + i..lo + k]
  {
    var a, b := s[lo..hi][i..k], s[lo + i..lo + k];
    assert forall p :: 0 <= p < k - i ==> a[p] == s[lo + i + p];
    assert forall p :: 0 <= p < k - i ==> b[p] == s[lo + i + p];
    assert a == b;
  }

  predicate LessThanAStep(cf: Format, c: Rgb, p: Pixel) {
    && Near(c.r, p.r, QuantOf(cf, Red)) && Near(c.g, p.g, QuantOf(cf, Green)) && Near(c.b, p.b, QuantOf(cf, Blue))
  }

  predicate Near(l: int, v: int, q: Quant) {
    q.To? ==> 0 - Unit(q.bits) < l - v < Unit(q.bits)
  }

  lemma UnditheredStep(cf: Format, p: Pixel)
    requires TrueColour(cf)
    ensures LessThanAStep(cf, Rgb(Quantise(p.r, QuantOf(cf, Red)), Quantise(p.g, QuantOf(cf, Green)),
                                  Quantise(p.b, QuantOf(cf, Blue))), p)
  {
    QuantiseLevel(p.r, QuantOf(cf, Red));
    QuantiseLevel(p.g, QuantOf(cf, Green));
    QuantiseLevel(p.b, QuantOf(cf, Blue));
  }

  /** The palette of an indexed format: four bytes per entry, the colours in use in
      the order asked for, white for the rest, all opaque. */
  lemma PaletteLayout(j: Job, i: nat)
    requires ValidJob(j) && i < PaletteSize(j.cf)
    ensures 4 * i + 4 <= PaletteLen(j) <= |Out(j)|
    ensures var p := Out(j)[4 * i..4 * i + 4];
            && p == PaletteEntry(j.colours, i, j.bgr) && p[3] == 255
            && (i >= |j.colours| ==> p[0] == p[1] == p[2] == 255)
            && (i < |j.colours| ==>
                  && p[1] == j.colours[i].g
                  && (if j.bgr then p[0] == j.colours[i].b && p[2] == j.colours[i].r
                      else p[0] == j.colours[i].r && p[2] == j.colours[i].b))
  {
    var entries := PaletteEntries(j.colours, j.bgr, PaletteSize(j.cf));
    EntryAt(j.colours, j.bgr, PaletteSize(j.cf), i);
    ConcatLength(entries, 4);
    ConcatBlock(entries, 4, i);
    SliceOfConcat(Concat(entries), Concat(ImageRows(j.cf, j.alpha, j.dither, j.acc, j.img, j.w)), 4 * i, 4 * i + 4);
  }

  lemma {:induction false} EntryAt(colours: seq<Rgb>, bgr: bool, n: nat, i: nat)
    requires ByteColours(colours) && i < n
    ensures PaletteEntries(colours, bgr, n)[i] == PaletteEntry(colours, i, bgr)
    decreases n
  {
    if i < n - 1 {
      EntryAt(colours, bgr, n - 1, i);
    }
  }

  /** Every element of the output is a byte. */
  lemma OutputBytes(j: Job, p: nat)
    requires ValidJob(j) && p < |Out(j)|
    ensures Out(j)[p] < 256
  {
    hide AccAfter, PixelBytes, PackRow, ColourAt;
    var entries := PaletteEntries(j.colours, j.bgr, PaletteSize(j.cf));
    var rows := ImageRows(j.cf, j.alpha, j.dither, j.acc, j.img, j.w);
    forall i | 0 <= i < |entries|
      ensures ByteBlock(entries[i])
    {
      EntryAt(j.colours, j.bgr, PaletteSize(j.cf), i);
    }
    forall y | 0 <= y < |rows|
      ensures ByteBlock(rows[y])
    {
      ImageRow(j.cf, j.alpha, j.dither, j.acc, j.img, j.w, y);
      RowOutBytes(j.cf, j.alpha, j.dither, AccAfter(j.cf, j.dither, j.acc, j.img[..y], j.w), j.img[y]);
    }
    ConcatBytes(entries);
    ConcatBytes(rows);
  }

  predicate ByteBlock(s: seq<nat>) {
    forall i :: 0 <= i < |s| ==> s[i] < 256
  }

  lemma {:induction false} ConcatBytes(blocks: seq<seq<nat>>)
    requires forall i :: 0 <= i < |blocks| ==> ByteBlock(blocks[i])
    ensures ByteBlock(Concat(blocks))
  {
    if blocks != [] {
      ConcatBytes(blocks[..|blocks| - 1]);
    }
  }

  lemma RowOutBytes(cf: Format, alpha: bool, dither: bool, acc: Acc, row: seq<Pixel>)
    requires AccWidth(acc, |row|)
    ensures ByteBlock(RowOut(cf, alpha, dither, acc, row, |row|))
  {
    if TrueColour(cf) {
      hide PixelBytes, ColourAt, PixelBlocks;
      var blocks := PixelBlocks(cf, alpha, dither, acc, row, |row|);
      forall i | 0 <= i < |blocks|
        ensures ByteBlock(blocks[i])
      {
        PixelBlockAt(cf, alpha, dither, acc, row, |row|, i);
        PixelRoundTrip(cf, alpha, ColourAt(cf, dither, acc, row, i), row[i].a);
      }
      ConcatBytes(blocks);
    } else {
      SampleFits(cf, row[..|row|]);
      Packing.RowBytes(RowSamples(cf, row[..|row|]), DepthOf(cf));
    }
  }

  // ----- dithering over any sequence of conversions

  datatype Call = Call(cf: Format, img: seq<seq<Pixel>>)

  predicate Calls(calls: seq<Call>, w: nat) {
    forall i :: 0 <= i < |calls| ==> Image(calls[i].img, w)
  }

  /** The accumulators a converter for this width starts with. */
  function Fresh(w: nat): (acc: Acc)
    ensures AccWidth(acc, w)
  {
    Acc(Zeros(w + 2), Zeros(w + 2), Zeros(w + 2))
  }

  /** The accumulators of a dithering converter, from `acc`, after some calls of `convert`. */
  function AccOfCalls(acc: Acc, calls: seq<Call>, w: nat): (r: Acc)
    requires AccWidth(acc, w) && Calls(calls, w)
    ensures AccWidth(r, w)
  {
    if calls == [] then acc
    else
      var n := |calls| - 1;
      AccAfter(calls[n].cf, true, AccOfCalls(acc, calls[..n], w), calls[n].img, w)
  }

  predicate Settled(acc: Acc, w: nat) {
    forall ch {:trigger Slots(acc, ch)} :: Phased(Chan(Slots(acc, ch), 0), w, 0)
  }

  lemma RowOfChannel(row: seq<Pixel>, cf: Format, ch: Channel)
    ensures ValidRow(Row(Values(row, ch), QuantOf(cf, ch)), |row|)
  {
  }

  lemma {:induction false} ImageSettles(cf: Format, acc: Acc, img: seq<seq<Pixel>>, w: nat)
    requires AccWidth(acc, w) && Image(img, w) && Settled(acc, w)
    ensures Settled(AccAfter(cf, true, acc, img, w), w)
    decreases |img|
  {
    if img != [] {
      hide Phased, AccAfter;
      var n := |img| - 1;
      ImageSettles(cf, acc, img[..n], w);
      forall ch {:trigger Slots(AccAfter(cf, true, acc, img, w), ch)}
        ensures Phased(Chan(Slots(AccAfter(cf, true, acc, img, w), ch), 0), w, 0)
      {
        SlotsAfter(cf, acc, img, w, ch);
        RowSettles(cf, Slots(AccAfter(cf, true, acc, img[..n], w), ch), img[n], w, ch);
      }
    } else {
      assert AccAfter(cf, true, acc, img, w) == acc;
    }
  }

  lemma SlotsAfter(cf: Format, acc: Acc, img: seq<seq<Pixel>>, w: nat, ch: Channel)
    requires AccWidth(acc, w) && Image(img, w) && img != []
    ensures Image(img[..|img| - 1], w)
    ensures var n := |img| - 1;
            Slots(AccAfter(cf, true, acc, img, w), ch) ==
            RowChan(Slots(AccAfter(cf, true, acc, img[..n], w), ch), Values(img[n], ch), w, QuantOf(cf, ch)).earr
  {
    hide RowChan;
  }

  lemma RowSettles(cf: Format, earr: seq<int>, row: seq<Pixel>, w: nat, ch: Channel)
    requires |row| == w && Phased(Chan(earr, 0), w, 0)
    ensures Phased(Chan(RowChan(earr, Values(row, ch), w, QuantOf(cf, ch)).earr, 0), w, 0)
  {
    RowOfChannel(row, cf, ch);
    RowBounds(earr, Row(Values(row, ch), QuantOf(cf, ch)), w, w);
    RowEndPhased(RowChan(earr, Values(row, ch), w, QuantOf(cf, ch)), w);
  }

  lemma {:induction false} CallsSettle(calls: seq<Call>, w: nat)
    requires Calls(calls, w)
    ensures Settled(AccOfCalls(Fresh(w), calls, w), w)
    decreases |calls|
  {
    if calls != [] {
      var n := |calls| - 1;
      CallsSettle(calls[..n], w);
      ImageSettles(calls[n].cf, AccOfCalls(Fresh(w), calls[..n], w), calls[n].img, w);
    }
  }

  /** Over any number of conversions, in any formats and of any images of this width:
      the accumulator slot a pixel reads is at most 144 in magnitude, the error carried
      to it at most 112, and the value it quantises lies in -256..511. */
  lemma {:induction false} EveryReadBounded(calls: seq<Call>, w: nat, k: nat, y: nat, x: nat, ch: Channel)
    requires Calls(calls, w) && k < |calls| && y < |calls[k].img| && x < w
    ensures Calls(calls[..k], w) && Image(calls[k].img[..y], w)
    ensures var img := calls[k].img; var q := QuantOf(calls[k].cf, ch);
            var acc := AccAfter(calls[k].cf, true, AccOfCalls(Fresh(w), calls[..k], w), img[..y], w);
            Calm(RowChan(Slots(acc, ch), Values(img[y], ch), x, q), Value(img[y][x], ch), x)
  {
    CallsSettle(calls[..k], w);
    var img := calls[k].img;
    ImageSettles(calls[k].cf, AccOfCalls(Fresh(w), calls[..k], w), img[..y], w);
    var acc := AccAfter(calls[k].cf, true, AccOfCalls(Fresh(w), calls[..k], w), img[..y], w);
    RowOfChannel(img[y], calls[k].cf, ch);
    RowBounds(Slots(acc, ch), Row(Values(img[y], ch), QuantOf(calls[k].cf, ch)), w, x);
  }

  // ----- errors cross rows and calls

  const WHITE := Pixel(255, 255, 255, 255, 0)

  /** A dithered RGB565 conversion of white rows of one pixel. */
  function WhiteJob(acc: Acc, h: nat): Job {
    Job(Rgb565, false, true, acc, seq(h, _ => [WHITE]), 1, [], false)
  }

  /** The error a row leaves below itself is read by the row after it, and what the last row
      leaves by the first row of the next call; what it leaves to the right is dropped. A
      white pixel is 7 above its level: 5 sixteenths of that make 2, and 255 is read as 257. */
  lemma ErrorsCross()
    ensures var once := Call(Rgb565, [[WHITE]]);
            && ValidJob(WhiteJob(Fresh(1), 2))
            && Calls([once], 1) && ValidJob(WhiteJob(AccOfCalls(Fresh(1), [once], 1), 1))
            && ValueRead(WhiteJob(Fresh(1), 2), 0, 0, Red) == 255
            && ValueRead(WhiteJob(Fresh(1), 2), 1, 0, Red) == 257
            && ValueRead(WhiteJob(AccOfCalls(Fresh(1), [once], 1), 1), 0, 0, Red) == 257
  {
    var once := Call(Rgb565, [[WHITE]]);
    var two := WhiteJob(Fresh(1), 2);
    WhiteRow();
    assert two.img[..0] == [] && two.img[..1] == [[WHITE]];
    var acc := AccOfCalls(Fresh(1), [once], 1);
    assert [once][..0] == [] && AccOfCalls(Fresh(1), [], 1) == Fresh(1);
    assert acc == AccAfter(Rgb565, true, Fresh(1), [[WHITE]], 1);
    assert WhiteJob(acc, 1).img[..0] == [];
  }

  lemma WhiteRow()
    ensures AccAfter(Rgb565, true, Fresh(1), [[WHITE]], 1).r[1] == 2
  {
    var rows := [[WHITE]];
    assert rows[..0] == [] && AccAfter(Rgb565, true, Fresh(1), [], 1) == Fresh(1);
    var c := RowChan(Zeros(3), [255], 0, To(5));
    assert c == Chan(Zeros(3), 0);
    assert Act(c, 255, 0, To(5)) == 248;
    assert RowChan(Zeros(3), [255], 1, To(5)) == Diffuse(c, 255, 0, To(5));
    assert Diffuse(c, 255, 0, To(5)).earr[1] == 2;
    assert Values([WHITE], Red) == [255];
  }

  // ----- the two end slots

  /** Accumulators that differ in their first and last slots only. */
  predicate AccInside(a: Acc, b: Acc) {
    SameInside(a.r, b.r) && SameInside(a.g, b.g) && SameInside(a.b, b.b)
  }

  lemma LevelInside(cf: Format, dither: bool, a: Acc, b: Acc, row: seq<Pixel>, x: nat, ch: Channel)
    requires AccWidth(a, |row|) && AccWidth(b, |row|) && AccInside(a, b) && x < |row|
    ensures LevelAt(cf, dither, a, row, x, ch) == LevelAt(cf, dither, b, row, x, ch)
  {
    hide RowChan, SameInside, Act;
    RowInside(Slots(a, ch), Slots(b, ch), Values(row, ch), x, QuantOf(cf, ch));
  }

  lemma {:induction false} BlocksInside(cf: Format, alpha: bool, dither: bool, a: Acc, b: Acc, row: seq<Pixel>, x: nat)
    requires TrueColour(cf) && AccWidth(a, |row|) && AccWidth(b, |row|) && AccInside(a, b) && x <= |row|
    ensures PixelBlocks(cf, alpha, dither, a, row, x) == PixelBlocks(cf, alpha, dither, b, row, x)
  {
    hide LevelAt, PixelBytes;
    if x > 0 {
      BlocksInside(cf, alpha, dither, a, b, row, x - 1);
      LevelInside(cf, dither, a, b, row, x - 1, Red);
      LevelInside(cf, dither, a, b, row, x - 1, Green);
      LevelInside(cf, dither, a, b, row, x - 1, Blue);
    }
  }

  lemma {:induction false} ImageInside(cf: Format, alpha: bool, dither: bool, a: Acc, b: Acc, img: seq<seq<Pixel>>,
                                       w: nat)
    requires AccWidth(a, w) && AccWidth(b, w) && AccInside(a, b) && Image(img, w)
    ensures ImageRows(cf, alpha, dither, a, img, w) == ImageRows(cf, alpha, dither, b, img, w)
    ensures AccInside(AccAfter(cf, dither, a, img, w), AccAfter(cf, dither, b, img, w))
    decreases |img|
  {
    if img != [] {
      hide RowChan, SameInside, PixelBlocks, Concat;
      var n := |img| - 1;
      ImageInside(cf, alpha, dither, a, b, img[..n], w);
      var c, d := AccAfter(cf, dither, a, img[..n], w), AccAfter(cf, dither, b, img[..n], w);
      if TrueColour(cf) {
        BlocksInside(cf, alpha, dither, c, d, img[n], w);
      }
      RowInside(c.r, d.r, Values(img[n], Red), w, QuantOf(cf, Red));
      RowInside(c.g, d.g, Values(img[n], Green), w, QuantOf(cf, Green));
      RowInside(c.b, d.b, Values(img[n], Blue), w, QuantOf(cf, Blue));
    }
  }

  lemma {:induction false} CallsInside(calls: seq<Call>, a: Acc, b: Acc, w: nat)
    requires AccWidth(a, w) && AccWidth(b, w) && AccInside(a, b) && Calls(calls, w)
    ensures AccInside(AccOfCalls(a, calls, w), AccOfCalls(b, calls, w))
    decreases |calls|
  {
    if calls != [] {
      var n := |calls| - 1;
      CallsInside(calls[..n], a, b, w);
      ImageInside(calls[n].cf, false, true, AccOfCalls(a, calls[..n], w), AccOfCalls(b, calls[..n], w),
                  calls[n].img, w);
    }
  }

  /** The slots at either end collect errors but are never read: whatever they hold, the
      output of every call in any sequence of calls is the same. */
  lemma EndSlotsNeverRead(calls: seq<Call>, a: Acc, b: Acc, w: nat, k: nat, alpha: bool, colours: seq<Rgb>, bgr: bool)
    requires AccWidth(a, w) && AccWidth(b, w) && AccInside(a, b) && Calls(calls, w)
    requires k < |calls| && ByteColours(colours)
    ensures Calls(calls[..k], w)
    ensures ImageOut(calls[k].cf, alpha, true, AccOfCalls(a, calls[..k], w), calls[k].img, w, colours, bgr) ==
            ImageOut(calls[k].cf, alpha, true, AccOfCalls(b, calls[..k], w), calls[k].img, w, colours, bgr)
  {
    CallsInside(calls[..k], a, b, w);
    ImageInside(calls[k].cf, alpha, true, AccOfCalls(a, calls[..k], w), AccOfCalls(b, calls[..k], w), calls[k].img, w);
  }
}

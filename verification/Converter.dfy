/** The image converter: output bytes grown and or-ed in place pixel by pixel, with
    the error diffusion accumulators kept across rows and calls. */
module Converter {
  import opened Bits
  import opened Bytes
  import opened Packing
  import opened Dither
  import opened ImageFormat
  import opened Wrappers

  /** A byte list without holes. */
  function Filled(s: seq<nat>): (r: seq<Option<nat>>)
    ensures |r| == |s| && forall i :: 0 <= i < |s| ==> r[i] == Some(s[i])
  {
    seq(|s|, i requires 0 <= i < |s| => Some(s[i]))
  }

  lemma FilledConcat(s: seq<nat>, t: seq<nat>)
    ensures Filled(s + t) == Filled(s) + Filled(t)
  {
  }

  lemma FilledLast(head: seq<nat>, row: seq<nat>, v: nat)
    requires row != []
    ensures Filled(head + row)[|head| + |row| - 1 := Some(v)] == Filled(head + (row[..|row| - 1] + [v]))
  {
  }

  /** `check_exist`: 0 beyond the end, -1 on a hole, 1 otherwise. */
  function CheckExist(li: seq<Option<nat>>, index: nat): int {
    if index >= |li| then 0 else if li[index].None? then -1 else 1
  }

  class Converter {
    const w: nat
    const dither: bool
    const bgr: bool
    var cf: Format
    var alpha: bool
    var dOut: seq<Option<nat>>
    var rAct: int
    var gAct: int
    var bAct: int
    var rEarr: seq<int>
    var gEarr: seq<int>
    var bEarr: seq<int>
    var rNerr: int
    var gNerr: int
    var bNerr: int

    constructor (w: nat, dither: bool, bgr: bool)
      ensures this.w == w && this.dither == dither && this.bgr == bgr
      ensures Accs() == Acc(Zeros(w + 2), Zeros(w + 2), Zeros(w + 2))
    {
      this.w, this.dither, this.bgr := w, dither, bgr;
      cf, alpha, dOut := Indexed4, false, [];
      rAct, gAct, bAct := 0, 0, 0;
      rEarr, gEarr, bEarr := Zeros(w + 2), Zeros(w + 2), Zeros(w + 2);
      rNerr, gNerr, bNerr := 0, 0, 0;
    }

    function Accs(): Acc
      reads this`rEarr, this`gEarr, this`bEarr
    {
      Acc(rEarr, gEarr, bEarr)
    }

    // ----- growing the output

    method ForceUpdate(index: nat, elem: nat)
      modifies this`dOut
      ensures index < |old(dOut)| ==> dOut == old(dOut)[index := Some(elem)]
      ensures index >= |old(dOut)| ==>
                dOut == old(dOut) + seq(index - |old(dOut)|, i => None) + [Some(elem)]
    {
      var checkRes := CheckExist(dOut, index);
      if checkRes != 0 {
        dOut := dOut[index := Some(elem)];
      } else if checkRes == 0 {
        dOut := dOut + seq(index - |dOut|, i => None);
        dOut := dOut + [Some(elem)];
      }
    }

    /** Appending one byte: the position asked for is the end of the output. */
    method PutByte(p: nat, v: nat, ghost bytes: seq<nat>)
      requires dOut == Filled(bytes) && p == |bytes|
      modifies this`dOut
      ensures dOut == Filled(bytes + [v])
    {
      ForceUpdate(p, v);
      assert seq(p - |bytes|, i => Option<nat>.None) == [];
    }

    /** Or-ing a shifted sample into byte p, which is created as zero when the sample
        is the first one in it. No hole is ever left or met. */
    method OrField(p: nat, shifted: nat, ghost head: seq<nat>, ghost s: seq<nat>, ghost v: nat, ghost n: Depth)
      requires dOut == Filled(head + PackRow(s, n)) && v < Pow2(n)
      requires p == |head| + ByteOf(|s|, n)
      requires shifted == Shl(v, Room(FieldOf(|s|, n) + 1, n))
      modifies this`dOut
      ensures dOut == Filled(head + PackRow(s + [v], n))
    {
      hide PackRow, Or, Shl, Pow2, Stride, Room;
      ghost var row := PackRow(s, n);
      RowAppends(s, v, n);
      RowLength(s, n);
      StrideStep(|s|, n);
      ghost var j := FieldOf(|s|, n);
      if CheckExist(dOut, p) == 0 {
        assert j == 0;
        PutByte(p, 0, head + row);
        assert head + row + [0] == head + (row + [0]);
        row := row + [0];
        assert row[..|row| - 1] == PackRow(s, n);
      }
      assert p == |head| + |row| - 1;
      assert dOut[p] == Some(row[|row| - 1]);
      FilledLast(head, row, Or(row[|row| - 1], shifted));
      dOut := dOut[p := Some(Or(dOut[p].value, shifted))];
    }

    // ----- error diffusion

    method DitherReset()
      modifies this`rNerr, this`gNerr, this`bNerr
      ensures dither ==> rNerr == gNerr == bNerr == 0
      ensures !dither ==> rNerr == old(rNerr) && gNerr == old(gNerr) && bNerr == old(bNerr)
    {
      if dither {
        rNerr := 0;
        gNerr := 0;
        bNerr := 0;
      }
    }

    /** One channel of `_dither_next` with dithering on. */
    method DiffuseChannel(v: int, earr0: seq<int>, nerr0: int, x: nat, q: Quant)
      returns (act: int, earr: seq<int>, nerr: int)
      requires x + 2 < |earr0|
      ensures act == Act(Chan(earr0, nerr0), v, x, q)
      ensures Chan(earr, nerr) == Diffuse(Chan(earr0, nerr0), v, x, q)
    {
      earr := earr0;
      act := v + nerr0 + earr[x + 1];
      earr := earr[x + 1 := 0];
      if q.To? {
        act := Classify(act, q.bits);
        if act > 256 - Unit(q.bits) {
          act := 256 - Unit(q.bits);
        }
      }
      var err := v - act;
      nerr := Round16(7 * err);
      earr := earr[x := earr[x] + Round16(3 * err)];
      earr := earr[x + 1 := earr[x + 1] + Round16(5 * err)];
      earr := earr[x + 2 := earr[x + 2] + Round16(err)];
    }

    method DitherNext(r: int, g: int, b: int, x: nat)
      requires x < w && AccWidth(Accs(), w)
      modifies this
      ensures cf == old(cf) && alpha == old(alpha) && dOut == old(dOut)
      ensures dither ==>
                && rAct == Act(Chan(old(rEarr), old(rNerr)), r, x, QuantOf(cf, Red))
                && gAct == Act(Chan(old(gEarr), old(gNerr)), g, x, QuantOf(cf, Green))
                && bAct == Act(Chan(old(bEarr), old(bNerr)), b, x, QuantOf(cf, Blue))
                && Chan(rEarr, rNerr) == Diffuse(Chan(old(rEarr), old(rNerr)), r, x, QuantOf(cf, Red))
                && Chan(gEarr, gNerr) == Diffuse(Chan(old(gEarr), old(gNerr)), g, x, QuantOf(cf, Green))
                && Chan(bEarr, bNerr) == Diffuse(Chan(old(bEarr), old(bNerr)), b, x, QuantOf(cf, Blue))
      ensures !dither ==>
                && Accs() == old(Accs())
                && (TrueColour(cf) ==>
                      && rAct == Quantise(r, QuantOf(cf, Red))
                      && gAct == Quantise(g, QuantOf(cf, Green))
                      && bAct == Quantise(b, QuantOf(cf, Blue)))
    {
      hide Act, Diffuse, Quantise, QuantOf;
      if dither {
        rAct, rEarr, rNerr := DiffuseChannel(r, rEarr, rNerr, x, QuantOf(cf, Red));
        gAct, gEarr, gNerr := DiffuseChannel(g, gEarr, gNerr, x, QuantOf(cf, Green));
        bAct, bEarr, bNerr := DiffuseChannel(b, bEarr, bNerr, x, QuantOf(cf, Blue));
      } else {
        QuantisePixel(r, g, b);
      }
    }

    /** `_dither_next` with dithering off. */
    method QuantisePixel(r: int, g: int, b: int)
      modifies this`rAct, this`gAct, this`bAct
      ensures TrueColour(cf) ==>
                && rAct == Quantise(r, QuantOf(cf, Red))
                && gAct == Quantise(g, QuantOf(cf, Green))
                && bAct == Quantise(b, QuantOf(cf, Blue))
    {
      if cf.Rgb332? {
        rAct, gAct, bAct := Classify(r, 3), Classify(g, 3), Classify(b, 2);
        if rAct > 0xE0 { rAct := 0xE0; }
        if gAct > 0xE0 { gAct := 0xE0; }
        if bAct > 0xC0 { bAct := 0xC0; }
      } else if cf.Rgb565? || cf.Rgb565Swap? {
        rAct, gAct, bAct := Classify(r, 5), Classify(g, 6), Classify(b, 5);
        if rAct > 0xF8 { rAct := 0xF8; }
        if gAct > 0xFC { gAct := 0xFC; }
        if bAct > 0xF8 { bAct := 0xF8; }
      } else if cf.Rgb888? {
        rAct, gAct, bAct := Classify(r, 8), Classify(g, 8), Classify(b, 8);
        if rAct > 0xFF { rAct := 0xFF; }
        if gAct > 0xFF { gAct := 0xFF; }
        if bAct > 0xFF { bAct := 0xFF; }
      }
    }

    // ----- one pixel

    /** The true colour branches: channel bits merged by `|`, bytes appended. */
    method AppendPixel(a: Byte)
      requires TrueColour(cf) && Levels(cf, Rgb(rAct, gAct, bAct))
      modifies this`dOut
      ensures dOut == old(dOut) + Filled(PixelBytes(cf, alpha, Rgb(rAct, gAct, bAct), a))
    {
      if cf.Rgb332? {
        AppendRgb332(a);
      } else if cf.Rgb888? {
        dOut := dOut + [Some(bAct as nat)];
        dOut := dOut + [Some(gAct as nat)];
        dOut := dOut + [Some(rAct as nat)];
        dOut := dOut + [Some(a)];
      } else {
        AppendRgb565(a);
      }
    }

    method AppendRgb332(a: Byte)
      requires cf.Rgb332? && Levels(cf, Rgb(rAct, gAct, bAct))
      modifies this`dOut
      ensures dOut == old(dOut) + Filled(PixelBytes(cf, alpha, Rgb(rAct, gAct, bAct), a))
    {
      MergeRgb332(rAct, gAct, bAct);
      var c8 := Or(Or(rAct, gAct / 8), bAct / 64);
      dOut := dOut + [Some(c8)];
      if alpha {
        dOut := dOut + [Some(a)];
      }
    }

    method AppendRgb565(a: Byte)
      requires (cf.Rgb565? || cf.Rgb565Swap?) && Levels(cf, Rgb(rAct, gAct, bAct))
      modifies this`dOut
      ensures dOut == old(dOut) + Filled(PixelBytes(cf, alpha, Rgb(rAct, gAct, bAct), a))
    {
      hide Or;
      MergeRgb565(rAct, gAct, bAct);
      var c16 := Or(Or(256 * rAct, 8 * gAct), bAct / 8);
      var lo, hi := c16 % 256, c16 / 256 % 256;
      assert hi == c16 / 256;
      if cf.Rgb565? {
        dOut := dOut + [Some(lo)];
        dOut := dOut + [Some(hi)];
      } else {
        dOut := dOut + [Some(hi)];
        dOut := dOut + [Some(lo)];
      }
      if alpha {
        dOut := dOut + [Some(a)];
      }
    }

    // ----- rows and images

    /** The accumulators as they are after the first x columns of a row that started with acc. */
    ghost predicate InRow(acc: Acc, row: seq<Pixel>, x: nat)
      requires AccWidth(acc, |row|) && x <= |row|
      reads this`cf, this`rEarr, this`gEarr, this`bEarr, this`rNerr, this`gNerr, this`bNerr
    {
      if dither then
        && Chan(rEarr, rNerr) == RowChan(acc.r, Values(row, Red), x, QuantOf(cf, Red))
        && Chan(gEarr, gNerr) == RowChan(acc.g, Values(row, Green), x, QuantOf(cf, Green))
        && Chan(bEarr, bNerr) == RowChan(acc.b, Values(row, Blue), x, QuantOf(cf, Blue))
      else Accs() == acc
    }

    /** The levels of column x, by the row's error diffusion when dithering is on. */
    method NextLevels(x: nat, row: seq<Pixel>, ghost acc: Acc)
      requires x < |row| == w && AccWidth(acc, w) && InRow(acc, row, x)
      modifies this
      ensures cf == old(cf) && alpha == old(alpha) && dOut == old(dOut)
      ensures InRow(acc, row, x + 1)
      ensures TrueColour(cf) ==> Rgb(rAct, gAct, bAct) == ColourAt(cf, dither, acc, row, x)
    {
      var px := row[x];
      ghost var vr, vg, vb := Values(row, Red), Values(row, Green), Values(row, Blue);
      if dither {
        ChanStep(acc.r, vr, x, QuantOf(cf, Red));
        ChanStep(acc.g, vg, x, QuantOf(cf, Green));
        ChanStep(acc.b, vb, x, QuantOf(cf, Blue));
      }
      DitherNext(px.r, px.g, px.b, x);
    }

    /** `_conv_px`: the output after column x of row y, where `head` is the palette
        and the rows before y. */
    method ConvPx(x: nat, y: nat, row: seq<Pixel>, ghost acc: Acc, ghost head: seq<nat>)
      requires x < |row| == w && AccWidth(acc, w) && InRow(acc, row, x)
      requires dOut == Filled(head + RowOut(cf, alpha, dither, acc, row, x))
      requires |head| == 4 * PaletteSize(cf) + y * RowLen(cf, alpha, w)
      modifies this
      ensures cf == old(cf) && alpha == old(alpha)
      ensures InRow(acc, row, x + 1)
      ensures dOut == Filled(head + RowOut(cf, alpha, dither, acc, row, x + 1))
    {
      hide RowOut, PixelBytes, PackRow, Sample, RowLen, ColourAt, RowSamples, InRow, DepthOf, PaletteSize, Filled;
      var a, cx := row[x].a, row[x].index;
      NextLevels(x, row, acc);
      if TrueColour(cf) {
        ColourOut(cf, alpha, dither, acc, row, x, head);
        AppendPixel(a);
      } else {
        PackedOut(cf, alpha, dither, acc, row, x);
        PackPixel(x, y, a, cx, head, RowSamples(cf, row[..x]), Sample(cf, row[x]));
      }
    }

    /** The alpha and indexed branches: the sample is cut from the opacity or from
        the palette index, the palette comes before the rows. */
    method PackPixel(x: nat, y: nat, a: Byte, cx: Byte, ghost head: seq<nat>, ghost s: seq<nat>, ghost v: nat)
      requires x < w && |s| == x && !TrueColour(cf) && v == Sample(cf, Pixel(0, 0, 0, a, cx))
      requires dOut == Filled(head + PackRow(s, DepthOf(cf)))
      requires |head| == 4 * PaletteSize(cf) + y * Stride(w, DepthOf(cf))
      modifies this`dOut
      ensures dOut == Filled(head + PackRow(s + [v], DepthOf(cf)))
    {
      match cf {
        case Alpha1 => Pack1(x, y, if a > 0x80 then 1 else 0, 0, head, s);
        case Alpha2 => Pack2(x, y, a / 64, 0, head, s);
        case Alpha4 => Pack4(x, y, a / 16, 0, head, s);
        case Alpha8 => Pack8(x, y, a, 0, head, s);
        case Indexed1 => Pack1(x, y, cx % 2, 8, head, s);
        case Indexed2 => Pack2(x, y, cx % 4, 16, head, s);
        case Indexed4 => Pack4(x, y, cx % 16, 64, head, s);
        case Indexed8 => Pack8(x, y, cx % 256, 1024, head, s);
      }
    }

    method Pack1(x: nat, y: nat, v: nat, offset: nat, ghost head: seq<nat>, ghost s: seq<nat>)
      requires x < w && |s| == x && v < 2
      requires dOut == Filled(head + PackRow(s, 1)) && |head| == offset + y * Stride(w, 1)
      modifies this`dOut
      ensures dOut == Filled(head + PackRow(s + [v], 1))
    {
      var stride := w / 8;
      if w % 8 != 0 {
        stride := stride + 1;
      }
      assert stride == Stride(w, 1);
      hide PackRow, Stride, Or, Shl;
      assert |head| == offset + stride * y;
      var p := stride * y + x / 8 + offset;
      assert Pow2(1) == 2 by { Pow2Small(); }
      OrField(p, Shl(v, 7 - x % 8), head, s, v, 1);
    }

    method Pack2(x: nat, y: nat, v: nat, offset: nat, ghost head: seq<nat>, ghost s: seq<nat>)
      requires x < w && |s| == x && v < 4
      requires dOut == Filled(head + PackRow(s, 2)) && |head| == offset + y * Stride(w, 2)
      modifies this`dOut
      ensures dOut == Filled(head + PackRow(s + [v], 2))
    {
      var stride := w / 4;
      if w % 4 != 0 {
        stride := stride + 1;
      }
      assert stride == Stride(w, 2);
      hide PackRow, Stride, Or, Shl;
      assert |head| == offset + stride * y;
      var p := stride * y + x / 4 + offset;
      assert Pow2(2) == 4 by { Pow2Small(); }
      OrField(p, Shl(v, 6 - x % 4 * 2), head, s, v, 2);
    }

    method Pack4(x: nat, y: nat, v: nat, offset: nat, ghost head: seq<nat>, ghost s: seq<nat>)
      requires x < w && |s| == x && v < 16
      requires dOut == Filled(head + PackRow(s, 4)) && |head| == offset + y * Stride(w, 4)
      modifies this`dOut
      ensures dOut == Filled(head + PackRow(s + [v], 4))
    {
      var stride := w / 2;
      if w % 2 != 0 {
        stride := stride + 1;
      }
      assert stride == Stride(w, 4);
      hide PackRow, Stride, Or, Shl;
      assert |head| == offset + stride * y;
      var p := stride * y + x / 2 + offset;
      assert Pow2(4) == 16 by { Pow2Small(); }
      OrField(p, Shl(v, 4 - x % 2 * 4), head, s, v, 4);
    }

    /** 8 bit samples are written whole. */
    method Pack8(x: nat, y: nat, v: nat, offset: nat, ghost head: seq<nat>, ghost s: seq<nat>)
      requires x < w && |s| == x && v < 256
      requires dOut == Filled(head + PackRow(s, 8)) && |head| == offset + y * Stride(w, 8)
      modifies this`dOut
      ensures dOut == Filled(head + PackRow(s + [v], 8))
    {
      assert Stride(w, 8) == w;
      hide PackRow, Stride;
      assert |head| == offset + w * y;
      var p := w * y + x + offset;
      WholeByteAppends(s, v);
      RowLength(s, 8);
      PutByte(p, v, head + PackRow(s, 8));
      assert head + PackRow(s, 8) + [v] == head + (PackRow(s, 8) + [v]);
    }

    method EmitPalette(colours: seq<Rgb>, n: nat)
      requires dOut == [] && ByteColours(colours)
      modifies this`dOut
      ensures dOut == Filled(Concat(PaletteEntries(colours, bgr, n)))
    {
      hide PaletteEntries, Concat;
      PaletteStart(colours, bgr);
      var i := 0;
      while i < n
        invariant i <= n
        invariant dOut == Filled(Concat(PaletteEntries(colours, bgr, i)))
      {
        PaletteStep(colours, bgr, i);
        ghost var before := Concat(PaletteEntries(colours, bgr, i));
        if i < |colours| {
          var c: seq<nat> := [colours[i].r, colours[i].g, colours[i].b];
          if bgr {
            c := [c[2], c[1], c[0]];
          }
          dOut := dOut + Filled(c);
          dOut := dOut + [Some(0xFF)];
          FilledConcat(before, c);
          FilledConcat(before + c, [255]);
          assert before + c + [255] == before + PaletteEntry(colours, i, bgr);
        } else {
          dOut := dOut + Filled([0xFF, 0xFF, 0xFF, 0xFF]);
          FilledConcat(before, [255, 255, 255, 255]);
        }
        i := i + 1;
      }
    }

    /** `convert`: palette, then every pixel in row-major order. */
    method Convert(cf: Format, alpha: bool, img: seq<seq<Pixel>>, colours: seq<Rgb>)
      requires AccWidth(Accs(), w) && Image(img, w) && ByteColours(colours)
      modifies this
      ensures this.cf == cf && this.alpha == alpha
      ensures dOut == Filled(ImageOut(cf, alpha, dither, old(Accs()), img, w, colours, bgr))
      ensures Accs() == AccAfter(cf, dither, old(Accs()), img, w)
    {
      hide RowOut, RowLen, RowChan, ImageRows, AccAfter, PaletteEntries, Concat, PaletteSize, Filled;
      ghost var acc0 := Accs();
      this.cf := cf;
      this.alpha := alpha;
      dOut := [];
      var paletteSize := PaletteSize(cf);
      EmitPalette(colours, paletteSize);
      assert Accs() == acc0;
      ghost var pal := Concat(PaletteEntries(colours, bgr, paletteSize));
      ConcatLength(PaletteEntries(colours, bgr, paletteSize), 4);
      var h := |img|;
      var y := 0;
      ImageStart(cf, alpha, dither, acc0, img, w);
      assert pal + [] == pal;
      while y < h
        invariant y <= h && this.cf == cf && this.alpha == alpha
        invariant Image(img[..y], w)
        invariant Accs() == AccAfter(cf, dither, acc0, img[..y], w)
        invariant dOut == Filled(pal + Concat(ImageRows(cf, alpha, dither, acc0, img[..y], w)))
      {
        ghost var acc := Accs();
        ghost var head := pal + Concat(ImageRows(cf, alpha, dither, acc0, img[..y], w));
        RowStep(cf, alpha, dither, acc0, img, w, y);
        ConvRow(img[y], y, acc, head);
        assert pal + Concat(ImageRows(cf, alpha, dither, acc0, img[..y + 1], w))
            == head + RowOut(cf, alpha, dither, acc, img[y], w);
        y := y + 1;
      }
      assert img[..h] == img;
    }

    /** The inner loop of `convert`: one row. */
    method ConvRow(row: seq<Pixel>, y: nat, ghost acc: Acc, ghost head: seq<nat>)
      requires |row| == w && AccWidth(acc, w) && Accs() == acc && dOut == Filled(head)
      requires |head| == 4 * PaletteSize(cf) + y * RowLen(cf, alpha, w)
      modifies this
      ensures cf == old(cf) && alpha == old(alpha)
      ensures InRow(acc, row, w)
      ensures dOut == Filled(head + RowOut(cf, alpha, dither, acc, row, w))
    {
      hide RowOut, RowLen, RowChan;
      DitherReset();
      var x := 0;
      RowStart(cf, alpha, dither, acc, row);
      assert head + [] == head;
      while x < w
        invariant x <= w && cf == old(cf) && alpha == old(alpha)
        invariant InRow(acc, row, x)
        invariant dOut == Filled(head + RowOut(cf, alpha, dither, acc, row, x))
      {
        ConvPx(x, y, row, acc, head);
        x := x + 1;
      }
    }
  }

  lemma ChanStep(earr: seq<int>, vs: seq<int>, x: nat, q: Quant)
    requires |earr| == |vs| + 2 && x < |vs|
    ensures RowChan(earr, vs, x + 1, q) == Diffuse(RowChan(earr, vs, x, q), vs[x], x, q)
  {
  }

  lemma RowStart(cf: Format, alpha: bool, dither: bool, acc: Acc, row: seq<Pixel>)
    requires AccWidth(acc, |row|)
    ensures RowOut(cf, alpha, dither, acc, row, 0) == []
    ensures forall ch :: RowChan(Slots(acc, ch), Values(row, ch), 0, QuantOf(cf, ch)) == Chan(Slots(acc, ch), 0)
  {
    assert row[..0] == [];
  }

  lemma ImageStart(cf: Format, alpha: bool, dither: bool, acc: Acc, img: seq<seq<Pixel>>, w: nat)
    requires AccWidth(acc, w) && Image(img, w)
    ensures Image(img[..0], w) && AccAfter(cf, dither, acc, img[..0], w) == acc
    ensures Concat(ImageRows(cf, alpha, dither, acc, img[..0], w)) == []
  {
    assert img[..0] == [];
  }

  lemma PaletteStart(colours: seq<Rgb>, bgr: bool)
    requires ByteColours(colours)
    ensures Concat(PaletteEntries(colours, bgr, 0)) == []
  {
  }

  lemma PaletteStep(colours: seq<Rgb>, bgr: bool, i: nat)
    requires ByteColours(colours)
    ensures Concat(PaletteEntries(colours, bgr, i + 1)) ==
            Concat(PaletteEntries(colours, bgr, i)) + PaletteEntry(colours, i, bgr)
  {
    assert PaletteEntries(colours, bgr, i + 1)[..i] == PaletteEntries(colours, bgr, i);
  }

  lemma ColourOut(cf: Format, alpha: bool, dither: bool, acc: Acc, row: seq<Pixel>, x: nat, head: seq<nat>)
    requires TrueColour(cf) && AccWidth(acc, |row|) && x < |row|
    ensures Filled(head + RowOut(cf, alpha, dither, acc, row, x))
            + Filled(PixelBytes(cf, alpha, ColourAt(cf, dither, acc, row, x), row[x].a))
            == Filled(head + RowOut(cf, alpha, dither, acc, row, x + 1))
  {
    var blocks := PixelBlocks(cf, alpha, dither, acc, row, x + 1);
    var bytes := PixelBytes(cf, alpha, ColourAt(cf, dither, acc, row, x), row[x].a);
    assert blocks[..x] == PixelBlocks(cf, alpha, dither, acc, row, x);
    var before := Concat(blocks[..x]);
    assert head + (before + bytes) == (head + before) + bytes;
    FilledConcat(head + before, bytes);
  }

  lemma PackedOut(cf: Format, alpha: bool, dither: bool, acc: Acc, row: seq<Pixel>, x: nat)
    requires !TrueColour(cf) && AccWidth(acc, |row|) && x < |row|
    ensures var s := RowSamples(cf, row[..x]);
            && RowOut(cf, alpha, dither, acc, row, x) == PackRow(s, DepthOf(cf))
            && RowOut(cf, alpha, dither, acc, row, x + 1) == PackRow(s + [Sample(cf, row[x])], DepthOf(cf))
            && Sample(cf, row[x]) == Sample(cf, Pixel(0, 0, 0, row[x].a, row[x].index))
            && RowLen(cf, alpha, |row|) == Stride(|row|, DepthOf(cf))
  {
    assert RowSamples(cf, row[..x + 1]) == RowSamples(cf, row[..x]) + [Sample(cf, row[x])];
  }

  /** One more row of an image: what it adds to the output and to the accumulators. */
  lemma RowStep(cf: Format, alpha: bool, dither: bool, acc0: Acc, img: seq<seq<Pixel>>, w: nat, y: nat)
    requires AccWidth(acc0, w) && Image(img, w) && y < |img|
    ensures Image(img[..y], w) && Image(img[..y + 1], w)
    ensures var acc := AccAfter(cf, dither, acc0, img[..y], w);
            && Concat(ImageRows(cf, alpha, dither, acc0, img[..y + 1], w)) ==
               Concat(ImageRows(cf, alpha, dither, acc0, img[..y], w)) + RowOut(cf, alpha, dither, acc, img[y], w)
            && |Concat(ImageRows(cf, alpha, dither, acc0, img[..y], w))| == y * RowLen(cf, alpha, w)
    ensures var acc := AccAfter(cf, dither, acc0, img[..y], w);
            AccAfter(cf, dither, acc0, img[..y + 1], w) ==
            if dither then
              Acc(RowChan(acc.r, Values(img[y], Red), w, QuantOf(cf, Red)).earr,
                  RowChan(acc.g, Values(img[y], Green), w, QuantOf(cf, Green)).earr,
                  RowChan(acc.b, Values(img[y], Blue), w, QuantOf(cf, Blue)).earr)
            else acc
  {
    assert img[..y + 1][..y] == img[..y];
    var rows := ImageRows(cf, alpha, dither, acc0, img[..y + 1], w);
    assert rows[..y] == ImageRows(cf, alpha, dither, acc0, img[..y], w);
    ImageRowsLength(cf, alpha, dither, acc0, img[..y], w);
  }

  lemma ImageRowsLength(cf: Format, alpha: bool, dither: bool, acc: Acc, img: seq<seq<Pixel>>, w: nat)
    requires AccWidth(acc, w) && Image(img, w)
    ensures |Concat(ImageRows(cf, alpha, dither, acc, img, w))| == |img| * RowLen(cf, alpha, w)
  {
    var rows := ImageRows(cf, alpha, dither, acc, img, w);
    forall y | 0 <= y < |rows|
      ensures |rows[y]| == RowLen(cf, alpha, w)
    {
      ImageRow(cf, alpha, dither, acc, img, w, y);
    }
    ConcatLength(rows, RowLen(cf, alpha, w));
  }

  /** A value below 2^k fills the low bits of a multiple of 2^k. */
  lemma OrAt(i: nat, b: nat, k: nat, m: nat)
    requires m == Pow2(k) && b < m
    ensures Or(i * m, b) == i * m + b
  {
    ShlIsMul(i, k);
    OrDisjoint(i, b, k);
  }

  lemma Powers()
    ensures Pow2(2) == 4 && Pow2(5) == 32 && Pow2(11) == 2048
  {
    Pow2Small();
    assert Pow2(9) == 512;
    assert Pow2(10) == 1024;
  }

  lemma MergeRgb332(r: nat, g: nat, b: nat)
    requires r <= 224 && r % 32 == 0 && g <= 224 && g % 32 == 0 && b <= 192 && b % 64 == 0
    ensures Or(Or(r, g / 8), b / 64) == r + g / 8 + b / 64
  {
    hide Or;
    Powers();
    var i, j := r / 32, g / 32;
    assert r == i * 32 && g / 8 == 4 * j;
    OrAt(i, 4 * j, 5, 32);
    OrAt(8 * i + j, b / 64, 2, 4);
  }

  lemma MergeRgb565(r: nat, g: nat, b: nat)
    requires r <= 248 && r % 8 == 0 && g <= 252 && g % 4 == 0 && b <= 248 && b % 8 == 0
    ensures Or(Or(256 * r, 8 * g), b / 8) == r * 256 + g * 8 + b / 8
  {
    hide Or;
    Powers();
    var i, j := r / 8, g / 4;
    assert 256 * r == i * 2048 && 8 * g == 32 * j;
    OrAt(i, 32 * j, 11, 2048);
    OrAt(64 * i + j, b / 8, 5, 32);
  }
}

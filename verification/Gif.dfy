/** The animated GIF writer and a reader for the format (GIF89a): one global
    colour table, then for each frame its delay and its pixels' entries. */
module Gif {
  import opened Bytes
  import opened Options
  import opened Palette
  import Lzw
  import Png

  // ------------------------------------------------------------ sub-blocks

  /** Data in blocks of at most 255 bytes, each after its length, and an empty
      one at the end. */
  function SubBlocks(data: seq<byte>): (r: seq<byte>)
    ensures |r| == |data| + (|data| + 254) / 255 + 1
  {
    if data == [] then [0]
    else if |data| <= 255 then [|data|] + data + [0]
    else [255] + data[..255] + SubBlocks(data[255..])
  }

  /** The data of a run of sub-blocks, and what follows their end. */
  function ReadSub(s: seq<byte>): (r: Option<(seq<byte>, seq<byte>)>)
    ensures r.Some? ==> |r.value.1| < |s|
    decreases |s|
  {
    if s == [] || s[0] as nat >= |s| then None
    else if s[0] == 0 then Some(([], s[1..]))
    else
      var n := s[0] as nat;
      match ReadSub(s[n + 1..])
      case None => None
      case Some((data, rest)) => Some((s[1..n + 1] + data, rest))
  }

  lemma OneSub(n: byte, block: seq<byte>, s: seq<byte>)
    requires n > 0 && |block| == n as nat && ReadSub(s).Some?
    ensures ReadSub([n] + block + s) == Some((block + ReadSub(s).value.0, ReadSub(s).value.1))
  {
    var all := [n] + block + s;
    assert all[0] == n && all[1..n as nat + 1] == block && all[n as nat + 1..] == s;
  }

  lemma {:induction false} SubBlocksRead(data: seq<byte>, rest: seq<byte>)
    ensures ReadSub(SubBlocks(data) + rest) == Some((data, rest))
    decreases |data|
  {
    hide ReadSub;
    EndRead(rest);
    if data == [] {
    } else if |data| <= 255 {
      OneSub(|data|, data, [0] + rest);
      Regroup([|data|] + data, [0], rest);
      assert data + [] == data;
    } else {
      SubBlocksRead(data[255..], rest);
      OneSub(255, data[..255], SubBlocks(data[255..]) + rest);
      Regroup([255] + data[..255], SubBlocks(data[255..]), rest);
      assert data[..255] + data[255..] == data;
    }
  }

  lemma EndRead(rest: seq<byte>)
    ensures ReadSub([0] + rest) == Some(([], rest))
  {
    assert ([0] + rest)[1..] == rest;
  }

  /** `chunks(255)`, as they are written. */
  method PushSubBlocks(out: seq<byte>, data: seq<byte>) returns (r: seq<byte>)
    ensures r == out + SubBlocks(data)
  {
    r := out;
    var pos := 0;
    while pos < |data|
      invariant 0 <= pos <= |data|
      invariant r + SubBlocks(data[pos..]) == out + SubBlocks(data)
    {
      var n := if |data| - pos < 255 then |data| - pos else 255;
      ghost var left, before := data[pos..], r;
      r := r + [n];
      r := r + data[pos..pos + n];
      pos := pos + n;
      assert left[..n] == data[pos - n..pos] && left[n..] == data[pos..];
      BlockPushed(before, left, n);
    }
    assert data[pos..] == [];
    r := r + [0];
  }

  lemma BlockPushed(before: seq<byte>, left: seq<byte>, n: byte)
    requires 0 < n as nat <= |left| && (n == 255 || n as nat == |left|)
    ensures before + [n] + left[..n] + SubBlocks(left[n..]) == before + SubBlocks(left)
  {
    if |left| <= 255 {
      assert left[..n] == left && left[n..] == [];
    }
    Regroup(before, [n], left[..n]);
    Regroup(before, [n] + left[..n], SubBlocks(left[n..]));
  }

  // ---------------------------------------------------------------- reader

  /** What a graphic control extension says of the image behind it. */
  datatype Ctl = Ctl(delay: nat, disposal: nat, transparent: bool)

  const PLAIN := Ctl(0, 0, false)

  datatype GifFrame = GifFrame(ctl: Ctl, left: nat, top: nat, w: nat, h: nat, indices: seq<byte>)

  /** The frames, and how often they are to be repeated: 0 is for ever. */
  datatype Show = Show(loops: Option<nat>, frames: seq<GifFrame>)

  datatype GifFile = GifFile(w: nat, h: nat, table: seq<Colour>, show: Show)

  function Put(f: GifFrame, more: Option<Show>): Option<Show> {
    match more
    case None => None
    case Some(show) => Some(Show(show.loops, [f] + show.frames))
  }

  /** The looping extension: "NETSCAPE2.0", then the number of rounds. */
  function Rounds(data: seq<byte>): Option<nat> {
    if |data| == 14
      && data[..12] == [0x4E, 0x45, 0x54, 0x53, 0x43, 0x41, 0x50, 0x45, 0x32, 0x2E, 0x30, 1]
    then Some(Png.FromLe16(data[12..14]))
    else None
  }

  function Repeat(rounds: Option<nat>, more: Option<Show>): Option<Show> {
    match more
    case None => None
    case Some(show) => Some(if rounds.Some? then Show(rounds, show.frames) else show)
  }

  /** The blocks up to the trailer: extensions, of which the graphic control and
      the looping one are read, and images, each with its entries. */
  function ReadBlocks(s: seq<byte>, ctl: Ctl): Option<Show>
    decreases |s|
  {
    if s == [] then None
    else if s[0] == 0x3B then Some(Show(None, []))
    else if s[0] == 0x21 && |s| >= 2 then
      match ReadSub(s[2..])
      case None => None
      case Some((data, rest)) =>
        if s[1] == 0xFF then Repeat(Rounds(data), ReadBlocks(rest, ctl))
        else if s[1] != 0xF9 then ReadBlocks(rest, ctl)
        else if |data| != 4 then None
        else
          ReadBlocks(rest, Ctl(Png.FromLe16(data[1..3]), (data[0] as nat) / 4 % 8, data[0] % 2 == 1))
    else if s[0] == 0x2C && |s| >= 11 && s[9] == 0 then
      match ReadSub(s[11..])
      case None => None
      case Some((data, rest)) =>
        var w, h := Png.FromLe16(s[5..7]), Png.FromLe16(s[7..9]);
        match Lzw.Decode(s[10] as nat, data)
        case None => None
        case Some(indices) => if |indices| != w * h then None
          else
            Put(GifFrame(ctl, Png.FromLe16(s[1..3]), Png.FromLe16(s[3..5]), w, h, indices), ReadBlocks(rest, PLAIN))
    else None
  }

  function ReadTable(s: seq<byte>, n: nat): (r: seq<Colour>)
    requires 3 * n <= |s|
    ensures |r| == n
  {
    if n == 0 then [] else [Colour(s[0], s[1], s[2])] + ReadTable(s[3..], n - 1)
  }

  /** A file with a global colour table, which the low bits of the packed field
      give the size of. */
  function ReadGif(s: seq<byte>): Option<GifFile> {
    if |s| < 13 || s[..6] != [0x47, 0x49, 0x46, 0x38, 0x39, 0x61] || s[10] < 128 then None
    else
      var n := Pow2((s[10] as nat) % 8 + 1);
      if |s| < 13 + 3 * n then None
      else
        match ReadBlocks(s[13 + 3 * n..], PLAIN)
        case None => None
        case Some(show) => Some(GifFile(Png.FromLe16(s[6..8]), Png.FromLe16(s[8..10]), ReadTable(s[13..], n), show))
  }

  // ---------------------------------------------------------------- frames

  /** A frame as it is written: what its data decodes to comes with it. */
  datatype Coded = Coded(delay: nat, w: nat, h: nat, data: seq<byte>, indices: seq<byte>)

  ghost predicate CodedOk(f: Coded) {
    && f.delay < 0x1_0000 && f.w < 0x1_0000 && f.h < 0x1_0000
    && Lzw.Decode(8, f.data) == Some(f.indices) && |f.indices| == f.w * f.h
  }

  function Control(delay: nat): seq<byte> {
    [0x21, 0xF9, 4, 0] + Png.Le16(delay) + [0, 0]
  }

  function Descriptor(w: nat, h: nat): seq<byte> {
    [0x2C] + [0, 0, 0, 0] + Png.Le16(w) + Png.Le16(h) + [0]
  }

  function FrameBytes(f: Coded): seq<byte> {
    Control(f.delay) + (Descriptor(f.w, f.h) + ([8] + SubBlocks(f.data)))
  }

  function FramesBytes(fs: seq<Coded>): seq<byte> {
    if fs == [] then [] else FrameBytes(fs[0]) + FramesBytes(fs[1..])
  }

  lemma {:induction false} FramesAppend(fs: seq<Coded>, f: Coded)
    ensures FramesBytes(fs + [f]) == FramesBytes(fs) + FrameBytes(f)
  {
    hide FrameBytes;
    if fs == [] {
      assert fs + [f] == [f];
      assert FramesBytes([f]) == FrameBytes(f) + FramesBytes([]);
    } else {
      assert (fs + [f])[1..] == fs[1..] + [f];
      FramesAppend(fs[1..], f);
      Regroup(FrameBytes(fs[0]), FramesBytes(fs[1..]), FrameBytes(f));
    }
  }

  lemma ControlRead(delay: nat, before: Ctl, rest: seq<byte>)
    requires delay < 0x1_0000
    ensures ReadBlocks(Control(delay) + rest, before) == ReadBlocks(rest, Ctl(delay, 0, false))
  {
    hide Lzw.Decode, ReadSub;
    var s, d := Control(delay) + rest, Png.Le16(delay);
    var data: seq<byte> := [0, d[0], d[1], 0];
    Png.Le16RoundTrip(delay);
    EndRead(rest);
    OneSub(4, data, [0] + rest);
    assert s[2..] == [4] + data + ([0] + rest);
    assert data + [] == data && data[1..3] == d;
  }

  lemma ImageRead(f: Coded, ctl: Ctl, rest: seq<byte>)
    requires CodedOk(f)
    ensures ReadBlocks(Descriptor(f.w, f.h) + ([8] + SubBlocks(f.data)) + rest, ctl)
            == Put(GifFrame(ctl, 0, 0, f.w, f.h, f.indices), ReadBlocks(rest, PLAIN))
  {
    hide Lzw.Decode, ReadSub, SubBlocks;
    var d := Descriptor(f.w, f.h);
    var s := d + ([8] + SubBlocks(f.data)) + rest;
    var w, h := Png.Le16(f.w), Png.Le16(f.h);
    Png.Le16RoundTrip(f.w);
    Png.Le16RoundTrip(f.h);
    SubBlocksRead(f.data, rest);
    assert d == [0x2C, 0, 0, 0, 0, w[0], w[1], h[0], h[1], 0];
    assert s[1..3] == [0, 0] && s[3..5] == [0, 0] && s[5..7] == w && s[7..9] == h;
    assert s[11..] == SubBlocks(f.data) + rest;
  }

  function Shown(f: Coded): GifFrame {
    GifFrame(Ctl(f.delay, 0, false), 0, 0, f.w, f.h, f.indices)
  }

  function AllShown(fs: seq<Coded>): (r: seq<GifFrame>)
    ensures |r| == |fs| && forall i :: 0 <= i < |fs| ==> r[i] == Shown(fs[i])
  {
    if fs == [] then [] else [Shown(fs[0])] + AllShown(fs[1..])
  }

  lemma {:induction false} FramesRead(fs: seq<Coded>, ctl: Ctl)
    requires forall i :: 0 <= i < |fs| ==> CodedOk(fs[i])
    ensures ReadBlocks(FramesBytes(fs) + [0x3B], ctl) == Some(Show(None, AllShown(fs)))
    decreases |fs|
  {
    hide ReadSub, SubBlocks, Control, Descriptor, CodedOk;
    if fs == [] {
      assert FramesBytes([]) + [0x3B] == [0x3B];
    } else {
      hide ReadBlocks;
      var f := fs[0];
      var more := FramesBytes(fs[1..]) + [0x3B];
      var image := Descriptor(f.w, f.h) + ([8] + SubBlocks(f.data));
      forall i | 0 <= i < |fs[1..]| ensures CodedOk(fs[1..][i]) {
        assert fs[1..][i] == fs[i + 1];
      }
      FramesRead(fs[1..], PLAIN);
      assert f.delay < 0x1_0000 by { CodedDelay(f); }
      ControlRead(f.delay, ctl, image + more);
      ImageRead(f, Ctl(f.delay, 0, false), more);
      Regroup(Control(f.delay), image, more);
      Regroup(FrameBytes(f), FramesBytes(fs[1..]), [0x3B]);
    }
  }

  lemma CodedDelay(f: Coded)
    requires CodedOk(f)
    ensures f.delay < 0x1_0000
  {
  }

  // ---------------------------------------------------------------- header

  function TableBytes(pal: seq<Colour>): (r: seq<byte>)
    ensures |r| == 3 * |pal|
  {
    if pal == [] then [] else TableBytes(pal[..|pal| - 1]) + [pal[|pal| - 1].r, pal[|pal| - 1].g, pal[|pal| - 1].b]
  }

  lemma {:induction false} TableCons(pal: seq<Colour>)
    requires pal != []
    ensures TableBytes(pal) == [pal[0].r, pal[0].g, pal[0].b] + TableBytes(pal[1..])
    decreases |pal|
  {
    var n := |pal| - 1;
    if n == 0 {
      assert TableBytes(pal[..0]) == [] && TableBytes(pal[1..]) == [];
    } else {
      TableCons(pal[..n]);
      assert pal[..n][1..] == pal[1..][..n - 1];
    }
  }

  lemma {:induction false} TableRead(pal: seq<Colour>, rest: seq<byte>)
    ensures ReadTable(TableBytes(pal) + rest, |pal|) == pal
    decreases |pal|
  {
    if pal != [] {
      TableCons(pal);
      var s := TableBytes(pal) + rest;
      assert s[3..] == TableBytes(pal[1..]) + rest;
      TableRead(pal[1..], rest);
    }
  }

  const SIGNATURE: seq<byte> := [0x47, 0x49, 0x46, 0x38, 0x39, 0x61]

  function Head(w: nat, h: nat): seq<byte> {
    SIGNATURE + Png.Le16(w) + Png.Le16(h) + [0xF7, 0, 0]
  }

  /** The extension that makes the animation loop for ever. */
  function Netscape(): seq<byte> {
    [0x21, 0xFF, 0x0B] + [0x4E, 0x45, 0x54, 0x53, 0x43, 0x41, 0x50, 0x45, 0x32, 0x2E, 0x30] + [3, 1, 0, 0, 0]
  }

  lemma NetscapeRead(rest: seq<byte>, ctl: Ctl)
    ensures ReadBlocks(Netscape() + rest, ctl) == Repeat(Some(0), ReadBlocks(rest, ctl))
  {
    hide Lzw.Decode, ReadSub, Repeat;
    var name: seq<byte> := [0x4E, 0x45, 0x54, 0x53, 0x43, 0x41, 0x50, 0x45, 0x32, 0x2E, 0x30];
    EndRead(rest);
    OneSub(3, [1, 0, 0], [0] + rest);
    OneSub(11, name, [3] + [1, 0, 0] + ([0] + rest));
    var s := Netscape() + rest;
    assert s[2..] == [11] + name + ([3] + [1, 0, 0] + ([0] + rest));
    var data := name + ([1, 0, 0] + []);
    assert data[12..14] == [0, 0];
    assert Rounds(data) == Some(0);
  }

  lemma FileRead(w: nat, h: nat, pal: seq<Colour>, fs: seq<Coded>)
    requires w < 0x1_0000 && h < 0x1_0000 && |pal| == 256 && forall i :: 0 <= i < |fs| ==> CodedOk(fs[i])
    ensures ReadGif(Head(w, h) + (TableBytes(pal) + (Netscape() + (FramesBytes(fs) + [0x3B]))))
            == Some(GifFile(w, h, pal, Show(Some(0), AllShown(fs))))
  {
    hide ReadBlocks, ReadTable, TableBytes, Netscape, FramesBytes, CodedOk;
    var rest := Netscape() + (FramesBytes(fs) + [0x3B]);
    var s := Head(w, h) + (TableBytes(pal) + rest);
    Png.Le16RoundTrip(w);
    Png.Le16RoundTrip(h);
    Pow2Values();
    HeadRead(w, h, TableBytes(pal) + rest);
    assert s[13..] == TableBytes(pal) + rest;
    assert s[13 + 3 * 256..] == rest by { assert s[13 + 3 * 256..] == s[13..][3 * 256..]; }
    TableRead(pal, rest);
    NetscapeRead(FramesBytes(fs) + [0x3B], PLAIN);
    FramesRead(fs, PLAIN);
  }

  lemma HeadRead(w: nat, h: nat, rest: seq<byte>)
    ensures var s := Head(w, h) + rest;
            |s| >= 13 && s[..6] == [0x47, 0x49, 0x46, 0x38, 0x39, 0x61] && s[6..8] == Png.Le16(w) &&
              s[8..10] == Png.Le16(h) &&
              s[10] == 0xF7 && s[13..] == rest
  {
    var a, b := Png.Le16(w), Png.Le16(h);
    assert Head(w, h) == [0x47, 0x49, 0x46, 0x38, 0x39, 0x61, a[0], a[1], b[0], b[1], 0xF7, 0, 0];
  }

  // ---------------------------------------------------------------- writer

  function PixelAt(im: Png.Image, i: nat): Colour
    requires 4 * i + 4 <= |im.px|
  {
    Colour(im.px[4 * i], im.px[4 * i + 1], im.px[4 * i + 2])
  }

  /** Each index is that of the first entry nearest to the pixel, its channels
      taken to the middle of their eighth: four bytes a pixel, red first. */
  ghost predicate Nearest(pal: seq<Colour>, im: Png.Image, indices: seq<byte>) {
    && 4 * |indices| <= |im.px|
    && forall i :: 0 <= i < |indices| ==> IsNearest(pal, Middle(im.px[4 * i..4 * i + 3]), indices[i])
  }

  method Indices(lut: Lut, im: Png.Image) returns (indices: seq<byte>)
    requires lut.Valid() && im.Valid()
    modifies lut.lut
    ensures lut.Valid() && |indices| == im.w * im.h && Nearest(lut.pal, im, indices)
  {
    hide IsNearest, Coarse;
    indices := [];
    for i := 0 to |im.px| / 4
      invariant lut.Valid() && |indices| == i && Nearest(lut.pal, im, indices)
    {
      var entry := lut.Index(PixelAt(im, i));
      PixelMiddle(im, i);
      indices := indices + [entry];
    }
    Quarter(im);
  }

  lemma PixelMiddle(im: Png.Image, i: nat)
    requires 4 * i + 4 <= |im.px|
    ensures Coarse(PixelAt(im, i)) == Middle(im.px[4 * i..4 * i + 3])
  {
  }

  lemma Quarter(im: Png.Image)
    requires im.Valid()
    ensures |im.px| / 4 == im.w * im.h && im.w * im.h > 0
  {
    assert im.w * im.h > 0;
  }

  /** Frames fit to be written together: all of one size that 16 bits hold. */
  ghost predicate Animation(frames: seq<Png.Image>) {
    && frames != [] && frames[0].w < 0x1_0000 && frames[0].h < 0x1_0000
    && forall i :: 0 <= i < |frames| ==> frames[i].Valid() && frames[i].w == frames[0].w && frames[i].h == frames[0].h
  }

  function DelayOf(n: nat, count: nat, delay: nat, hold: nat): nat {
    if n + 1 == count then hold else delay
  }

  ghost predicate Codes(fs: seq<Coded>, pal: seq<Colour>, frames: seq<Png.Image>, delay: nat, hold: nat)
    requires frames != [] && |fs| <= |frames|
  {
    forall i :: 0 <= i < |fs| ==>
      && CodedOk(fs[i]) && fs[i].delay == DelayOf(i, |frames|, delay, hold)
      && fs[i].w == frames[0].w && fs[i].h == frames[0].h && Nearest(pal, frames[i], fs[i].indices)
  }

  /** What a reader is to find: a show for ever of the frames in order, each at
      the upper left, none see-through, the last held, and for every pixel the
      first entry nearest to it. */
  ghost predicate Plays(g: GifFile, frames: seq<Png.Image>, delay: nat, hold: nat)
    requires Animation(frames)
  {
    && g.w == frames[0].w && g.h == frames[0].h && |g.table| == 256
    && g.show.loops == Some(0) && |g.show.frames| == |frames|
    && forall i :: 0 <= i < |frames| ==>
         var f := g.show.frames[i];
         && f.ctl == Ctl(if i == |frames| - 1 then hold else delay, 0, false)
         && f.left == f.top == 0 && f.w == g.w && f.h == g.h && |f.indices| == g.w * g.h
         && Nearest(g.table, frames[i], f.indices)
  }

  /** `gif`, for whatever frames; what is written plays them when they are of one
      size that 16 bits hold. */
  method Gif(frames: seq<Png.Image>, delay: nat, hold: nat) returns (out: seq<byte>)
    requires frames != [] && forall i :: 0 <= i < |frames| ==> frames[i].Valid()
    requires delay < 0x1_0000 && hold < 0x1_0000
    ensures Animation(frames) ==>
              && ReadGif(out).Some? && Plays(ReadGif(out).value, frames, delay, hold)
              && IsPalette(ReadGif(out).value.table, Samples(frames))
  {
    hide ReadGif, ReadBlocks, Rounds, Repeat, FramesBytes, TableBytes, IsPalette, Nearest, Samples, CodedOk, Netscape,
      Plays, AllShown, FrameBytes, Codes, SubBlocks, Lzw.Decode, Lzw.Stream, BitsOf;
    var w, h := frames[0].w % 0x1_0000, frames[0].h % 0x1_0000;
    var pal := Palette.Palette(frames);
    var lut := new Lut(pal);
    out := SIGNATURE;
    out := out + Png.Le16(w);
    out := out + Png.Le16(h);
    out := out + [0xF7, 0, 0];
    ghost var head := out;
    out := PushTable(out, pal);
    out := out + Netscape();
    ghost var fs: seq<Coded>, start := [], out;
    assert FramesBytes([]) == [] by { NoFrames(); }
    NoCodes(pal, frames, delay, hold);
    for n := 0 to |frames|
      invariant lut.Valid() && lut.pal == pal && fresh(lut.lut)
      invariant |fs| == n && out == start + FramesBytes(fs)
      invariant Animation(frames) ==> Codes(fs, pal, frames, delay, hold)
    {
      var wait := if n + 1 == |frames| then hold else delay;
      ghost var before := out;
      out := out + [0x21, 0xF9, 4, 0];
      out := out + Png.Le16(wait);
      out := out + [0, 0];
      out := out + [0x2C];
      out := out + [0, 0, 0, 0];
      out := out + Png.Le16(w);
      out := out + Png.Le16(h);
      out := out + [0];
      var indices := Indices(lut, frames[n]);
      Quarter(frames[n]);
      out := out + [8];
      var data := Lzw.Lzw(indices);
      out := PushSubBlocks(out, data);
      ghost var f := Coded(wait, w, h, data, indices);
      FramePushed(before, f);
      FramesAppend(fs, f);
      Regroup(start, FramesBytes(fs), FrameBytes(f));
      if Animation(frames) {
        CodedIsOk(f);
        MoreCodes(fs, f, pal, frames, delay, hold);
      }
      fs := fs + [f];
    }
    out := out + [0x3B];
    if Animation(frames) {
      CodesOk(fs, pal, frames, delay, hold);
      FileRead(w, h, pal, fs);
      Regroup(start, FramesBytes(fs), [0x3B]);
      Regroup(head + TableBytes(pal), Netscape(), FramesBytes(fs) + [0x3B]);
      Regroup(head, TableBytes(pal), Netscape() + (FramesBytes(fs) + [0x3B]));
      CodesPlay(fs, pal, frames, delay, hold);
    }
  }

  method PushTable(out: seq<byte>, pal: seq<Colour>) returns (r: seq<byte>)
    ensures r == out + TableBytes(pal)
  {
    r := out;
    for i := 0 to |pal|
      invariant r == out + TableBytes(pal[..i])
    {
      assert pal[..i + 1][..i] == pal[..i];
      r := r + [pal[i].r, pal[i].g, pal[i].b];
    }
    assert pal[..|pal|] == pal;
  }

  lemma NoCodes(pal: seq<Colour>, frames: seq<Png.Image>, delay: nat, hold: nat)
    requires frames != []
    ensures Codes([], pal, frames, delay, hold)
  {
  }

  lemma MoreCodes(fs: seq<Coded>, f: Coded, pal: seq<Colour>, frames: seq<Png.Image>, delay: nat, hold: nat)
    requires |fs| < |frames| && Codes(fs, pal, frames, delay, hold) && CodedOk(f)
    requires f.delay == DelayOf(|fs|, |frames|, delay, hold) && f.w == frames[0].w && f.h == frames[0].h
    requires Nearest(pal, frames[|fs|], f.indices)
    ensures Codes(fs + [f], pal, frames, delay, hold)
  {
    hide CodedOk, Nearest;
  }

  lemma NoFrames()
    ensures FramesBytes([]) == []
  {
  }

  lemma FramePushed(before: seq<byte>, f: Coded)
    ensures before + [0x21, 0xF9, 4, 0] + Png.Le16(f.delay) + [0, 0] + [0x2C] + [0, 0, 0, 0] + Png.Le16(f.w)
            + Png.Le16(f.h) + [0]
            + [8] + SubBlocks(f.data) == before + FrameBytes(f)
  {
    hide SubBlocks, Png.Le16;
  }

  lemma CodedIsOk(f: Coded)
    requires f.delay < 0x1_0000 && f.w < 0x1_0000 && f.h < 0x1_0000
    requires Lzw.Decode(8, f.data) == Some(f.indices) && |f.indices| == f.w * f.h
    ensures CodedOk(f)
  {
  }

  lemma CodesOk(fs: seq<Coded>, pal: seq<Colour>, frames: seq<Png.Image>, delay: nat, hold: nat)
    requires frames != [] && |fs| <= |frames| && Codes(fs, pal, frames, delay, hold)
    ensures forall i :: 0 <= i < |fs| ==> CodedOk(fs[i])
  {
  }

  lemma {:induction false} CodesPlay(fs: seq<Coded>, pal: seq<Colour>, frames: seq<Png.Image>, delay: nat, hold: nat)
    requires Animation(frames) && |fs| == |frames| && |pal| == 256 && Codes(fs, pal, frames, delay, hold)
    ensures Plays(GifFile(frames[0].w, frames[0].h, pal, Show(Some(0), AllShown(fs))), frames, delay, hold)
  {
    hide Nearest;
  }
}

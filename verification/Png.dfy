/** The PNG writer: RGB rows in stored deflate blocks, and a reader for what
    it writes (RFC 2083, RFC 1950, RFC 1951). */
module Png {
  import opened Bytes
  import opened Options
  import Crc32

  /** An RGBA image, row by row; its byte count is computed in 32-bit signed
      arithmetic when it is made. */
  datatype Image = Image(w: nat, h: nat, px: seq<byte>) {
    ghost predicate Valid() {
      w > 0 && h > 0 && |px| == w * h * 4 < 0x8000_0000
    }
  }

  // ------------------------------------------------------- number layouts

  function Be32(n: nat): (r: seq<byte>)
    ensures |r| == 4
  {
    [Low8(n / 256 / 256 / 256), Low8(n / 256 / 256), Low8(n / 256), Low8(n)]
  }

  function FromBe32(s: seq<byte>): nat
    requires |s| == 4
  {
    (s[0] as nat) * 0x100_0000 + (s[1] as nat) * 0x1_0000 + (s[2] as nat) * 256 + s[3] as nat
  }

  lemma Be32RoundTrip(n: nat)
    requires n < 0x1_0000_0000
    ensures FromBe32(Be32(n)) == n
  {
    var p := n / 256;
    var q := p / 256;
    var r := q / 256;
    assert n == 256 * p + n % 256 && p == 256 * q + p % 256 && q == 256 * r + q % 256 && r < 256;
  }

  function Le16(n: nat): (r: seq<byte>)
    ensures |r| == 2
  {
    [Low8(n), Low8(n / 256)]
  }

  function FromLe16(s: seq<byte>): nat
    requires |s| == 2
  {
    s[0] as nat + (s[1] as nat) * 256
  }

  lemma Le16RoundTrip(n: nat)
    requires n < 0x1_0000
    ensures FromLe16(Le16(n)) == n
  {
  }

  // ----------------------------------------------------------------- rows

  lemma PixelInside(im: Image, y: nat, x: nat)
    requires im.Valid() && y < im.h && x < im.w
    ensures 0 <= (y * im.w + x) * 4 <= |im.px| - 4
  {
    assert (y + 1) * im.w <= im.h * im.w;
  }

  /** Component `c` of a pixel. */
  function At(im: Image, y: nat, x: nat, c: nat): byte
    requires im.Valid() && y < im.h && x < im.w && c < 4
  {
    PixelInside(im, y, x);
    im.px[(y * im.w + x) * 4 + c]
  }

  /** The first `n` pixels of row `y`, three bytes each. */
  function Pixels(im: Image, y: nat, n: nat): (r: seq<byte>)
    requires im.Valid() && y < im.h && n <= im.w
    ensures |r| == 3 * n
  {
    if n == 0 then []
    else Pixels(im, y, n - 1) + [At(im, y, n - 1, 0), At(im, y, n - 1, 1), At(im, y, n - 1, 2)]
  }

  lemma {:induction false} PixelAt(im: Image, y: nat, n: nat, x: nat, c: nat)
    requires im.Valid() && y < im.h && x < n <= im.w && c < 3
    ensures Pixels(im, y, n)[3 * x + c] == At(im, y, x, c)
  {
    if x < n - 1 {
      PixelAt(im, y, n - 1, x, c);
    }
  }

  /** The first `n` rows as they are stored: filter type 0, then the pixels. */
  function Rows(im: Image, n: nat): (r: seq<seq<byte>>)
    requires im.Valid() && n <= im.h
    ensures |r| == n
    ensures forall y :: 0 <= y < n ==> r[y] == [0] + Pixels(im, y, im.w)
  {
    if n == 0 then [] else Rows(im, n - 1) + [[0] + Pixels(im, n - 1, im.w)]
  }

  method RawRows(im: Image) returns (raw: seq<byte>)
    requires im.Valid()
    ensures raw == Flatten(Rows(im, im.h))
  {
    raw := [];
    for y := 0 to im.h
      invariant raw == Flatten(Rows(im, y))
    {
      raw := PushRow(im, y, raw);
      RowStored(im, y);
    }
  }

  /** One round of the loop over the rows. */
  method PushRow(im: Image, y: nat, before: seq<byte>) returns (raw: seq<byte>)
    requires im.Valid() && y < im.h
    ensures raw == before + ([0] + Pixels(im, y, im.w))
  {
    raw := before + [0];
    for x := 0 to im.w
      invariant raw == before + ([0] + Pixels(im, y, x))
    {
      var p := PixelBytes(im, y, x);
      Regroup([0], Pixels(im, y, x), p);
      Regroup(before, [0] + Pixels(im, y, x), p);
      raw := raw + p;
    }
  }

  lemma RowStored(im: Image, y: nat)
    requires im.Valid() && y < im.h
    ensures Flatten(Rows(im, y + 1)) == Flatten(Rows(im, y)) + ([0] + Pixels(im, y, im.w))
  {
    FlattenAppend(Rows(im, y), [0] + Pixels(im, y, im.w));
  }

  method PixelBytes(im: Image, y: nat, x: nat) returns (p: seq<byte>)
    requires im.Valid() && y < im.h && x < im.w
    ensures p == [At(im, y, x, 0), At(im, y, x, 1), At(im, y, x, 2)]
  {
    PixelInside(im, y, x);
    var i := (y * im.w + x) * 4;
    p := im.px[i..][..3];
  }

  /** The reader's rows: `h` lines of a filter type, which must be 0, and `3 * w` bytes. */
  function Unfilter(raw: seq<byte>, w: nat, h: nat): Option<seq<seq<byte>>>
    decreases h
  {
    if h == 0 then
      if raw == [] then Some([]) else None
    else if |raw| < 3 * w + 1 || raw[0] != 0 then None
    else
      match Unfilter(raw[3 * w + 1..], w, h - 1)
      case None => None
      case Some(rest) => Some([raw[1..3 * w + 1]] + rest)
  }

  lemma {:induction false} UnfilterRows(rows: seq<seq<byte>>, w: nat)
    requires forall y :: 0 <= y < |rows| ==> |rows[y]| == 3 * w + 1 && rows[y][0] == 0
    ensures var r := Unfilter(Flatten(rows), w, |rows|);
            r.Some? && |r.value| == |rows| && forall y :: 0 <= y < |rows| ==> r.value[y] == rows[y][1..]
  {
    if rows != [] {
      var raw := Flatten(rows);
      UnfilterRows(rows[1..], w);
      assert raw[3 * w + 1..] == Flatten(rows[1..]);
      assert raw[1..3 * w + 1] == rows[0][1..];
    }
  }

  // ----------------------------------------------------------------- zlib

  const BLOCK := 65535

  function Block(c: seq<byte>, last: bool): seq<byte> {
    [if last then 1 else 0] + Le16(|c|) + Le16(65535 - |c| % 65536) + c
  }

  /** The stored blocks of a non-empty stream. */
  function Stored(raw: seq<byte>): seq<byte>
    decreases |raw|
  {
    if |raw| <= BLOCK then Block(raw, true)
    else Block(raw[..BLOCK], false) + Stored(raw[BLOCK..])
  }

  /** The unreduced Adler-32 sums: one plus the bytes, and the sum of those sums. */
  function SumA(raw: seq<byte>): nat {
    if raw == [] then 1 else SumA(raw[..|raw| - 1]) + raw[|raw| - 1]
  }

  function SumB(raw: seq<byte>): nat {
    if raw == [] then 0 else SumB(raw[..|raw| - 1]) + SumA(raw)
  }

  /** Section 8.2 of RFC 1950. */
  function Adler32(raw: seq<byte>): (r: nat)
    ensures r < 0x1_0000_0000
  {
    SumB(raw) % 65521 * 65536 + SumA(raw) % 65521
  }

  lemma AdlerStep(raw: seq<byte>, k: nat)
    requires k < |raw|
    ensures SumA(raw[..k + 1]) % 65521 == (SumA(raw[..k]) % 65521 + raw[k]) % 65521
    ensures SumB(raw[..k + 1]) % 65521 == (SumB(raw[..k]) % 65521 + SumA(raw[..k + 1]) % 65521) % 65521
  {
    assert raw[..k + 1][..k] == raw[..k];
    ModSum(SumA(raw[..k]), raw[k]);
    ModSum(SumB(raw[..k]), SumA(raw[..k + 1]) % 65521);
    ModSum(SumA(raw[..k + 1]), SumB(raw[..k]));
  }

  lemma ModSum(x: nat, y: nat)
    ensures (x + y) % 65521 == (x % 65521 + y) % 65521
  {
  }

  method ComputeAdler(raw: seq<byte>) returns (r: nat)
    ensures r == Adler32(raw)
  {
    var a: nat, b: nat := 1, 0;
    for k := 0 to |raw|
      invariant a == SumA(raw[..k]) % 65521 && b == SumB(raw[..k]) % 65521
    {
      assert a + raw[k] < 0x1_0000_0000 && b + 65520 < 0x1_0000_0000;
      AdlerStep(raw, k);
      a := (a + raw[k]) % 65521;
      b := (b + a) % 65521;
    }
    assert raw[..|raw|] == raw;
    r := b * 65536 + a;
  }

  method Zlib(raw: seq<byte>) returns (z: seq<byte>)
    requires raw != []
    ensures z == [0x78, 0x01] + Stored(raw) + Be32(Adler32(raw))
    ensures |z| == 6 + |raw| + 5 * ((|raw| + 65534) / 65535)
  {
    StoredSize(raw);
    z := [0x78, 0x01];
    var pos := 0;
    while pos < |raw|
      invariant 0 <= pos <= |raw|
      invariant if pos < |raw| then z + Stored(raw[pos..]) == [0x78, 0x01] + Stored(raw)
                else z == [0x78, 0x01] + Stored(raw)
    {
      ghost var rest, before := raw[pos..], z;
      var n := if |raw| - pos < BLOCK then |raw| - pos else BLOCK;
      var c := raw[pos..pos + n];
      assert c == rest[..n];
      pos := pos + n;
      z := z + [if pos == |raw| then 1 else 0];
      z := z + Le16(|c|);
      z := z + Le16(65535 - |c|);
      z := z + c;
      BlockPushed(before, c, pos == |raw|);
      if pos < |raw| {
        assert rest[BLOCK..] == raw[pos..];
        Regroup(before, Block(c, false), Stored(raw[pos..]));
      } else {
        assert c == rest;
      }
    }
    var adler := ComputeAdler(raw);
    z := z + Be32(adler);
  }

  lemma BlockPushed(z: seq<byte>, c: seq<byte>, last: bool)
    requires |c| <= BLOCK
    ensures z + [if last then 1 else 0] + Le16(|c|) + Le16(65535 - |c|) + c == z + Block(c, last)
  {
    hide Block, Le16;
    BlockIs(c, last);
    FiveBehind(z, [if last then 1 else 0], Le16(|c|), Le16(65535 - |c|), c);
  }

  lemma FiveBehind(z: seq<byte>, f: seq<byte>, n: seq<byte>, m: seq<byte>, c: seq<byte>)
    ensures z + f + n + m + c == z + (f + n + m + c)
  {
  }

  /** The reader's stored blocks (section 3.2.4 of RFC 1951): what they hold,
      and the bytes after the one that says it is the last. */
  function Inflate(s: seq<byte>): Option<(seq<byte>, seq<byte>)>
    decreases |s|
  {
    if |s| < 5 || s[0] / 2 % 4 != 0 then None
    else
      var len := FromLe16(s[1..3]);
      if FromLe16(s[3..5]) != 65535 - len || |s| < 5 + len then None
      else if s[0] % 2 == 1 then Some((s[5..5 + len], s[5 + len..]))
      else
        match Inflate(s[5 + len..])
        case None => None
        case Some((data, rest)) => Some((s[5..5 + len] + data, rest))
  }

  /** The zlib wrapper (section 2.2 of RFC 1950), without a preset dictionary. */
  function Unzlib(z: seq<byte>): Option<seq<byte>> {
    if |z| < 2 || z[0] % 16 != 8 || z[0] / 16 > 7 || ((z[0] as nat) * 256 + z[1] as nat) % 31 != 0 ||
      z[1] / 32 % 2 != 0 then None
    else
      match Inflate(z[2..])
      case None => None
      case Some((raw, check)) =>
        if |check| == 4 && FromBe32(check) == Adler32(raw) then Some(raw) else None
  }

  lemma {:induction false} InflateStored(raw: seq<byte>, rest: seq<byte>)
    ensures Inflate(Stored(raw) + rest) == Some((raw, rest))
    decreases |raw|
  {
    hide Inflate, Block;
    if |raw| <= BLOCK {
      BlockRead(raw, true, rest);
    } else {
      var c, more := raw[..BLOCK], Stored(raw[BLOCK..]) + rest;
      InflateStored(raw[BLOCK..], rest);
      BlockRead(c, false, more);
      Regroup(Block(c, false), Stored(raw[BLOCK..]), rest);
      assert c + raw[BLOCK..] == raw;
    }
  }

  lemma BlockRead(c: seq<byte>, last: bool, rest: seq<byte>)
    requires |c| <= BLOCK
    ensures last ==> Inflate(Block(c, last) + rest) == Some((c, rest))
    ensures !last && Inflate(rest).Some? ==>
              Inflate(Block(c, last) + rest) == Some((c + Inflate(rest).value.0, Inflate(rest).value.1))
  {
    var s := BlockParts(c, last, rest);
  }

  lemma BlockParts(c: seq<byte>, last: bool, rest: seq<byte>) returns (s: seq<byte>)
    requires |c| <= BLOCK
    ensures s == Block(c, last) + rest && |s| >= 5 + |c|
    ensures s[0] == (if last then 1 else 0) && FromLe16(s[1..3]) == |c| && FromLe16(s[3..5]) == 65535 - |c|
    ensures s[5..5 + |c|] == c && s[5 + |c|..] == rest
  {
    hide Block, Le16, FromLe16;
    s := Block(c, last) + rest;
    var n, m := Le16(|c|), Le16(65535 - |c|);
    Le16RoundTrip(|c|);
    Le16RoundTrip(65535 - |c|);
    BlockIs(c, last);
    HeadAndRest([if last then 1 else 0], n, m, c, rest);
  }

  lemma {:induction false} BlockIs(c: seq<byte>, last: bool)
    requires |c| <= BLOCK
    ensures Block(c, last) == [if last then 1 else 0] + Le16(|c|) + Le16(65535 - |c|) + c
  {
  }

  lemma HeadAndRest(f: seq<byte>, n: seq<byte>, m: seq<byte>, c: seq<byte>, rest: seq<byte>)
    requires |f| == 1 && |n| == |m| == 2
    ensures var s := (f + n + m + c) + rest;
            && s[0] == f[0] && s[1..3] == n && s[3..5] == m && s[5..5 + |c|] == c && s[5 + |c|..] == rest
  {
  }

  lemma UnzlibZlib(raw: seq<byte>)
    ensures Unzlib([0x78, 0x01] + Stored(raw) + Be32(Adler32(raw))) == Some(raw)
  {
    var body := Stored(raw) + Be32(Adler32(raw));
    Regroup([0x78, 0x01], Stored(raw), Be32(Adler32(raw)));
    InflateStored(raw, Be32(Adler32(raw)));
    Be32RoundTrip(Adler32(raw));
    HeaderRead(body);
  }

  lemma HeaderRead(body: seq<byte>)
    ensures Unzlib([0x78, 0x01] + body) ==
            match Inflate(body) {
              case None => None
              case Some((raw, check)) =>
                if |check| == 4 && FromBe32(check) == Adler32(raw) then Some(raw) else None
            }
  {
    assert ([0x78, 0x01] + body)[2..] == body;
  }

  /** How many bytes the stored blocks take: five more for each 65535. */
  lemma {:induction false} StoredSize(raw: seq<byte>)
    requires raw != []
    ensures |Stored(raw)| == |raw| + 5 * ((|raw| + 65534) / 65535)
    decreases |raw|
  {
    if |raw| > BLOCK {
      StoredSize(raw[BLOCK..]);
      assert (|raw| - 65535 + 65534) / 65535 == (|raw| + 65534) / 65535 - 1;
    }
  }

  // --------------------------------------------------------------- chunks

  function CrcOf(data: seq<byte>): nat {
    Crc32.Crc(data) as nat
  }

  /** Section 3.2 of RFC 2083. */
  function Chunk(tag: seq<byte>, data: seq<byte>): seq<byte> {
    Be32(|data|) + tag + data + Be32(CrcOf(tag + data))
  }

  datatype ChunkRead = ChunkRead(tag: seq<byte>, data: seq<byte>, rest: seq<byte>)

  /** The reader's next chunk; its length and CRC must be right. */
  function ReadChunk(s: seq<byte>): Option<ChunkRead> {
    if |s| < 12 then None
    else
      var len := FromBe32(s[..4]);
      if |s| < 12 + len then None
      else
        var tag, data := s[4..8], s[8..8 + len];
        if FromBe32(s[8 + len..12 + len]) != Crc32.Crc(tag + data) as nat then None
        else Some(ChunkRead(tag, data, s[12 + len..]))
  }

  lemma ChunkRoundTrip(tag: seq<byte>, data: seq<byte>, rest: seq<byte>)
    requires |tag| == 4 && |data| < 0x1_0000_0000
    ensures ReadChunk(Chunk(tag, data) + rest) == Some(ChunkRead(tag, data, rest))
  {
    var n, crc := |data|, CrcOf(tag + data);
    Be32RoundTrip(n);
    Be32RoundTrip(crc);
    ChunkParts(Be32(n), tag, data, Be32(crc), rest);
  }

  lemma ChunkParts(len: seq<byte>, tag: seq<byte>, data: seq<byte>, crc: seq<byte>, rest: seq<byte>)
    requires |len| == |tag| == |crc| == 4
    ensures var s, n := len + tag + data + crc + rest, |data|;
            && s[..4] == len && s[4..8] == tag && s[8..8 + n] == data
            && s[8 + n..12 + n] == crc && s[12 + n..] == rest
  {
  }

  /** The data of every IDAT chunk up to IEND, after which nothing may follow. */
  function ReadData(s: seq<byte>): Option<seq<byte>>
    decreases |s|
  {
    match ReadChunk(s)
    case None => None
    case Some(c) =>
      if c.tag == [73, 69, 78, 68] then
        if c.data == [] && c.rest == [] then Some([]) else None
      else if c.tag != [73, 68, 65, 84] then None
      else
        match ReadData(c.rest)
        case None => None
        case Some(more) => Some(c.data + more)
  }

  datatype Decoded = Decoded(w: nat, h: nat, rows: seq<seq<byte>>)

  /** An 8-bit RGB image without interlacing. */
  function ReadPng(s: seq<byte>): Option<Decoded> {
    if |s| < 8 || s[..8] != [0x89, 80, 78, 71, 0x0D, 0x0A, 0x1A, 0x0A] then None
    else
      match ReadChunk(s[8..])
      case None => None
      case Some(c) =>
        if c.tag != [73, 72, 68, 82] || |c.data| != 13 || c.data[8..] != [8, 2, 0, 0, 0] then None
        else
          var w, h := FromBe32(c.data[..4]), FromBe32(c.data[4..8]);
          match ReadData(c.rest)
          case None => None
          case Some(z) =>
            match Unzlib(z)
            case None => None
            case Some(raw) =>
              match Unfilter(raw, w, h)
              case None => None
              case Some(rows) => Some(Decoded(w, h, rows))
  }

  const IHDR: seq<byte> := [73, 72, 68, 82]
  const IDAT: seq<byte> := [73, 68, 65, 84]
  const IEND: seq<byte> := [73, 69, 78, 68]
  const SIGNATURE: seq<byte> := [0x89, 80, 78, 71, 0x0D, 0x0A, 0x1A, 0x0A]

  function Header(im: Image): seq<byte> {
    Be32(im.w) + Be32(im.h) + [8, 2, 0, 0, 0]
  }

  /** The chunk-writing closure. */
  method PushChunk(out: seq<byte>, tag: seq<byte>, data: seq<byte>) returns (r: seq<byte>)
    ensures r == out + Chunk(tag, data)
  {
    r := out + Be32(|data|);
    var body := tag + data;
    r := r + body;
    var crc := Crc32.ComputeCrc(body);
    r := r + Be32(crc as nat);
  }

  /** Row `y` of the decoded image has the red, green and blue of pixel `x`. */
  ghost predicate ShowsPixel(d: Decoded, im: Image, y: nat, x: nat)
    requires y < |d.rows| && 3 * x + 3 <= |d.rows[y]| && 4 * (y * im.w + x) + 4 <= |im.px|
  {
    var k := 4 * (y * im.w + x);
    d.rows[y][3 * x..3 * x + 3] == [im.px[k], im.px[k + 1], im.px[k + 2]]
  }

  /** The decoded image has the size and, pixel by pixel, the colours of `im`. */
  ghost predicate Shows(d: Decoded, im: Image)
    requires im.Valid()
  {
    && d.w == im.w && d.h == im.h && |d.rows| == im.h
    && (forall y :: 0 <= y < im.h ==> |d.rows[y]| == 3 * im.w)
    && forall y: nat, x: nat ::
         y < im.h && x < im.w ==> (PixelInside(im, y, x); ShowsPixel(d, im, y, x))
  }

  /** The writer: any reader that follows the three standards gets the size and
      every pixel back. */
  method Png(im: Image) returns (out: seq<byte>)
    requires im.Valid()
    ensures ReadPng(out).Some? && Shows(ReadPng(out).value, im)
  {
    var raw := RawRows(im);
    RawSize(im);
    var z := Zlib(raw);
    out := PushChunk(SIGNATURE, IHDR, Header(im));
    out := PushChunk(out, IDAT, z);
    out := PushChunk(out, IEND, []);
    UnzlibZlib(raw);
    StoredSize(raw);
    FileRead(im, z);
    RowsShow(im);
  }

  lemma RawSize(im: Image)
    requires im.Valid()
    ensures 0 < |Flatten(Rows(im, im.h))| < 0x8000_0000 && im.w < 0x8000_0000 && im.h < 0x8000_0000
  {
    FlattenSize(Rows(im, im.h), 3 * im.w + 1);
    SidesFit(im.w, im.h);
  }

  lemma SidesFit(w: nat, h: nat)
    requires w > 0 && h > 0 && w * h * 4 < 0x8000_0000
    ensures 0 < h * (3 * w + 1) <= w * h * 4 && w <= w * h && h <= w * h
  {
    assert h * (3 * w + 1) == w * h * 3 + h;
  }

  /** The two chunks and the trailer are read back. */
  lemma FileRead(im: Image, z: seq<byte>)
    requires im.w < 0x8000_0000 && im.h < 0x8000_0000 && |z| < 0x1_0000_0000
    ensures ReadPng(SIGNATURE + Chunk(IHDR, Header(im)) + Chunk(IDAT, z) + Chunk(IEND, [])) ==
            match Unzlib(z) {
              case None => None
              case Some(raw) =>
                match Unfilter(raw, im.w, im.h) {
                  case None => None
                  case Some(rows) => Some(Decoded(im.w, im.h, rows))
                }
            }
  {
    var c2, c3 := Chunk(IDAT, z), Chunk(IEND, []);
    var c1 := Chunk(IHDR, Header(im));
    Regroup(SIGNATURE + c1, c2, c3);
    Regroup(SIGNATURE, c1, c2 + c3);
    var s := SIGNATURE + (c1 + (c2 + c3));
    assert s[8..] == c1 + (c2 + c3) && s[..8] == SIGNATURE;
    ChunkRoundTrip(IHDR, Header(im), c2 + c3);
    DataRead(z);
    HeaderReads(im);
  }

  lemma DataRead(z: seq<byte>)
    requires |z| < 0x1_0000_0000
    ensures ReadData(Chunk(IDAT, z) + Chunk(IEND, [])) == Some(z)
  {
    ChunkRoundTrip(IDAT, z, Chunk(IEND, []));
    ChunkRoundTrip(IEND, [], []);
    assert Chunk(IEND, []) + [] == Chunk(IEND, []);
    assert ReadData(Chunk(IEND, [])) == Some([]);
    assert z + [] == z;
  }

  lemma HeaderReads(im: Image)
    requires im.w < 0x8000_0000 && im.h < 0x8000_0000
    ensures var d := Header(im);
            |d| == 13 && FromBe32(d[..4]) == im.w && FromBe32(d[4..8]) == im.h && d[8..] == [8, 2, 0, 0, 0]
  {
    Be32RoundTrip(im.w);
    Be32RoundTrip(im.h);
    assert Header(im)[..4] == Be32(im.w) && Header(im)[4..8] == Be32(im.h);
  }

  lemma RowsShow(im: Image)
    requires im.Valid()
    ensures var r := Unfilter(Flatten(Rows(im, im.h)), im.w, im.h);
            r.Some? && Shows(Decoded(im.w, im.h, r.value), im)
  {
    hide Unfilter, Pixels, ShowsPixel;
    var rows := Rows(im, im.h);
    UnfilterRows(rows, im.w);
    var d := Decoded(im.w, im.h, Unfilter(Flatten(rows), im.w, im.h).value);
    forall y: nat | y < im.h ensures d.rows[y] == Pixels(im, y, im.w) {
      assert d.rows[y] == rows[y][1..];
    }
    forall y: nat, x: nat | y < im.h && x < im.w
      ensures 4 * (y * im.w + x) + 4 <= |im.px| && ShowsPixel(d, im, y, x)
    {
      PixelInside(im, y, x);
      PixelShown(d, im, y, x);
    }
  }

  lemma PixelShown(d: Decoded, im: Image, y: nat, x: nat)
    requires im.Valid() && y < im.h && x < im.w && y < |d.rows| && d.rows[y] == Pixels(im, y, im.w)
    ensures 4 * (y * im.w + x) + 4 <= |im.px| && ShowsPixel(d, im, y, x)
  {
    hide Pixels;
    PixelInside(im, y, x);
    PixelAt(im, y, im.w, x, 0);
    PixelAt(im, y, im.w, x, 1);
    PixelAt(im, y, im.w, x, 2);
  }
}

/**
 `screenshot_png` of `monitor_sync.py`: from VICE's indexed display and palette to the bytes of a PNG.
 The layout read back here is that of RFC 2083: signature and chunks as in section 3, IHDR as in section
 4.1.1, unfiltered 8-bit truecolour scanlines.  zlib and CRC-32 are parameters.
 */
module Screenshot {
  import opened Common
  import opened Bytes
  import opened MonitorItems

  const SIGNATURE: Bytes := [137, 80, 78, 71, 13, 10, 26, 10]
  const IHDR: Bytes := [73, 72, 68, 82]
  const IDAT: Bytes := [73, 68, 65, 84]
  const IEND: Bytes := [73, 69, 78, 68]

  /** Python's `s[lo:hi]` for non-negative bounds. */
  function Slice(s: Bytes, lo: nat, hi: nat): Bytes {
    var end := if hi < |s| then hi else |s|;
    if lo < end then s[lo..end] else []
  }

  function Join(parts: seq<Bytes>): Bytes {
    if parts == [] then [] else parts[0] + Join(parts[1..])
  }

  // ---------- The display response ----------

  datatype Display = Display(width: nat, height: nat, x: nat, y: nat, innerWidth: nat, innerHeight: nat, pixels: Bytes)

  /** The checks on the reply to command 0x84; None where the source raises. */
  function ParseDisplay(d: Bytes): Option<Display> {
    if |d| < 21 || FromLe32(d, 0) != 13 then None
    else
      var width, height := FromLe16(d, 4), FromLe16(d, 6);
      var pixels := Slice(d, 21, 21 + FromLe32(d, 17));
      if d[16] != 8 || |pixels| != width * height then None
      else Some(Display(width, height, FromLe16(d, 8), FromLe16(d, 10), FromLe16(d, 12), FromLe16(d, 14), pixels))
  }

  /** The first 21 bytes of the emulator's answer: the size of the fields that follow, the fields, 8 bits a
      pixel, and the number of pixel bytes. */
  function DisplayHeader(d: Display, length: nat): Bytes
    requires Shown(d) && length < U32_LIMIT
  {
    Le32(13) + Le16(d.width) + Le16(d.height) + Le16(d.x) + Le16(d.y) + Le16(d.innerWidth) + Le16(d.innerHeight)
    + [8] + Le32(length)
  }

  ghost predicate Shown(d: Display) {
    && d.width < U16_LIMIT && d.height < U16_LIMIT && d.x < U16_LIMIT && d.y < U16_LIMIT
    && d.innerWidth < U16_LIMIT && d.innerHeight < U16_LIMIT && |d.pixels| == d.width * d.height
  }

  /** The answer is that display: header, pixels, and anything behind them; the header may announce more
      pixels than there are if the answer ends with them. */
  ghost predicate Answers(b: Bytes, d: Display) {
    && Shown(d) && |b| >= 21 && d.pixels <= b[21..]
    && exists length: nat :: length < U32_LIMIT && b[..21] == DisplayHeader(d, length)
         && (length == |d.pixels| || (length > |d.pixels| && b[21..] == d.pixels))
  }

  lemma HeaderFields(b: Bytes, d: Display, length: nat)
    requires Shown(d) && length < U32_LIMIT && |b| >= 21
    ensures b[..21] == DisplayHeader(d, length) <==> HasFields(b, d, length)
  {
    hide Le16, Le32, FromLe16, FromLe32;
    Le32RoundTrip(b, 0, 13);
    Le16RoundTrip(b, 4, d.width);
    Le16RoundTrip(b, 6, d.height);
    Le16RoundTrip(b, 8, d.x);
    Le16RoundTrip(b, 10, d.y);
    Le16RoundTrip(b, 12, d.innerWidth);
    Le16RoundTrip(b, 14, d.innerHeight);
    Le32RoundTrip(b, 17, length);
    HeaderCut(b, d, length);
  }

  lemma FieldSizes(n: nat)
    ensures n < U16_LIMIT ==> |Le16(n)| == 2
    ensures n < U32_LIMIT ==> |Le32(n)| == 4
  {
  }

  lemma HeaderCut(b: Bytes, d: Display, length: nat)
    requires Shown(d) && length < U32_LIMIT && |b| >= 21
    ensures b[..21] == DisplayHeader(d, length) <==>
      && b[0..4] == Le32(13) && b[4..6] == Le16(d.width) && b[6..8] == Le16(d.height) && b[8..10] == Le16(d.x)
      && b[10..12] == Le16(d.y) && b[12..14] == Le16(d.innerWidth) && b[14..16] == Le16(d.innerHeight)
      && b[16] == 8 && b[17..21] == Le32(length)
  {
    hide Le16, Le32;
    FieldSizes(13);
    FieldSizes(d.width);
    FieldSizes(d.height);
    FieldSizes(d.x);
    FieldSizes(d.y);
    FieldSizes(d.innerWidth);
    FieldSizes(d.innerHeight);
    FieldSizes(length);
    var h := b[..21];
    assert h == b[0..4] + b[4..6] + b[6..8] + b[8..10] + b[10..12] + b[12..14] + b[14..16] + [b[16]] + b[17..21];
    if h == DisplayHeader(d, length) {
      assert h[0..4] == Le32(13) && h[4..6] == Le16(d.width) && h[6..8] == Le16(d.height);
      assert h[8..10] == Le16(d.x) && h[10..12] == Le16(d.y) && h[12..14] == Le16(d.innerWidth);
      assert h[14..16] == Le16(d.innerHeight) && h[17..21] == Le32(length);
    }
  }

  lemma PixelsCut(b: Bytes, length: nat, pixels: Bytes)
    requires |b| >= 21
    ensures Slice(b, 21, 21 + length) == pixels <==>
      pixels <= b[21..] && (length == |pixels| || (length > |pixels| && b[21..] == pixels))
  {
    if 21 + length <= |b| {
      assert b[21..21 + length] == b[21..][..length];
    } else {
      assert b[21..|b|] == b[21..];
    }
  }

  lemma Field16(b: Bytes, at: nat)
    requires at + 2 <= |b|
    ensures FromLe16(b, at) < U16_LIMIT
  {
  }

  lemma ParsedIsShown(b: Bytes)
    requires ParseDisplay(b).Some?
    ensures Shown(ParseDisplay(b).value)
  {
    hide FromLe16, Slice;
    Field16(b, 4);
    Field16(b, 6);
    Field16(b, 8);
    Field16(b, 10);
    Field16(b, 12);
    Field16(b, 14);
  }

  /** The answers accepted are exactly those that are a display, and they are read as that display. */
  lemma DisplayRoundTrip(b: Bytes, d: Display)
    ensures ParseDisplay(b) == Some(d) <==> Answers(b, d)
  {
    hide Slice, DisplayHeader, FromLe16, FromLe32;
    if ParseDisplay(b) == Some(d) { ParsedIsShown(b); }
    if Shown(d) && |b| >= 21 {
      forall length: nat | length < U32_LIMIT
        ensures b[..21] == DisplayHeader(d, length) <==> HasFields(b, d, length)
      {
        HeaderFields(b, d, length);
      }
      var length := FromLe32(b, 17);
      PixelsCut(b, length, d.pixels);
      assert b[..21] == DisplayHeader(d, length) <==> HasFields(b, d, length);
    }
  }

  ghost predicate HasFields(b: Bytes, d: Display, length: nat)
    requires |b| >= 21
  {
    && FromLe32(b, 0) == 13 && FromLe16(b, 4) == d.width && FromLe16(b, 6) == d.height
    && FromLe16(b, 8) == d.x && FromLe16(b, 10) == d.y
    && FromLe16(b, 12) == d.innerWidth && FromLe16(b, 14) == d.innerHeight
    && b[16] == 8 && FromLe32(b, 17) == length
  }

  /** The inner rectangle lies inside the display. */
  predicate InBounds(d: Display) { d.x + d.innerWidth <= d.width && d.y + d.innerHeight <= d.height }

  /** The rows cut out when the border is left off. */
  function CropRows(d: Display): seq<Bytes> {
    seq(d.innerHeight, row requires 0 <= row < d.innerHeight =>
      Slice(d.pixels, (d.y + row) * d.width + d.x, (d.y + row) * d.width + d.x + d.innerWidth))
  }

  function Crop(d: Display, includeBorder: bool): Display {
    if includeBorder then d
    else d.(width := d.innerWidth, height := d.innerHeight, pixels := Join(CropRows(d)))
  }

  // ---------- Building the file ----------

  /** The palette colours of a run of indexes; None where one is past the end of the palette. */
  function Colours(indexes: Bytes, rgb: seq<Bytes>): Option<Bytes> {
    if indexes == [] then Some([])
    else if indexes[0] >= |rgb| then None
    else
      match Colours(indexes[1..], rgb)
      case None => None
      case Some(rest) => Some(rgb[indexes[0]] + rest)
  }

  /** `pixels[row * width : (row + 1) * width]`. */
  function Row(d: Display, row: nat): Bytes { Slice(d.pixels, row * d.width, (row + 1) * d.width) }

  function RowColours(d: Display, row: nat, rgb: seq<Bytes>): Option<Bytes> {
    Colours(Row(d, row), rgb)
  }

  /** Every row behind its filter byte 0. */
  function Scanlines(d: Display, rgb: seq<Bytes>): Option<seq<Bytes>> {
    if forall row :: 0 <= row < d.height ==> RowColours(d, row, rgb).Some? then
      Some(seq(d.height, row requires 0 <= row < d.height && RowColours(d, row, rgb).Some? =>
        [0] + RowColours(d, row, rgb).value))
    else None
  }

  type u32 = n: nat | n < U32_LIMIT

  type Checksum = Bytes -> u32

  function Chunk(kind: Bytes, data: Bytes, crc: Checksum): Bytes
    requires |data| < U32_LIMIT
  {
    Be32(|data|) + kind + data + Be32(crc(kind + data))
  }

  function Header(width: nat, height: nat): Bytes
    requires width < U32_LIMIT && height < U32_LIMIT
  {
    Be32(width) + Be32(height) + [8, 2, 0, 0, 0]
  }

  /** The file for a display and its scanlines; None where a chunk would be too long to pack. */
  function PngFile(width: nat, height: nat, lines: seq<Bytes>, compress: Bytes -> Bytes, crc: Checksum): Option<Bytes>
    requires width < U32_LIMIT && height < U32_LIMIT
  {
    var data := compress(Join(lines));
    if |data| >= U32_LIMIT then None
    else Some(SIGNATURE + Chunk(IHDR, Header(width, height), crc) + Chunk(IDAT, data, crc) + Chunk(IEND, [], crc))
  }

  /** `screenshot_png` up to writing the file; None where it raises. */
  function ScreenshotPng(display: Bytes, palette: Bytes, includeBorder: bool, compress: Bytes -> Bytes, crc: Checksum): Option<Bytes> {
    match (ParseDisplay(display), ParseItems(palette))
    case (Some(full), Some(rgb)) =>
      var d := Crop(full, includeBorder);
      (match Scanlines(d, rgb)
       case None => None
       case Some(lines) => PngFile(d.width, d.height, lines, compress, crc))
    case _ => None
  }

  // ---------- Reading it back ----------

  /** One chunk with a correct CRC off the front of the data: its type, its data, and what follows. */
  function ReadChunk(data: Bytes, crc: Checksum): Option<(Bytes, Bytes, Bytes)> {
    if |data| < 12 then None
    else
      var n := FromBe32(data, 0);
      if |data| < 12 + n || FromBe32(data, 8 + n) != crc(data[4..8] + data[8..8 + n]) then None
      else Some((data[4..8], data[8..8 + n], data[12 + n..]))
  }

  /** An 8-bit truecolour image as its unfiltered scanlines. */
  datatype Image = Image(width: nat, height: nat, raw: Bytes)

  function Ascii(s: string): Bytes {
    seq(|s|, i requires 0 <= i < |s| => if s[i] < 128 as char then s[i] as int else 0)
  }

  /** A viewer for files with exactly the chunks IHDR, IDAT, IEND and no filtering. */
  function DecodePng(file: Bytes, decompress: Bytes -> Bytes, crc: Checksum): Option<Image> {
    if |file| < 8 || file[..8] != [0x89, 0x50, 0x4E, 0x47, 0x0D, 0x0A, 0x1A, 0x0A] then None
    else
      match ReadChunk(file[8..], crc)
      case None => None
      case Some((k1, header, rest1)) =>
        match ReadChunk(rest1, crc)
        case None => None
        case Some((k2, data, rest2)) =>
          match ReadChunk(rest2, crc)
          case None => None
          case Some((k3, end, rest3)) =>
            if k1 != Ascii("IHDR") || k2 != Ascii("IDAT") || k3 != Ascii("IEND") || end != [] || rest3 != [] ||
               |header| != 13 || header[8..] != [8, 2, 0, 0, 0] then None
            else
              var image := Image(FromBe32(header, 0), FromBe32(header, 4), decompress(data));
              if |image.raw| == image.height * (1 + 3 * image.width) then Some(image) else None
  }

  /** The colour at row `r`, column `c`. */
  function Pixel(image: Image, r: nat, c: nat): Bytes {
    var at := r * (1 + 3 * image.width) + 1 + 3 * c;
    Slice(image.raw, at, at + 3)
  }

  lemma ChunkRoundTrip(kind: Bytes, data: Bytes, crc: Checksum, rest: Bytes)
    requires |kind| == 4 && |data| < U32_LIMIT
    ensures ReadChunk(Chunk(kind, data, crc) + rest, crc) == Some((kind, data, rest))
  {
    hide Be32;
    var f := Chunk(kind, data, crc) + rest;
    var n := |data|;
    Be32Size(n);
    Be32Size(crc(kind + data));
    assert f[0..4] == Be32(n);
    Be32RoundTrip(f, 0, n);
    assert f[4..8] == kind && f[8..8 + n] == data;
    assert f[8 + n..12 + n] == Be32(crc(kind + data));
    Be32RoundTrip(f, 8 + n, crc(kind + data));
    assert f[12 + n..] == rest;
  }

  lemma Be32Size(n: nat)
    requires n < U32_LIMIT
    ensures |Be32(n)| == 4
  {
  }

  lemma HeaderRoundTrip(width: nat, height: nat)
    requires width < U32_LIMIT && height < U32_LIMIT
    ensures var h := Header(width, height);
      |h| == 13 && FromBe32(h, 0) == width && FromBe32(h, 4) == height && h[8..] == [8, 2, 0, 0, 0]
  {
    var h := Header(width, height);
    assert h[0..4] == Be32(width) && h[4..8] == Be32(height);
    Be32RoundTrip(h, 0, width);
    Be32RoundTrip(h, 4, height);
  }

  /** The file's chunks are IHDR, IDAT and IEND with correct lengths and checksums. */
  lemma FileRoundTrip(width: nat, height: nat, data: Bytes, decompress: Bytes -> Bytes, crc: Checksum)
    requires width < U32_LIMIT && height < U32_LIMIT && |data| < U32_LIMIT
    requires |decompress(data)| == height * (1 + 3 * width)
    ensures
      DecodePng(SIGNATURE + Chunk(IHDR, Header(width, height), crc) + Chunk(IDAT, data, crc) + Chunk(IEND, [], crc),
                decompress, crc)
      == Some(Image(width, height, decompress(data)))
  {
    hide Chunk, ReadChunk, Header;
    HeaderRoundTrip(width, height);
    var c1, c2, c3 := Chunk(IHDR, Header(width, height), crc), Chunk(IDAT, data, crc), Chunk(IEND, [], crc);
    var file := SIGNATURE + c1 + c2 + c3;
    assert file[..8] == SIGNATURE && file[8..] == c1 + (c2 + c3);
    ChunkRoundTrip(IHDR, Header(width, height), crc, c2 + c3);
    ChunkRoundTrip(IDAT, data, crc, c3);
    ChunkRoundTrip(IEND, [], crc, []);
    assert c3 + [] == c3;
  }

  // ---------- Pixels ----------

  lemma RowOffset(r: nat, n: nat)
    ensures (r + 1) * n == r * n + n
  {
  }

  lemma RowInside(r: nat, rows: nat, n: nat)
    requires r < rows
    ensures r * n + n <= rows * n
  {
    RowOffset(r, n);
    MulMonotone(r + 1, rows, n);
  }

  lemma SliceFront(a: Bytes, b: Bytes)
    ensures Slice(a + b, 0, |a|) == a
  {
  }

  lemma {:induction false} JoinSize(parts: seq<Bytes>, n: nat)
    requires forall i :: 0 <= i < |parts| ==> |parts[i]| == n
    ensures |Join(parts)| == |parts| * n
  {
    if parts != [] {
      JoinSize(parts[1..], n);
      RowOffset(|parts| - 1, n);
    }
  }

  lemma {:induction false} JoinSlice(parts: seq<Bytes>, n: nat, r: nat)
    requires forall i :: 0 <= i < |parts| ==> |parts[i]| == n
    requires r < |parts|
    ensures Slice(Join(parts), r * n, r * n + n) == parts[r]
  {
    hide Slice;
    var rest := Join(parts[1..]);
    if r == 0 {
      SliceFront(parts[0], rest);
    } else {
      JoinSlice(parts[1..], n, r - 1);
      RowOffset(r - 1, n);
      SliceShift(parts[0], rest, (r - 1) * n, (r - 1) * n + n);
    }
  }

  lemma SliceShift(a: Bytes, b: Bytes, lo: nat, hi: nat)
    ensures Slice(a + b, |a| + lo, |a| + hi) == Slice(b, lo, hi)
  {
  }

  lemma {:induction false} ColoursAt(indexes: Bytes, rgb: seq<Bytes>, c: nat)
    requires forall k :: 0 <= k < |indexes| ==> indexes[k] < |rgb|
    requires forall e :: 0 <= e < |rgb| ==> |rgb[e]| == 3
    ensures Colours(indexes, rgb).Some? && |Colours(indexes, rgb).value| == 3 * |indexes|
    ensures c < |indexes| ==> Slice(Colours(indexes, rgb).value, 3 * c, 3 * c + 3) == rgb[indexes[c]]
  {
    if indexes != [] {
      ColoursAt(indexes[1..], rgb, if c == 0 then 0 else c - 1);
      var rest := Colours(indexes[1..], rgb).value;
      if c > 0 { SliceShift(rgb[indexes[0]], rest, 3 * (c - 1), 3 * (c - 1) + 3); }
    }
  }

  /** A slice of a slice. */
  lemma SliceSlice(s: Bytes, lo: nat, hi: nat, a: nat, b: nat)
    requires lo <= hi <= |s| && a <= b <= hi - lo
    ensures Slice(s, lo + a, lo + b) == Slice(Slice(s, lo, hi), a, b)
  {
    if a < b {
      assert s[lo + a..lo + b] == s[lo..hi][a..b];
    }
  }

  lemma CropRowAt(d: Display, r: nat)
    requires |d.pixels| == d.width * d.height && InBounds(d) && r < d.innerHeight
    ensures r < |CropRows(d)| && |CropRows(d)[r]| == d.innerWidth
    ensures (d.y + r) * d.width + d.x + d.innerWidth <= |d.pixels|
    ensures forall c :: 0 <= c < d.innerWidth ==> CropRows(d)[r][c] == d.pixels[(d.y + r) * d.width + d.x + c]
  {
    RowInside(d.y + r, d.height, d.width);
    var start := (d.y + r) * d.width;
    assert CropRows(d)[r] == Slice(d.pixels, start + d.x, start + d.x + d.innerWidth);
    assert start + d.width <= |d.pixels|;
    SliceIs(d.pixels, start + d.x, start + d.x + d.innerWidth);
  }

  lemma CropRowCount(d: Display)
    ensures |CropRows(d)| == d.innerHeight
  {
  }

  lemma SliceIs(s: Bytes, lo: nat, hi: nat)
    requires lo <= hi <= |s|
    ensures Slice(s, lo, hi) == s[lo..hi]
  {
  }

  /** The index of the (cropped) display at (r, c): the display's own at (y + r, x + c), or at (r, c). */
  function IndexAt(d: Display, includeBorder: bool, r: nat, c: nat): int {
    if includeBorder then r * d.width + c else (d.y + r) * d.width + d.x + c
  }

  lemma FullRow(d: Display, r: nat)
    requires |d.pixels| == d.width * d.height && r < d.height
    ensures var start := r * d.width;
      start + d.width <= |d.pixels| && Row(d, r) == d.pixels[start..start + d.width]
  {
    RowOffset(r, d.width);
    RowInside(r, d.height, d.width);
    SliceIs(d.pixels, r * d.width, r * d.width + d.width);
  }

  lemma CroppedRow(d: Display, r: nat)
    requires |d.pixels| == d.width * d.height && InBounds(d) && r < d.innerHeight
    ensures |CropRows(d)| == d.innerHeight && Row(Crop(d, false), r) == CropRows(d)[r]
  {
    hide Slice, Join, CropRows;
    CropRowCount(d);
    forall i | 0 <= i < d.innerHeight ensures |CropRows(d)[i]| == d.innerWidth { CropRowAt(d, i); }
    JoinSlice(CropRows(d), d.innerWidth, r);
    RowOffset(r, d.innerWidth);
  }

  /** The rows of the (cropped) display have the width claimed and the right indexes in them. */
  lemma CropAt(d: Display, includeBorder: bool, r: nat)
    requires |d.pixels| == d.width * d.height && (!includeBorder ==> InBounds(d))
    requires r < Crop(d, includeBorder).height
    ensures
      var e := Crop(d, includeBorder);
      && |Row(e, r)| == e.width
      && forall c: nat :: c < e.width ==>
        0 <= IndexAt(d, includeBorder, r, c) < |d.pixels| && Row(e, r)[c] == d.pixels[IndexAt(d, includeBorder, r, c)]
  {
    hide Row, CropRows, Join, InBounds;
    if includeBorder {
      FullRow(d, r);
      var start := r * d.width;
      assert forall c: nat :: c < d.width ==> IndexAt(d, true, r, c) == start + c;
    } else {
      CroppedRow(d, r);
      CropRowAt(d, r);
      var start := (d.y + r) * d.width;
      assert forall c: nat :: c < d.innerWidth ==> IndexAt(d, false, r, c) == start + d.x + c;
    }
  }

  ghost predicate GoodRow(d: Display, row: nat, rgb: seq<Bytes>) {
    |Row(d, row)| == d.width && forall k :: 0 <= k < d.width ==> Row(d, row)[k] < |rgb|
  }

  lemma ScanlinesAt(d: Display, rgb: seq<Bytes>, r: nat, c: nat)
    requires forall e :: 0 <= e < |rgb| ==> |rgb[e]| == 3
    requires forall row: nat :: row < d.height ==> GoodRow(d, row, rgb)
    ensures Scanlines(d, rgb).Some?
    ensures
      var lines := Scanlines(d, rgb).value;
      && |lines| == d.height && (forall i :: 0 <= i < |lines| ==> |lines[i]| == 1 + 3 * d.width)
      && (r < d.height && c < d.width ==> GoodRow(d, r, rgb) && Slice(lines[r], 1 + 3 * c, 1 + 3 * c + 3) == rgb[Row(d, r)[c]])
  {
    hide Slice, Colours, Row;
    forall row: nat | row < d.height
      ensures RowColours(d, row, rgb).Some? && |RowColours(d, row, rgb).value| == 3 * d.width
    {
      assert GoodRow(d, row, rgb);
      ColoursAt(Row(d, row), rgb, 0);
    }
    if r < d.height && c < d.width {
      assert GoodRow(d, r, rgb);
      ColoursAt(Row(d, r), rgb, c);
      SliceShift([0], RowColours(d, r, rgb).value, 3 * c, 3 * c + 3);
    }
  }

  lemma RowIsInPixels(d: Display, row: nat, k: nat)
    requires k < |Row(d, row)|
    ensures Row(d, row)[k] in d.pixels
  {
  }

  lemma CroppedRowsAreGood(d: Display, includeBorder: bool, rgb: seq<Bytes>)
    requires |d.pixels| == d.width * d.height && (includeBorder || InBounds(d))
    requires forall k :: k in Crop(d, includeBorder).pixels ==> k < |rgb|
    ensures var e := Crop(d, includeBorder); forall row: nat :: row < e.height ==> GoodRow(e, row, rgb)
  {
    hide Row, IndexAt, Crop;
    var e := Crop(d, includeBorder);
    forall row: nat | row < e.height ensures GoodRow(e, row, rgb) {
      CropAt(d, includeBorder, row);
      forall k | 0 <= k < e.width ensures Row(e, row)[k] < |rgb| {
        RowIsInPixels(e, row, k);
      }
    }
  }

  /** What a viewer makes of the file. */
  lemma FileOf(width: nat, height: nat, lines: seq<Bytes>, compress: Bytes -> Bytes, decompress: Bytes -> Bytes, crc: Checksum)
    requires width < U32_LIMIT && height < U32_LIMIT && |Join(lines)| == height * (1 + 3 * width)
    ensures
      var file := PngFile(width, height, lines, compress, crc);
      && (file.Some? <==> |compress(Join(lines))| < U32_LIMIT)
      && (file.Some? && decompress(compress(Join(lines))) == Join(lines) ==>
            DecodePng(file.value, decompress, crc) == Some(Image(width, height, Join(lines))))
  {
    hide DecodePng, Chunk, Header, Join;
    var data := compress(Join(lines));
    if |data| < U32_LIMIT && decompress(data) == Join(lines) {
      FileRoundTrip(width, height, data, decompress, crc);
    }
  }

  /** A picture can be drawn: the display fits its fields, with the inner rectangle inside if it is wanted;
      palette entries have 3 bytes, and there is one for every index that is kept. */
  ghost predicate Drawable(d: Display, rgb: seq<Bytes>, includeBorder: bool) {
    && Shown(d) && (includeBorder || InBounds(d))
    && AreItems(rgb) && (forall e :: 0 <= e < |rgb| ==> |rgb[e]| == 3)
    && (forall k :: k in Crop(d, includeBorder).pixels ==> k < |rgb|)
  }

  /** For an emulator that answers with a drawable display and palette the scanlines exist, and there is a
      file exactly if their compressed form fits in a chunk.  The file decodes to an image of the (cropped)
      display's size in which every pixel is the palette colour of the display's index there, provided the
      viewer's `decompress` gives back these scanlines. */
  lemma PngShowsDisplay(
    display: Bytes, d: Display, rgb: seq<Bytes>, includeBorder: bool,
    compress: Bytes -> Bytes, decompress: Bytes -> Bytes, crc: Checksum, r: nat, c: nat)
    requires Drawable(d, rgb, includeBorder) && Answers(display, d)
    ensures
      var lines := Scanlines(Crop(d, includeBorder), rgb);
      var file := ScreenshotPng(display, EncodeItems(rgb), includeBorder, compress, crc);
      && lines.Some?
      && (file.Some? <==> |compress(Join(lines.value))| < U32_LIMIT)
      && (file.Some? && decompress(compress(Join(lines.value))) == Join(lines.value) ==>
            && DecodePng(file.value, decompress, crc).Some?
            && var image := DecodePng(file.value, decompress, crc).value;
            && image.width == (if includeBorder then d.width else d.innerWidth)
            && image.height == (if includeBorder then d.height else d.innerHeight)
            && (r < image.height && c < image.width ==>
                  && var at := if includeBorder then r * d.width + c else (d.y + r) * d.width + d.x + c;
                  && 0 <= at < |d.pixels| && d.pixels[at] < |rgb|
                  && Pixel(image, r, c) == rgb[d.pixels[at]]))
  {
    hide ParseItems, EncodeItems, ParseDisplay, Answers, DecodePng, PngFile, Row, Join, Slice, Scanlines, Pixel, CropRows;
    DisplayRoundTrip(display, d);
    ItemsRoundTrip(EncodeItems(rgb), rgb);
    var e := Crop(d, includeBorder);
    CroppedRowsAreGood(d, includeBorder, rgb);
    ScanlinesAt(e, rgb, r, c);
    var lines := Scanlines(e, rgb).value;
    JoinSize(lines, 1 + 3 * e.width);
    FileOf(e.width, e.height, lines, compress, decompress, crc);
    if r < e.height && c < e.width {
      CropAt(d, includeBorder, r);
      assert GoodRow(e, r, rgb) && Row(e, r)[c] < |rgb|;
      LineSlice(lines, e.width, r, c);
    }
  }

  /** Pixel (r, c) of the joined scanlines is column c of scanline r. */
  lemma LineSlice(lines: seq<Bytes>, width: nat, r: nat, c: nat)
    requires forall i :: 0 <= i < |lines| ==> |lines[i]| == 1 + 3 * width
    requires r < |lines| && c < width
    ensures Pixel(Image(width, |lines|, Join(lines)), r, c) == Slice(lines[r], 1 + 3 * c, 1 + 3 * c + 3)
  {
    hide Slice, Join;
    var stride := 1 + 3 * width;
    JoinSize(lines, stride);
    JoinSlice(lines, stride, r);
    RowInside(r, |lines|, stride);
    SliceSlice(Join(lines), r * stride, r * stride + stride, 1 + 3 * c, 1 + 3 * c + 3);
  }
}

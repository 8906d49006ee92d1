/** Copying a client's shared-memory buffer into tightly packed RGB or RGBA. */
module ShmCopy {
  import opened Sequences
  import opened Bytes
  import opened Wrappers

  datatype Format = Argb8888 | Xrgb8888 | Unsupported

  datatype BufferData = BufferData(width: int, height: int, stride: int, offset: int, format: Format)

  datatype Bitmap = Bitmap(width: nat, height: nat, data: seq<byte>)

  const USIZE_MAX := 0xFFFF_FFFF_FFFF_FFFF

  function Base(meta: BufferData): nat {
    if meta.offset > 0 then meta.offset else 0
  }

  /** The guards both copies share: positive sizes, no `usize` overflow, the rows inside the `len`
      mapped bytes, a row's pixels inside its stride, and one of the two mandatory formats. */
  predicate Copyable(len: nat, meta: BufferData) {
    && meta.width > 0 && meta.height > 0 && meta.stride > 0
    && meta.stride * meta.height <= USIZE_MAX
    && meta.stride * meta.height + Base(meta) <= USIZE_MAX
    && meta.stride * meta.height + Base(meta) <= len
    && meta.width * 4 <= USIZE_MAX
    && meta.width * 4 <= meta.stride
    && meta.format != Unsupported
  }

  /** Where row `y` starts in the mapping. */
  function RowAt(meta: BufferData, y: nat): int {
    Base(meta) + y * meta.stride
  }

  /** Where pixel (x, y) starts in the mapping. */
  function PixelAt(meta: BufferData, x: nat, y: nat): int {
    RowAt(meta, y) + 4 * x
  }

  lemma RowInside(len: nat, meta: BufferData, y: nat)
    requires Copyable(len, meta) && y < meta.height
    ensures 0 <= RowAt(meta, y) && RowAt(meta, y) + 4 * meta.width <= len
  {
    RoomBelow(y, meta.height, meta.stride);
  }

  lemma RoomBelow(a: nat, b: nat, m: nat)
    requires a < b
    ensures a * m + m <= b * m == m * b
  {
    MulMonotone(a + 1, b, m);
    assert (a + 1) * m == a * m + m;
  }

  lemma MulMonotone(a: nat, b: nat, m: nat)
    requires a <= b
    ensures a * m <= b * m
  {
  }

  /** In memory a pixel is B, G, R, A. */
  function Rgb(mem: seq<byte>, at: nat): seq<byte>
    requires at + 3 < |mem|
  {
    [mem[at + 2], mem[at + 1], mem[at]]
  }

  /** With XRGB the fourth byte is padding and the pixel is opaque. */
  function Rgba(mem: seq<byte>, at: nat, format: Format): seq<byte>
    requires at + 3 < |mem|
  {
    Rgb(mem, at) + [if format == Xrgb8888 then 0xFF else mem[at + 3]]
  }

  function PixelOf(mem: seq<byte>, at: nat, alpha: bool, format: Format): (p: seq<byte>)
    requires at + 3 < |mem|
    ensures |p| == Span(alpha, 1)
  {
    if alpha then Rgba(mem, at, format) else Rgb(mem, at)
  }

  /** The bytes that `pixels` packed pixels take. */
  function Span(alpha: bool, pixels: nat): nat {
    if alpha then 4 * pixels else 3 * pixels
  }

  /** The first `x` pixels of the row that starts at `row`. */
  function RowOf(mem: seq<byte>, row: nat, x: nat, alpha: bool, format: Format): (r: seq<byte>)
    requires row + 4 * x <= |mem|
    ensures |r| == Span(alpha, x)
  {
    if x == 0 then []
    else RowOf(mem, row, x - 1, alpha, format) + PixelOf(mem, row + 4 * (x - 1), alpha, format)
  }

  /** The first `y` rows. */
  function RowsOf(mem: seq<byte>, meta: BufferData, alpha: bool, y: nat): (r: seq<byte>)
    requires Copyable(|mem|, meta) && y <= meta.height
    ensures |r| == y * Span(alpha, meta.width)
  {
    if y == 0 then []
    else
      RowInside(|mem|, meta, y - 1);
      RowsOf(mem, meta, alpha, y - 1) + RowOf(mem, RowAt(meta, y - 1), meta.width, alpha, meta.format)
  }

  /** The whole copy, or nothing when a guard refuses the buffer. */
  function CopyOf(mem: seq<byte>, meta: BufferData, alpha: bool): (r: Option<Bitmap>)
    ensures r.Some? ==> r.value.width > 0 && r.value.height > 0
    ensures r.Some? ==> |r.value.data| == r.value.height * Span(alpha, r.value.width)
  {
    if Copyable(|mem|, meta) then Some(Bitmap(meta.width, meta.height, RowsOf(mem, meta, alpha, meta.height)))
    else None
  }

  method CopyShmToRgb(mem: seq<byte>, meta: BufferData) returns (copy: Option<Bitmap>)
    ensures copy == CopyOf(mem, meta, false)
  {
    var ok := CheckGuards(|mem|, meta);
    if !ok {
      return None;
    }
    var width, height, stride := meta.width, meta.height, meta.stride;
    var rgb: seq<byte> := [];
    var base := if meta.offset > 0 then meta.offset else 0;
    for y := 0 to height
      invariant rgb == RowsOf(mem, meta, false, y)
    {
      var row := base + y * stride;
      RowInside(|mem|, meta, y);
      for x := 0 to width
        invariant rgb == RowsOf(mem, meta, false, y) + RowOf(mem, row, x, false, meta.format)
      {
        var px := row + x * 4;
        var b := mem[px];
        var g := mem[px + 1];
        var r := mem[px + 2];
        OneMorePixel(mem, meta, false, y, row, x);
        Regroup(rgb, [r], [g]);
        Regroup(rgb, [r, g], [b]);
        rgb := rgb + [r];
        rgb := rgb + [g];
        rgb := rgb + [b];
        assert PixelOf(mem, px, false, meta.format) == [r, g, b];
      }
    }
    copy := Some(Bitmap(width, height, rgb));
  }

  method CopyShmToRgba(mem: seq<byte>, meta: BufferData) returns (copy: Option<Bitmap>)
    ensures copy == CopyOf(mem, meta, true)
  {
    var ok := CheckGuards(|mem|, meta);
    if !ok {
      return None;
    }
    var width, height, stride := meta.width, meta.height, meta.stride;
    var xrgb := meta.format == Xrgb8888;
    var rgba: seq<byte> := [];
    var base := if meta.offset > 0 then meta.offset else 0;
    for y := 0 to height
      invariant rgba == RowsOf(mem, meta, true, y)
    {
      var row := base + y * stride;
      RowInside(|mem|, meta, y);
      for x := 0 to width
        invariant rgba == RowsOf(mem, meta, true, y) + RowOf(mem, row, x, true, meta.format)
      {
        var px := row + x * 4;
        var b := mem[px];
        var g := mem[px + 1];
        var r := mem[px + 2];
        var a := if xrgb then 0xFF else mem[px + 3];
        PixelAppended(rgba, r, g, b, a);
        OneMorePixel(mem, meta, true, y, row, x);
        rgba := rgba + [r];
        rgba := rgba + [g];
        rgba := rgba + [b];
        rgba := rgba + [a];
        assert PixelOf(mem, px, true, meta.format) == [r, g, b] + [a];
      }
    }
    copy := Some(Bitmap(width, height, rgba));
  }

  lemma OneMorePixel(mem: seq<byte>, meta: BufferData, alpha: bool, y: nat, row: nat, x: nat)
    requires Copyable(|mem|, meta) && y <= meta.height && row + 4 * x + 4 <= |mem|
    ensures RowsOf(mem, meta, alpha, y) + RowOf(mem, row, x + 1, alpha, meta.format)
         == RowsOf(mem, meta, alpha, y) + RowOf(mem, row, x, alpha, meta.format) + PixelOf(mem, row + 4 * x, alpha, meta.format)
  {
    Regroup(RowsOf(mem, meta, alpha, y), RowOf(mem, row, x, alpha, meta.format), PixelOf(mem, row + 4 * x, alpha, meta.format));
  }

  lemma PixelAppended(s: seq<byte>, r: byte, g: byte, b: byte, a: byte)
    ensures s + [r] + [g] + [b] + [a] == s + ([r, g, b] + [a])
  {
  }

  method CheckGuards(len: nat, meta: BufferData) returns (ok: bool)
    ensures ok == Copyable(len, meta)
  {
    if meta.width <= 0 || meta.height <= 0 || meta.stride <= 0 {
      return false;
    }
    var size := meta.stride * meta.height;
    if size > USIZE_MAX || size + Base(meta) > USIZE_MAX {
      return false;
    }
    if size + Base(meta) > len {
      return false;
    }
    if meta.width * 4 > USIZE_MAX || meta.width * 4 > meta.stride {
      return false;
    }
    return meta.format != Unsupported;
  }

  // ------------------------------------------------- what the copies contain

  /** Position `i` of row `y` when rows of `width` follow each other without gaps. */
  function Slot(y: nat, width: nat, i: nat): nat {
    y * width + i
  }

  /** Position of channel `c` of pixel (x, y) in a packed copy. */
  function Packed(meta: BufferData, alpha: bool, x: nat, y: nat, c: nat): nat
    requires meta.width >= 0
  {
    Slot(y, Span(alpha, meta.width), Span(alpha, x) + c)
  }

  lemma {:induction false} RowHolds(mem: seq<byte>, row: nat, n: nat, alpha: bool, format: Format, x: nat, c: nat)
    requires x < n && row + 4 * n <= |mem| && c < Span(alpha, 1)
    ensures Span(alpha, x) + c < Span(alpha, n)
    ensures RowOf(mem, row, n, alpha, format)[Span(alpha, x) + c] == PixelOf(mem, row + 4 * x, alpha, format)[c]
  {
    var left, pixel := RowOf(mem, row, n - 1, alpha, format), PixelOf(mem, row + 4 * (n - 1), alpha, format);
    assert RowOf(mem, row, n, alpha, format) == left + pixel && |left| == Span(alpha, n - 1);
    if x + 1 < n {
      RowHolds(mem, row, n - 1, alpha, format, x, c);
    }
  }

  lemma SlotFits(y: nat, n: nat, width: nat, i: nat)
    requires y < n && i < width
    ensures Slot(y, width, i) < n * width
    ensures y < n - 1 ==> Slot(y, width, i) < (n - 1) * width
    ensures y == n - 1 ==> Slot(y, width, i) == (n - 1) * width + i
  {
    RoomBelow(y, n, width);
    if y < n - 1 {
      RoomBelow(y, n - 1, width);
    }
  }

  lemma {:induction false} RowsHold(mem: seq<byte>, meta: BufferData, alpha: bool, n: nat, y: nat, width: nat, i: nat)
    requires Copyable(|mem|, meta) && y < n <= meta.height && width == Span(alpha, meta.width) && i < width
    ensures 0 <= RowAt(meta, y) && RowAt(meta, y) + 4 * meta.width <= |mem|
    ensures Slot(y, width, i) < |RowsOf(mem, meta, alpha, n)|
    ensures RowsOf(mem, meta, alpha, n)[Slot(y, width, i)] == RowOf(mem, RowAt(meta, y), meta.width, alpha, meta.format)[i]
    decreases n
  {
    RowInside(|mem|, meta, y);
    SlotFits(y, n, width, i);
    if y < n - 1 {
      RowsHold(mem, meta, alpha, n - 1, y, width, i);
    }
  }

  /** Channel `c` of each pixel of the copy comes from that pixel at its stride and offset. */
  lemma CopyHolds(mem: seq<byte>, meta: BufferData, alpha: bool, n: nat, x: nat, y: nat, c: nat)
    requires Copyable(|mem|, meta) && x < meta.width && y < n <= meta.height && c < Span(alpha, 1)
    ensures 0 <= PixelAt(meta, x, y) && PixelAt(meta, x, y) + 3 < |mem|
    ensures Packed(meta, alpha, x, y, c) < |RowsOf(mem, meta, alpha, n)|
    ensures RowsOf(mem, meta, alpha, n)[Packed(meta, alpha, x, y, c)] == PixelOf(mem, PixelAt(meta, x, y), alpha, meta.format)[c]
  {
    RowInside(|mem|, meta, y);
    RowHolds(mem, RowAt(meta, y), meta.width, alpha, meta.format, x, c);
    RowsHold(mem, meta, alpha, n, y, Span(alpha, meta.width), Span(alpha, x) + c);
  }

  /** In the copy of a buffer, pixel (x, y) has red, green and blue from the bytes 2, 1 and 0 behind its place in
      the mapping. Alpha is the byte 3 behind it, or opaque where that byte is padding. */
  lemma CopyChannels(mem: seq<byte>, meta: BufferData, alpha: bool, x: nat, y: nat, c: nat)
    requires CopyOf(mem, meta, alpha).Some? && x < meta.width && y < meta.height && c < if alpha then 4 else 3
    ensures var copy := CopyOf(mem, meta, alpha).value;
      var at := (if meta.offset > 0 then meta.offset else 0) + y * meta.stride + 4 * x;
      var i := (y * meta.width + x) * (if alpha then 4 else 3) + c;
      && copy.width == meta.width && copy.height == meta.height
      && 0 <= at && at + 3 < |mem| && 0 <= i < |copy.data|
      && copy.data[i] == (
           if c == 0 then mem[at + 2]
           else if c == 1 then mem[at + 1]
           else if c == 2 then mem[at]
           else if meta.format == Xrgb8888 then 0xFF
           else mem[at + 3])
  {
    CopyHolds(mem, meta, alpha, meta.height, x, y, c);
    PackedAt(meta.width, alpha, x, y, c);
  }

  lemma PackedAt(width: nat, alpha: bool, x: nat, y: nat, c: nat)
    ensures Slot(y, Span(alpha, width), Span(alpha, x) + c) == (y * width + x) * (if alpha then 4 else 3) + c
  {
    assert y * (4 * width) == 4 * (y * width) && y * (3 * width) == 3 * (y * width);
  }

  /** Of a mapping that fits in memory, a buffer is copied exactly if it has pixels of a supported format, each
      row's pixels fit in its stride, and every row lies in the mapping with its whole stride. */
  lemma CopiedIff(mem: seq<byte>, meta: BufferData, alpha: bool)
    requires |mem| <= USIZE_MAX
    ensures CopyOf(mem, meta, alpha).Some?
       <==> && meta.width > 0 && meta.height > 0 && meta.format != Unsupported && 4 * meta.width <= meta.stride
            && forall y: nat | y < meta.height :: RowAt(meta, y) + meta.stride <= |mem|
  {
    if meta.height > 0 && meta.stride > 0 {
      RowAtLast(meta);
      if meta.stride * meta.height + Base(meta) <= |mem| {
        forall y: nat | y < meta.height
          ensures RowAt(meta, y) + meta.stride <= |mem|
        {
          RoomBelow(y, meta.height, meta.stride);
        }
      }
    }
  }

  lemma RowAtLast(meta: BufferData)
    requires meta.height > 0
    ensures RowAt(meta, meta.height - 1) + meta.stride == meta.stride * meta.height + Base(meta)
  {
    assert (meta.height - 1) * meta.stride == meta.height * meta.stride - meta.stride;
  }

  /** Both copies accept the same buffers, and the RGB one is the RGBA one with alpha dropped. */
  lemma RgbIsRgbaWithoutAlpha(mem: seq<byte>, meta: BufferData, x: nat, y: nat, c: nat)
    requires x < meta.width && y < meta.height && c < 3
    ensures CopyOf(mem, meta, false).Some? == CopyOf(mem, meta, true).Some?
    ensures CopyOf(mem, meta, true).Some? ==>
      var rgb, rgba := CopyOf(mem, meta, false).value.data, CopyOf(mem, meta, true).value.data;
      var i, j := Packed(meta, false, x, y, c), Packed(meta, true, x, y, c);
      i < |rgb| && j < |rgba| && rgb[i] == rgba[j]
  {
    if Copyable(|mem|, meta) {
      CopyHolds(mem, meta, false, meta.height, x, y, c);
      CopyHolds(mem, meta, true, meta.height, x, y, c);
    }
  }
}

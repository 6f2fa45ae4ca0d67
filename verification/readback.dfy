/**
  Pixel readback and the vertically flipped PNG write of GLRenderer::render.

  glReadPixels stores the bottom image row first. The PNG writer is handed a
  start pointer at the last stored row and a negative row stride, so it emits
  the rows top to bottom. Everything here is integer index arithmetic over
  the byte staging buffer; pixel bytes are a type parameter.
*/
module Readback {

  /** Bytes per pixel of an RGBA / UNSIGNED_BYTE readback. */
  const RgbaBytes: nat := 4
  /** sizeof(float). */
  const FloatBytes: nat := 4
  /** Floats per pixel of an RGBA / FLOAT readback. */
  const RgbaFloats: nat := 4
  /** GL_PACK_ALIGNMENT; the renderer never changes its default of 4. */
  const PackAlignment: nat := 4

  /** Rounds n up to a multiple of a, as GL pads each packed row. */
  function AlignUp(n: nat, a: nat): nat
    requires a > 0
  {
    ((n + a - 1) / a) * a
  }

  /** Distance between the starts of consecutive rows glReadPixels writes. */
  function RowStride(w: nat, bytesPerPixel: nat): nat
  {
    AlignUp(bytesPerPixel * w, PackAlignment)
  }

  /** Bytes one row of RGBA8 pixels occupies. */
  function RowBytes(w: nat): nat
  {
    RgbaBytes * w
  }

  /**
    The extent glReadPixels(0, 0, w, h, format, type) writes: h - 1 padded
    rows and one final unpadded row.
  */
  function ReadbackExtent(w: nat, h: nat, bytesPerPixel: nat): nat
  {
    if h == 0 then 0 else RowStride(w, bytesPerPixel) * (h - 1) + bytesPerPixel * w
  }

  /** `calloc(4, w * h)`: the byte staging buffer mBuffer. */
  function ByteStagingBytes(w: nat, h: nat): nat
  {
    4 * (w * h)
  }

  /** An RGBA8 row is a multiple of four bytes, so packing adds no padding. */
  lemma {:induction false} RgbaRowsUnpadded(w: nat)
    ensures RowStride(w, RgbaBytes) == RowBytes(w)
  {
    assert (4 * w + 3) / 4 == w;
  }

  /** The byte staging buffer is exactly the extent of a w×h RGBA8 readback. */
  lemma ByteStagingIsReadbackExtent(w: nat, h: nat)
    ensures ReadbackExtent(w, h, RgbaBytes) == ByteStagingBytes(w, h)
  {
    RgbaRowsUnpadded(w);
    if h > 0 {
      assert RowBytes(w) * (h - 1) + 4 * w == 4 * (w * h) by {
        assert RowBytes(w) * (h - 1) == 4 * (w * (h - 1));
        assert w * (h - 1) + w == w * h;
      }
    }
  }

  /**
    The staging buffer is sized from the width and height at init; a later
    readback of w' × h' stays inside it exactly when w'·h' ≤ w·h.
  */
  lemma ReadbackFitsIff(w: nat, h: nat, w': nat, h': nat)
    ensures ReadbackExtent(w', h', RgbaBytes) <= ByteStagingBytes(w, h) <==> w' * h' <= w * h
  {
    ByteStagingIsReadbackExtent(w', h');
  }

  // ---------------------------------------------------------------------------
  // Row addressing of the flipped write
  // ---------------------------------------------------------------------------

  /** Offset of the pointer handed to the PNG writer: `buffer + w*4*(h-1)`. */
  function PngStart(w: int, h: int): int
  {
    w * 4 * (h - 1)
  }

  /** Row stride handed to the PNG writer: `-w*4`. */
  function PngStride(w: int): int
  {
    -w * 4
  }

  /** The writer reads PNG row r at start + r·stride. */
  function PngRowOffset(w: int, h: int, r: int): int
  {
    PngStart(w, h) + r * PngStride(w)
  }

  /** Offset at which glReadPixels stores row y, counted from the bottom. */
  function GlRowOffset(w: nat, y: int): int
  {
    RowBytes(w) * y
  }

  /** The PNG row that shows stored row y (and, symmetrically, the reverse). */
  function FlipRow(h: int, y: int): int
  {
    h - 1 - y
  }

  /** PNG row r is stored row h-1-r. */
  lemma PngRowIsFlippedGlRow(w: nat, h: nat, r: int)
    ensures PngRowOffset(w, h, r) == GlRowOffset(w, FlipRow(h, r))
  {
    var wi: int := w;
    assert r * PngStride(w) == -(4 * wi * r);
    assert PngStart(w, h) == 4 * wi * (h - 1);
    assert 4 * wi * (h - 1) - 4 * wi * r == 4 * wi * (h - 1 - r);
  }

  /** Every PNG row, 4·w bytes from its offset, lies inside the staging buffer. */
  lemma PngRowInBounds(w: nat, h: nat, r: int)
    requires 0 <= r < h
    ensures 0 <= PngRowOffset(w, h, r)
    ensures PngRowOffset(w, h, r) + RowBytes(w) <= ByteStagingBytes(w, h)
  {
    PngRowIsFlippedGlRow(w, h, r);
    GlRowInBounds(w, h, FlipRow(h, r));
  }

  lemma GlRowInBounds(w: nat, h: nat, y: int)
    requires 0 <= y < h
    ensures 0 <= GlRowOffset(w, y)
    ensures GlRowOffset(w, y) + RowBytes(w) <= ByteStagingBytes(w, h)
  {
    assert GlRowOffset(w, y) + RowBytes(w) == 4 * (w * (y + 1));
    assert w * (y + 1) <= w * h;
  }

  /** The flip maps [0, h) onto itself, and applying it twice is the identity. */
  lemma FlipRowIsInvolution(h: int, y: int)
    requires 0 <= y < h
    ensures 0 <= FlipRow(h, y) < h
    ensures FlipRow(h, FlipRow(h, y)) == y
  {
  }

  /** The flip is a bijection on [0, h). */
  lemma FlipRowIsBijection(h: int)
    ensures forall y1, y2 :: 0 <= y1 < h && 0 <= y2 < h && FlipRow(h, y1) == FlipRow(h, y2) ==> y1 == y2
    ensures forall r :: 0 <= r < h ==> 0 <= FlipRow(h, r) < h && FlipRow(h, FlipRow(h, r)) == r
  {
  }

  // ---------------------------------------------------------------------------
  // The image as rows
  // ---------------------------------------------------------------------------

  /** The row of 4w bytes starting at byte `start`. */
  function RowAt<B>(buf: seq<B>, w: nat, start: int): (row: seq<B>)
    requires 0 <= start && start + RowBytes(w) <= |buf|
    ensures |row| == RowBytes(w)
    ensures forall i :: 0 <= i < RowBytes(w) ==> row[i] == buf[start + i]
  {
    buf[start .. start + RowBytes(w)]
  }

  /** The rows as glReadPixels stored them: bottom row first. */
  function GlRows<B>(buf: seq<B>, w: nat, h: nat): (rows: seq<seq<B>>)
    requires |buf| == ByteStagingBytes(w, h)
    ensures |rows| == h
    ensures forall r :: 0 <= r < h ==> |rows[r]| == RowBytes(w)
  {
    seq(h, y requires 0 <= y < h =>
      GlRowInBounds(w, h, y);
      RowAt(buf, w, GlRowOffset(w, y)))
  }

  /** The rows the PNG writer reads from its start pointer and negative stride. */
  function PngRows<B>(buf: seq<B>, w: nat, h: nat): (rows: seq<seq<B>>)
    requires |buf| == ByteStagingBytes(w, h)
    ensures |rows| == h
    ensures forall r :: 0 <= r < h ==> |rows[r]| == RowBytes(w)
  {
    seq(h, r requires 0 <= r < h =>
      PngRowInBounds(w, h, r);
      RowAt(buf, w, PngRowOffset(w, h, r)))
  }

  function Reverse<X>(xs: seq<X>): (ys: seq<X>)
    ensures |ys| == |xs|
    ensures forall i :: 0 <= i < |xs| ==> ys[i] == xs[|xs| - 1 - i]
  {
    seq(|xs|, i requires 0 <= i < |xs| => xs[|xs| - 1 - i])
  }

  /** Rows laid end to end. */
  function Concat<X>(rows: seq<seq<X>>): seq<X>
  {
    if |rows| == 0 then [] else Concat(rows[..|rows| - 1]) + rows[|rows| - 1]
  }

  /** The PNG shows the stored rows in reverse order. */
  lemma PngRowsReverseGlRows<B>(buf: seq<B>, w: nat, h: nat)
    requires |buf| == ByteStagingBytes(w, h)
    ensures PngRows(buf, w, h) == Reverse(GlRows(buf, w, h))
  {
    forall r | 0 <= r < h
      ensures PngRows(buf, w, h)[r] == GlRows(buf, w, h)[h - 1 - r]
    {
      PngRowIsFlippedGlRow(w, h, r);
    }
  }

  /**
    Byte c of pixel (x, y) of the bottom-up buffer is byte c of column x in
    PNG row h-1-y.
  */
  lemma PngPixelIsFlippedGlPixel<B>(buf: seq<B>, w: nat, h: nat, x: int, y: int, c: int)
    requires |buf| == ByteStagingBytes(w, h)
    requires 0 <= x < w && 0 <= y < h && 0 <= c < RgbaBytes
    ensures 0 <= GlRowOffset(w, y) && GlRowOffset(w, y) + RowBytes(w) <= |buf|
    ensures GlRowOffset(w, y) + RgbaBytes * x + c == RgbaBytes * (w * y + x) + c
    ensures PngRows(buf, w, h)[FlipRow(h, y)][RgbaBytes * x + c] == buf[GlRowOffset(w, y) + RgbaBytes * x + c]
  {
    var r := FlipRow(h, y);
    assert 0 <= r < h && PngRowOffset(w, h, r) == GlRowOffset(w, y) by {
      FlipRowIsInvolution(h, y);
      PngRowIsFlippedGlRow(w, h, r);
    }
    GlRowInBounds(w, h, y);
    PixelOffset(w, h, x, y, c);
    PngRowsAt(buf, w, h, r, RgbaBytes * x + c);
  }

  /** Byte i of PNG row r is the byte at the row's offset plus i. */
  lemma PngRowsAt<B>(buf: seq<B>, w: nat, h: nat, r: int, i: int)
    requires |buf| == ByteStagingBytes(w, h)
    requires 0 <= r < h && 0 <= i < RowBytes(w)
    ensures |PngRows(buf, w, h)[r]| == RowBytes(w)
    ensures 0 <= PngRowOffset(w, h, r) + i < |buf|
    ensures PngRows(buf, w, h)[r][i] == buf[PngRowOffset(w, h, r) + i]
  {
    PngRowInBounds(w, h, r);
  }

  /** Byte c of pixel x lies inside its row, at the row offset plus 4x + c. */
  lemma PixelOffset(w: nat, h: nat, x: int, y: int, c: int)
    requires 0 <= x < w && 0 <= y < h && 0 <= c < RgbaBytes
    ensures 0 <= RgbaBytes * x + c < RowBytes(w)
    ensures GlRowOffset(w, y) + RgbaBytes * x + c == RgbaBytes * (w * y + x) + c
    ensures 0 <= RgbaBytes * (w * y + x) + c < ByteStagingBytes(w, h)
  {
    assert w * y + x < w * (y + 1);
    assert w * (y + 1) <= w * h;
  }

  /** The first n stored rows, laid end to end, are the first n·4w bytes. */
  lemma {:induction false} ConcatGlRowsPrefix<B>(buf: seq<B>, w: nat, h: nat, n: nat)
    requires |buf| == ByteStagingBytes(w, h)
    requires n <= h
    ensures n * RowBytes(w) <= |buf|
    ensures Concat(GlRows(buf, w, h)[..n]) == buf[..n * RowBytes(w)]
  {
    var rows := GlRows(buf, w, h);
    if n == 0 {
    } else {
      ConcatGlRowsPrefix(buf, w, h, n - 1);
      var lo, hi := RowBoundsStep(w, h, n);
      assert rows[..n][..n - 1] == rows[..n - 1];
      assert rows[..n][n - 1] == rows[n - 1] == buf[lo..hi];
      PrefixSplit(buf, lo, hi);
    }
  }

  /** Row n-1 runs from (n-1)·4w to n·4w, inside the buffer. */
  lemma RowBoundsStep(w: nat, h: nat, n: nat) returns (lo: nat, hi: nat)
    requires 1 <= n <= h
    ensures lo == (n - 1) * RowBytes(w) == GlRowOffset(w, n - 1)
    ensures hi == n * RowBytes(w) == lo + RowBytes(w)
    ensures hi <= ByteStagingBytes(w, h)
  {
    GlRowInBounds(w, h, n - 1);
    lo, hi := (n - 1) * RowBytes(w), n * RowBytes(w);
  }

  /** A prefix splits at any earlier point. */
  lemma PrefixSplit<X>(xs: seq<X>, lo: nat, hi: nat)
    requires lo <= hi <= |xs|
    ensures xs[..hi] == xs[..lo] + xs[lo..hi]
  {
  }

  /**
    Reading the PNG rows back bottom-up and laying them end to end gives the
    staging buffer exactly: the flipped write loses and duplicates nothing.
  */
  lemma PngRowsRestackToBuffer<B>(buf: seq<B>, w: nat, h: nat)
    requires |buf| == ByteStagingBytes(w, h)
    ensures Concat(Reverse(PngRows(buf, w, h))) == buf
  {
    var rows := GlRows(buf, w, h);
    PngRowsReverseGlRows(buf, w, h);
    ReverseInvolution(rows);
    ConcatGlRowsPrefix(buf, w, h, h);
    assert rows[..h] == rows;
    RowsFillBuffer(w, h);
    assert buf[..h * RowBytes(w)] == buf;
  }

  /** Reversing twice gives the sequence back. */
  lemma ReverseInvolution<X>(xs: seq<X>)
    ensures Reverse(Reverse(xs)) == xs
  {
  }

  /** h rows of 4w bytes fill the byte staging buffer exactly. */
  lemma RowsFillBuffer(w: nat, h: nat)
    ensures h * RowBytes(w) == ByteStagingBytes(w, h)
  {
  }

  // ---------------------------------------------------------------------------
  // Output name
  // ---------------------------------------------------------------------------

  /** `outfilename + ".png"`. */
  function PngFileName(prefix: string): (name: string)
    ensures |name| == |prefix| + 4
    ensures name[..|prefix|] == prefix && name[|prefix|..] == ".png"
  {
    prefix + ".png"
  }

  /** The prefix is recovered by dropping the four-character extension. */
  lemma PngFileNameRoundTrip(prefix: string)
    ensures PngFileName(prefix)[..|PngFileName(prefix)| - 4] == prefix
  {
  }

  // ---------------------------------------------------------------------------
  // The float staging buffer mRGBD
  // ---------------------------------------------------------------------------

  /** The extent of a w×h RGBA / FLOAT readback, in bytes. */
  function FloatReadbackBytes(w: nat, h: nat): nat
  {
    ReadbackExtent(w, h, RgbaFloats * FloatBytes)
  }

  /** `calloc(4, w * h)` cast to float*: mRGBD as written, w·h floats. */
  function FloatStagingBytesAsWritten(w: nat, h: nat): (bytes: nat)
    ensures bytes / FloatBytes == w * h
  {
    4 * (w * h)
  }

  /** The float staging buffer sized for four floats per pixel. */
  function FloatStagingBytes(w: nat, h: nat): nat
  {
    RgbaFloats * FloatBytes * (w * h)
  }

  lemma FloatRowsUnpadded(w: nat)
    ensures RowStride(w, RgbaFloats * FloatBytes) == 16 * w
  {
    assert (16 * w + 3) / 4 == 4 * w;
  }

  /** As written, an RGBA float readback of any non-empty image overruns mRGBD. */
  lemma FloatStagingAsWrittenOverrun(w: nat, h: nat)
    requires w > 0 && h > 0
    ensures FloatReadbackBytes(w, h) == 4 * FloatStagingBytesAsWritten(w, h)
    ensures FloatReadbackBytes(w, h) > FloatStagingBytesAsWritten(w, h)
  {
    FloatRowsUnpadded(w);
    assert 16 * w * (h - 1) + 16 * w == 16 * (w * h) by {
      assert 16 * w * (h - 1) == 16 * (w * h) - 16 * w;
    }
  }

  /** Sized at four floats per pixel, the buffer is exactly the readback extent. */
  lemma FloatStagingIsReadbackExtent(w: nat, h: nat)
    ensures FloatReadbackBytes(w, h) == FloatStagingBytes(w, h)
  {
    FloatRowsUnpadded(w);
    if h > 0 {
      assert 16 * w * (h - 1) + 16 * w == 16 * (w * h) by {
        assert 16 * w * (h - 1) == 16 * (w * h) - 16 * w;
      }
    }
  }
}

/** Reading a caller's texels in src/objects/texture.c: how many bytes a source
    needs, and what a rectangle of a level becomes. */
module TexUpload {
  import opened Limits
  import opened Arithmetic
  import opened ContextState
  import opened Grids
  import opened TextureFormats

  // ----------------------------------------------------------------- source

  /** texture_source_row_pitch. */
  function RowPitch(width: nat, texel: nat, alignment: nat): nat
    requires 0 < alignment
  {
    RoundUp(width * texel, alignment)
  }

  /** The last row needs no padding. */
  function SourceBytes(width: nat, height: nat, texel: nat, alignment: nat): nat
    requires 0 < alignment
  {
    if width == 0 || height == 0 then 0
    else (height - 1) * RowPitch(width, texel, alignment) + width * texel
  }

  /** texture_required_source_bytes: it reports an overflow exactly when the size,
      or a row rounded up, is no 64-bit number. */
  method RequiredSourceBytes(width: nat, height: nat, texel: nat, alignment: nat) returns (ok: bool, bytes: nat)
    requires AlignmentOk(alignment) && 0 < texel
    ensures ok <==> width == 0 || height == 0
                    || (width * texel + alignment - 1 <= UINT64_MAX && SourceBytes(width, height, texel, alignment) <= UINT64_MAX)
    ensures ok ==> bytes == SourceBytes(width, height, texel, alignment)
  {
    if width == 0 || height == 0 {
      return true, 0;
    }
    var row := width * texel;
    MulMonotone(1, width, texel);
    if row > UINT64_MAX - (alignment - 1) {
      return false, 0;
    }
    var pitch := RowPitch(width, texel, alignment);
    RoundUpIsLeast(row, alignment);
    QuotientAtMost(height - 1, UINT64_MAX - row, pitch);
    if height - 1 > (UINT64_MAX - row) / pitch {
      return false, 0;
    }
    return true, (height - 1) * pitch + row;
  }

  lemma SourceFits(width: nat, height: nat, texel: nat, step: nat, alignment: nat, x: nat, y: nat)
    requires AlignmentOk(alignment) && x < width && y < height && step <= texel
    ensures 0 <= y * RowPitch(width, texel, alignment) + x * step
    ensures y * RowPitch(width, texel, alignment) + x * step + step <= SourceBytes(width, height, texel, alignment)
  {
    hide RowPitch;
    PitchHolds(width, texel, alignment);
    MulMonotone(0, y, RowPitch(width, texel, alignment));
    MulMonotone(y, height - 1, RowPitch(width, texel, alignment));
    WithinRow(width, texel, step, x);
  }

  lemma PitchHolds(width: nat, texel: nat, alignment: nat)
    requires AlignmentOk(alignment)
    ensures 0 <= width * texel <= RowPitch(width, texel, alignment)
  {
    RoundUpIsLeast(width * texel, alignment);
  }

  lemma WithinRow(width: nat, texel: nat, step: nat, x: nat)
    requires x < width && step <= texel
    ensures 0 <= x * step && x * step + step <= width * texel
  {
    MulMonotone(x + 1, width, step);
    MulMonotone(step, texel, width);
    Distribute(x, 1, step);
  }

  /** The source texel at (x, y); it always lies within the required size. */
  function SourceTexel(pixels: seq<byte>, width: nat, height: nat, texel: nat, step: nat, alignment: nat, x: nat, y: nat): (r: seq<byte>)
    requires AlignmentOk(alignment) && x < width && y < height && step <= texel
    requires SourceBytes(width, height, texel, alignment) <= |pixels|
    ensures |r| == step
  {
    SourceFits(width, height, texel, step, alignment, x, y);
    var at := y * RowPitch(width, texel, alignment) + x * step;
    pixels[at..at + step]
  }

  /** A tight image, such as a decoder's, is taken under an unpack alignment
      exactly when its rows are aligned or there is at most one; and then it is
      read without padding. */
  lemma TightRowsAccepted(width: nat, height: nat, texel: nat, alignment: nat)
    requires AlignmentOk(alignment) && 0 < width && 0 < height && 0 < texel
    ensures SourceBytes(width, height, texel, alignment) <= width * height * texel <==> height == 1 || width * texel % alignment == 0
    ensures width * texel % alignment == 0 ==> RowPitch(width, texel, alignment) == width * texel
  {
    var row, pitch := width * texel, RowPitch(width, texel, alignment);
    TightSize(width, height, texel);
    RoundUpIsLeast(row, alignment);
    if row % alignment == 0 {
      AlignedStays(row, alignment);
    } else {
      hide RowPitch;
      WiderRows(height - 1, row, pitch);
    }
  }

  lemma TightSize(width: nat, height: nat, texel: nat)
    requires 0 < height
    ensures width * height * texel == (height - 1) * (width * texel) + width * texel
  {
    assert width * height * texel == height * (width * texel);
    Distribute(height - 1, 1, width * texel);
  }

  lemma WiderRows(rows: nat, row: nat, pitch: nat)
    requires row < pitch
    ensures rows == 0 ==> rows * pitch == rows * row
    ensures 0 < rows ==> rows * row < rows * pitch
  {
    if 0 < rows {
      MulMonotone(row + 1, pitch, rows);
      Distribute(row, 1, rows);
    }
  }

  lemma AlignedStays(n: nat, alignment: nat)
    requires 0 < alignment && n % alignment == 0
    ensures RoundUp(n, alignment) == n
  {
    DivMod(n, alignment);
    QuotientIs(n + alignment - 1, alignment, n / alignment, alignment - 1);
  }

  // -------------------------------------------------------------- rectangles

  /** What an upload reads and how it converts it. */
  datatype Upload = Upload(format: nat, componentType: nat, alignment: nat, pixels: seq<byte>, rounded: seq<byte> -> seq<byte>)

  function UploadTexel(u: Upload): nat { ExternalTexelBytes(u.format, u.componentType) }

  predicate UploadFits(t: TextureObject, u: Upload, width: nat, height: nat) {
    && AlignmentOk(u.alignment)
    && SourceOk(t, u.format, u.componentType)
    && SourceBytes(width, height, UploadTexel(u), u.alignment) <= |u.pixels|
  }

  /** The stored texel for source texel (x, y). */
  function Uploaded(t: TextureObject, u: Upload, width: nat, height: nat, x: nat, y: nat): (r: seq<byte>)
    requires UploadFits(t, u, width, height) && x < width && y < height
    ensures |r| == TexelBytes(t.format, t.componentType)
  {
    StepWithin(t, u.format, u.componentType);
    var step := StepBytes(t, u.format, u.componentType);
    Converted(t, u.format, u.componentType, SourceTexel(u.pixels, width, height, UploadTexel(u), step, u.alignment, x, y), u.rounded)
  }

  predicate Within(x0: nat, y0: nat, width: nat, height: nat, x: nat, y: nat) {
    x0 <= x < x0 + width && y0 <= y < y0 + height
  }

  /** The rectangle's texels before (i, j), row by row. */
  predicate WithinUpTo(x0: nat, y0: nat, width: nat, height: nat, i: nat, j: nat, x: nat, y: nat) {
    Within(x0, y0, width, height, x, y) && (y < y0 + j || (y == y0 + j && x < x0 + i))
  }

  /** A level of `w` by `h` texels with part of a rectangle updated. */
  ghost predicate Updated(t: TextureObject, u: Upload, before: seq<byte>, after: seq<byte>, w: nat, h: nat,
                          x0: nat, y0: nat, width: nat, height: nat, i: nat, j: nat)
    requires UploadFits(t, u, width, height)
    requires |before| == w * h * TexelBytes(t.format, t.componentType)
  {
    var n := TexelBytes(t.format, t.componentType);
    && |after| == |before|
    && forall x: nat, y: nat :: x < w && y < h ==>
         Cell(after, n, w, h, x, y)
           == if WithinUpTo(x0, y0, width, height, i, j, x, y) then Uploaded(t, u, width, height, x - x0, y - y0)
              else Cell(before, n, w, h, x, y)
  }

  /** The row loop of an upload. Texels outside the rectangle are not written. */
  method CopyTexels(t: TextureObject, u: Upload, before: seq<byte>, w: nat, h: nat, x0: nat, y0: nat, width: nat, height: nat)
    returns (after: seq<byte>)
    requires UploadFits(t, u, width, height) && |before| == w * h * TexelBytes(t.format, t.componentType)
    requires x0 + width <= w && y0 + height <= h
    ensures Updated(t, u, before, after, w, h, x0, y0, width, height, 0, height)
  {
    hide Uploaded, Cell, UploadFits, TexelBytes;
    var n := TexelBytes(t.format, t.componentType);
    after := before;
    var row := 0;
    while row < height
      invariant 0 <= row <= height
      invariant Updated(t, u, before, after, w, h, x0, y0, width, height, 0, row)
    {
      var column := 0;
      while column < width
        invariant 0 <= column <= width
        invariant Updated(t, u, before, after, w, h, x0, y0, width, height, column, row)
      {
        after := PutCell(after, n, w, h, x0 + column, y0 + row, Uploaded(t, u, width, height, column, row));
        column := column + 1;
      }
      row := row + 1;
    }
  }
}

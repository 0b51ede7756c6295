/** yuv420toNV21: repacks the three planes of a YUV_420_888 frame into one
    NV21 byte array. The crop rectangle's Y samples come first, row after
    row; then, at half resolution in both directions, the V and U samples
    interleaved as V, U, V, U, ... Each plane is read through its own row
    stride and pixel stride, starting at the crop's top-left corner (halved
    for the chroma planes), by moving the plane's ByteBuffer cursor. */
module Nv21 {
  import opened Outcomes
  import opened Frames

  // ----- Arithmetic facts the index reasoning needs -----

  lemma MulLeft(a: int, b: int, k: int)
    requires a <= b && k >= 0
    ensures k * a <= k * b && a * k <= b * k
  {
  }

  lemma MulStrict(a: int, b: int, k: int)
    requires a < b && k >= 1
    ensures k * a < k * b && a * k < b * k
  {
  }

  lemma MulNext(a: int, k: int)
    ensures (a + 1) * k == a * k + k
  {
  }

  lemma MulAdd(a: int, b: int, k: int)
    ensures (a + b) * k == a * k + b * k
  {
  }

  /** What a plane leaves alone after row + 1 rows, CopyRow leaves alone in
      row `row` and the plane left alone after `row` rows. */
  lemma UntouchedAfterRow(j: int, offset: int, outputStride: int, row: nat, w: nat)
    requires outputStride == 1 || outputStride == 2
    requires Untouched(j, offset, outputStride, (row + 1) * w)
    ensures Untouched(j, offset + row * w * outputStride, outputStride, w)
    ensures Untouched(j, offset, outputStride, row * w)
  {
    MulLeft(0, row, w);
    MulLeft(0, row * w, outputStride);
    MulLeft(0, w, outputStride);
    MulNext(row, w);
    MulAdd(row * w, w, outputStride);
    if outputStride == 2 {
      ParityShift(j - offset, row * w);
    }
  }

  /** Sample (r, c) lies `c * outputStride` past the first output position of row r. */
  lemma SlotOfRow(offset: int, outputStride: int, w: int, r: int, c: int)
    ensures Slot(offset, outputStride, w, r, c) == (offset + r * w * outputStride) + c * outputStride
  {
    assert (r * w + c) * outputStride == r * w * outputStride + c * outputStride;
  }

  /** Sample (r, c) lies `c * pixelStride` past the first sample of row r. */
  lemma SampleOfRow(rowStride: int, pixelStride: int, top: int, left: int, r: int, c: int)
    ensures SampleIndex(rowStride, pixelStride, top, left, r, c)
         == SampleIndex(rowStride, pixelStride, top, left, r, 0) + c * pixelStride
  {
    assert pixelStride * (left + c) == pixelStride * left + c * pixelStride;
  }

  /** Consecutive rows start `rowStride` apart. */
  lemma NextRowStart(rowStride: int, pixelStride: int, top: int, left: int, r: int)
    ensures SampleIndex(rowStride, pixelStride, top, left, r + 1, 0)
         == SampleIndex(rowStride, pixelStride, top, left, r, 0) + rowStride
  {
    assert rowStride * (top + r + 1) == rowStride * (top + r) + rowStride;
  }

  /** Row-major position (r, c) of a w-wide, h-high grid lies inside it. */
  lemma RowMajorInside(r: int, c: int, w: int, h: int)
    requires 0 <= r < h && 0 <= c < w
    ensures 0 <= r * w + c < w * h
  {
    MulLeft(r + 1, h, w);
  }

  /** Row-major order: every cell of an earlier row comes before (row, col). */
  lemma RowMajorBefore(r: int, c: int, row: int, col: int, w: int)
    requires 0 <= r < row && 0 <= c < w && 0 <= col
    ensures r * w + c < row * w + col
  {
    MulLeft(r + 1, row, w);
  }

  /** Splits an index of a w-wide, h-high row-major grid into its row and column. */
  lemma DivideRowMajor(j: int, w: int, h: nat)
    requires 0 <= j < w * h
    ensures w > 0 && 0 <= j / w < h && 0 <= j % w < w && j == (j / w) * w + j % w
  {
    if w <= 0 {
      MulLeft(w, 0, h);
    }
    if j / w >= h {
      MulLeft(h, j / w, w);
    }
  }

  /** The row and column of a row-major position are recovered by / and %. */
  lemma RowMajorDivides(r: int, c: int, w: int)
    requires 0 <= r && 0 <= c < w
    ensures (r * w + c) / w == r && (r * w + c) % w == c
  {
    var j := r * w + c;
    var q, m := j / w, j % w;
    assert j == q * w + m;
    if q < r {
      MulLeft(q + 1, r, w);
    } else if q > r {
      MulLeft(r + 1, q, w);
    }
  }

  // ----- Plane geometry -----

  /** `x shr shift` for a non-negative x. */
  function Shr(x: nat, shift: nat): nat {
    if shift == 0 then x else Shr(x / 2, shift - 1)
  }

  /** Byte offset, in a plane's buffer, of sample (r, c) of the crop:
      `rowStride * (top + r) + pixelStride * (left + c)`, where top and left
      are the crop's corner already shifted for the plane. */
  function SampleIndex(rowStride: int, pixelStride: int, top: int, left: int, r: int, c: int): int {
    rowStride * (top + r) + pixelStride * (left + c)
  }

  /** Output position of sample (r, c) of a w-wide plane written from
      `offset` on, one sample every `outputStride` bytes. */
  function Slot(offset: int, outputStride: int, w: int, r: int, c: int): int {
    offset + (r * w + c) * outputStride
  }

  /** True when the row is copied with a single bulk get. */
  predicate BulkRow(pixelStride: int, outputStride: int) {
    pixelStride == 1 && outputStride == 1
  }

  /** Bytes taken from the buffer for one row of w samples. */
  function RowLength(pixelStride: int, outputStride: int, w: int): int {
    if BulkRow(pixelStride, outputStride) then w else (w - 1) * pixelStride + 1
  }

  /** Whether the bulk get of a row starting at `position` succeeds: the
      row length is not negative, fits the scratch row when the row is read
      sample by sample, and does not run past the buffer's limit. */
  predicate RowFits(limit: int, rowDataSize: int, pixelStride: int, outputStride: int, w: int, position: int) {
    var length := RowLength(pixelStride, outputStride, w);
    0 <= length && (!BulkRow(pixelStride, outputStride) ==> length <= rowDataSize) && position + length <= limit
  }

  /** Whether every cursor move and every bulk get of one plane stays within
      range: the first position lies within the buffer and, if there is a
      row at all, the row length is not negative, fits the scratch row when
      the row is read sample by sample, and the last row ends within the
      buffer. Rows start `rowStride` apart, so the last row is the one that
      reaches furthest. */
  predicate RowsReadable(limit: int, rowDataSize: int, rowStride: int, pixelStride: int,
                         top: int, left: int, w: int, h: int, outputStride: int)
  {
    SampleIndex(rowStride, pixelStride, top, left, 0, 0) <= limit &&
    (h > 0 ==> RowFits(limit, rowDataSize, pixelStride, outputStride, w, SampleIndex(rowStride, pixelStride, top, left, h - 1, 0)))
  }

  /** Positions of the output that a plane written from `offset`, one sample
      every `outputStride` bytes, `count` samples in all, leaves alone. */
  predicate Untouched(j: int, offset: int, outputStride: int, count: int) {
    j < offset || offset + count * outputStride <= j || (outputStride == 2 && (j - offset) % 2 == 1)
  }

  /** Every sample of a readable plane lies within its buffer. */
  lemma SampleInBounds(limit: int, rowDataSize: int, rowStride: int, pixelStride: int,
                       top: nat, left: nat, w: int, h: int, outputStride: int, r: int, c: int)
    requires rowStride >= 1 && pixelStride >= 1 && (BulkRow(pixelStride, outputStride) ==> pixelStride == 1)
    requires RowsReadable(limit, rowDataSize, rowStride, pixelStride, top, left, w, h, outputStride)
    requires 0 <= r < h && 0 <= c < w
    ensures 0 <= SampleIndex(rowStride, pixelStride, top, left, r, c) < limit
  {
    MulLeft(top + r, top + h - 1, rowStride);
    MulLeft(c, w - 1, pixelStride);
    MulLeft(0, top + r, rowStride);
    MulLeft(0, left + c, pixelStride);
  }

  /** Shifting by an even amount keeps the parity. */
  lemma ParityShift(x: int, m: int)
    ensures (x - 2 * m) % 2 == x % 2
  {
  }

  // ----- The ByteBuffer reads -----

  /** `buffer.get(dst, offset, length)` on a ByteBuffer whose cursor is at
      `position`: copies `length` bytes into `dst` from `offset` on, or throws
      (ok false) when the range does not fit `dst` or fewer than `length`
      bytes remain. The cursor then advances by `length`. */
  method BulkGet(buffer: seq<bv8>, position: int, dst: array<bv8>, offset: int, length: int) returns (ok: bool)
    requires 0 <= position <= |buffer|
    modifies dst
    ensures ok <==> 0 <= offset && 0 <= length && offset + length <= dst.Length && length <= |buffer| - position
    ensures ok ==> forall j :: offset <= j < offset + length ==> dst[j] == buffer[position + (j - offset)]
    ensures forall j :: 0 <= j < dst.Length && (!ok || j < offset || offset + length <= j) ==> dst[j] == old(dst[j])
  {
    if offset < 0 || length < 0 || offset + length > dst.Length || length > |buffer| - position {
      return false;
    }
    for k := 0 to length
      invariant forall j :: offset <= j < offset + k ==> dst[j] == buffer[position + (j - offset)]
      invariant forall j :: 0 <= j < dst.Length && (j < offset || offset + k <= j) ==> dst[j] == old(dst[j])
    {
      dst[offset + k] := buffer[position + k];
    }
    return true;
  }

  // ----- What has been copied so far -----

  /** Row samples 0 .. w-1, read from `position` on one every `pixelStride`
      bytes, sit in `s` from `channelOffset` on, one every `outputStride`. */
  ghost predicate RowCopied(s: seq<bv8>, buffer: seq<bv8>, position: int, pixelStride: int, w: int,
                            channelOffset: int, outputStride: int)
  {
    forall c :: 0 <= c < w ==>
      0 <= position + c * pixelStride < |buffer| && 0 <= channelOffset + c * outputStride < |s| &&
      s[channelOffset + c * outputStride] == buffer[position + c * pixelStride]
  }

  /** The first `rows` rows of a plane sit at their output positions in `s`. */
  ghost predicate RowsCopied(s: seq<bv8>, buffer: seq<bv8>, rowStride: int, pixelStride: int, top: int, left: int,
                             w: int, rows: int, offset: int, outputStride: int)
  {
    forall r, c :: 0 <= r < rows && 0 <= c < w ==>
      0 <= SampleIndex(rowStride, pixelStride, top, left, r, c) < |buffer| &&
      0 <= Slot(offset, outputStride, w, r, c) < |s| &&
      s[Slot(offset, outputStride, w, r, c)] == buffer[SampleIndex(rowStride, pixelStride, top, left, r, c)]
  }

  /** `t` agrees with `s` wherever a plane written from `offset`, `count`
      samples one every `outputStride` bytes, does not write. */
  ghost predicate Unchanged(s: seq<bv8>, t: seq<bv8>, offset: int, outputStride: int, count: int) {
    |s| == |t| &&
    forall j :: 0 <= j < |s| && Untouched(j, offset, outputStride, count) ==> t[j] == s[j]
  }

  /** Copying row `row` after the rows before it extends what has been copied. */
  lemma ExtendRows(before: seq<bv8>, after: seq<bv8>, buffer: seq<bv8>, rowStride: int, pixelStride: int,
                   top: nat, left: nat, w: nat, row: nat, offset: int, outputStride: int)
    requires rowStride >= 1 && pixelStride >= 1 && (outputStride == 1 || outputStride == 2)
    requires RowsCopied(before, buffer, rowStride, pixelStride, top, left, w, row, offset, outputStride)
    requires RowCopied(after, buffer, SampleIndex(rowStride, pixelStride, top, left, row, 0), pixelStride, w,
                       offset + row * w * outputStride, outputStride)
    requires Unchanged(before, after, offset + row * w * outputStride, outputStride, w)
    ensures RowsCopied(after, buffer, rowStride, pixelStride, top, left, w, row + 1, offset, outputStride)
  {
    forall r, c | 0 <= r <= row && 0 <= c < w
      ensures 0 <= SampleIndex(rowStride, pixelStride, top, left, r, c) < |buffer|
      ensures 0 <= Slot(offset, outputStride, w, r, c) < |after|
      ensures after[Slot(offset, outputStride, w, r, c)] == buffer[SampleIndex(rowStride, pixelStride, top, left, r, c)]
    {
      SlotOfRow(offset, outputStride, w, row, c);
      if r < row {
        RowMajorBefore(r, c, row, 0, w);
        MulStrict(r * w + c, row * w, outputStride);
        SlotOfRow(offset, outputStride, w, row, 0);
        assert Untouched(Slot(offset, outputStride, w, r, c), offset + row * w * outputStride, outputStride, w);
      } else {
        SampleOfRow(rowStride, pixelStride, top, left, row, c);
      }
    }
  }

  /** The positions a plane leaves alone after row + 1 rows were left alone
      by the first `row` rows and by row `row`. */
  lemma UnchangedAfterRow(orig: seq<bv8>, before: seq<bv8>, after: seq<bv8>, offset: int, outputStride: int, row: nat, w: nat)
    requires outputStride == 1 || outputStride == 2
    requires Unchanged(orig, before, offset, outputStride, row * w)
    requires Unchanged(before, after, offset + row * w * outputStride, outputStride, w)
    ensures Unchanged(orig, after, offset, outputStride, (row + 1) * w)
  {
    forall j | 0 <= j < |orig| && Untouched(j, offset, outputStride, (row + 1) * w)
      ensures after[j] == orig[j]
    {
      UntouchedAfterRow(j, offset, outputStride, row, w);
    }
  }

  // ----- One row -----

  /** The sample-by-sample half of a strided row: sample `col` is byte
      `col * pixelStride` of the scratch row and goes to
      `channelOffset + col * outputStride`. */
  method ScatterRow(rowData: array<bv8>, pixelStride: Stride, w: nat, data: array<bv8>,
                    channelOffset: int, outputStride: int) returns (next: int)
    requires data != rowData
    requires outputStride == 1 || outputStride == 2
    requires 0 <= channelOffset
    requires w == 0 || ((w - 1) * pixelStride < rowData.Length && channelOffset + (w - 1) * outputStride < data.Length)
    modifies data
    ensures next == channelOffset + w * outputStride
    ensures RowCopied(data[..], rowData[..], 0, pixelStride, w, channelOffset, outputStride)
    ensures Unchanged(old(data[..]), data[..], channelOffset, outputStride, w)
  {
    next := channelOffset;
    for col := 0 to w
      invariant next == channelOffset + col * outputStride
      invariant RowCopied(data[..], rowData[..], 0, pixelStride, col, channelOffset, outputStride)
      invariant Unchanged(old(data[..]), data[..], channelOffset, outputStride, col)
    {
      ScatterStep(old(data[..]), data[..], rowData[..], pixelStride, w, col, channelOffset, outputStride);
      data[next] := rowData[col * pixelStride];
      next := next + outputStride;
    }
  }

  /** Storing sample `col` at its slot stays within both arrays, extends
      the copied prefix of the row by one and touches nothing outside the
      row's slots. */
  lemma ScatterStep(s0: seq<bv8>, s: seq<bv8>, rowData: seq<bv8>, pixelStride: int, w: nat, col: nat,
                    channelOffset: int, outputStride: int)
    requires outputStride == 1 || outputStride == 2
    requires pixelStride >= 1 && 0 <= channelOffset && col < w
    requires (w - 1) * pixelStride < |rowData| && channelOffset + (w - 1) * outputStride < |s|
    requires RowCopied(s, rowData, 0, pixelStride, col, channelOffset, outputStride)
    requires Unchanged(s0, s, channelOffset, outputStride, col)
    ensures 0 <= col * pixelStride < |rowData| && 0 <= channelOffset + col * outputStride < |s|
    ensures channelOffset + (col + 1) * outputStride == channelOffset + col * outputStride + outputStride
    ensures var t := s[channelOffset + col * outputStride := rowData[col * pixelStride]];
      RowCopied(t, rowData, 0, pixelStride, col + 1, channelOffset, outputStride) &&
      Unchanged(s0, t, channelOffset, outputStride, col + 1)
  {
    ScatterBounds(|rowData|, |s|, pixelStride, w, col, channelOffset, outputStride);
  }

  /** The arithmetic of ScatterStep: sample `col` lies within both arrays,
      its slot comes after every earlier sample's slot, and with an output
      stride of 2 it is at an even distance from the row's start. */
  lemma ScatterBounds(rowLength: int, dataLength: int, pixelStride: int, w: nat, col: nat,
                      channelOffset: int, outputStride: int)
    requires outputStride == 1 || outputStride == 2
    requires pixelStride >= 1 && 0 <= channelOffset && col < w
    requires (w - 1) * pixelStride < rowLength && channelOffset + (w - 1) * outputStride < dataLength
    ensures 0 <= col * pixelStride < rowLength && 0 <= channelOffset + col * outputStride < dataLength
    ensures (col + 1) * outputStride == col * outputStride + outputStride
    ensures outputStride == 2 ==> col * outputStride == 2 * col
    ensures forall c :: 0 <= c < col ==> c * outputStride < col * outputStride
  {
    MulLeft(col, w - 1, pixelStride);
    MulLeft(col, w - 1, outputStride);
    MulNext(col, outputStride);
    MulLeft(0, col, pixelStride);
    forall c | 0 <= c < col
      ensures c * outputStride < col * outputStride
    {
      MulStrict(c, col, outputStride);
    }
  }

  /** RowCopied from the scratch row carries over to the buffer bytes the
      scratch row holds. */
  lemma RowFromScratch(s: seq<bv8>, scratch: seq<bv8>, buffer: seq<bv8>, position: int, length: int,
                       pixelStride: int, w: int, channelOffset: int, outputStride: int)
    requires 0 <= position && position + length <= |buffer| && length <= |scratch|
    requires forall k :: 0 <= k < length ==> scratch[k] == buffer[position + k]
    requires w == 0 || (w - 1) * pixelStride < length
    requires pixelStride >= 1
    requires RowCopied(s, scratch, 0, pixelStride, w, channelOffset, outputStride)
    ensures RowCopied(s, buffer, position, pixelStride, w, channelOffset, outputStride)
  {
    forall c | 0 <= c < w
      ensures 0 <= position + c * pixelStride < |buffer|
      ensures s[channelOffset + c * outputStride] == buffer[position + c * pixelStride]
    {
      MulLeft(c, w - 1, pixelStride);
      MulLeft(0, c, pixelStride);
    }
  }

  /** The body of the row loop of yuv420toNV21, up to the cursor move: one
      row of w samples starting at `position`, written to `data` from
      `channelOffset` on, one every `outputStride` bytes. With both strides 1
      it is a single bulk get of w bytes straight into `data`; otherwise a
      bulk get of `(w - 1) * pixelStride + 1` bytes into the scratch row,
      then ScatterRow. */
  method CopyRow(buffer: seq<bv8>, position: int, pixelStride: Stride, w: nat,
                 data: array<bv8>, rowData: array<bv8>, channelOffset: int, outputStride: int) returns (ok: bool, next: int)
    requires 0 <= position <= |buffer|
    requires outputStride == 1 || outputStride == 2
    requires data != rowData
    requires 0 <= channelOffset
    requires BulkRow(pixelStride, outputStride) ==> channelOffset + w <= data.Length
    requires w == 0 || channelOffset + (w - 1) * outputStride < data.Length
    modifies data, rowData
    ensures ok <==> RowFits(|buffer|, rowData.Length, pixelStride, outputStride, w, position)
    ensures ok ==> next == channelOffset + w * outputStride
    ensures ok ==> RowCopied(data[..], buffer, position, pixelStride, w, channelOffset, outputStride)
    ensures Unchanged(old(data[..]), data[..], channelOffset, outputStride, w)
  {
    var length: int;
    next := channelOffset;
    if pixelStride == 1 && outputStride == 1 {
      length := w;
      ok := BulkGet(buffer, position, data, channelOffset, length);
      next := channelOffset + length;
    } else {
      length := (w - 1) * pixelStride + 1;
      ok := BulkGet(buffer, position, rowData, 0, length);
      if !ok {
        return;
      }
      next := ScatterRow(rowData, pixelStride, w, data, channelOffset, outputStride);
      RowFromScratch(data[..], rowData[..], buffer, position, length, pixelStride, w, channelOffset, outputStride);
    }
  }

  // ----- One plane -----

  /** A w-wide row `row` of an h-row plane written from `offset` fits the
      output, starts at or after `offset`, and ends where row `row + 1` starts. */
  lemma RowTargetFits(offset: int, outputStride: int, w: nat, h: nat, row: nat, dataLength: int)
    requires outputStride == 1 || outputStride == 2
    requires row < h
    requires outputStride == 1 ==> offset + w * h <= dataLength
    requires w * h == 0 || offset + (w * h - 1) * outputStride < dataLength
    ensures 0 <= row * w * outputStride
    ensures outputStride == 1 ==> offset + row * w * outputStride + w <= dataLength
    ensures w == 0 || offset + row * w * outputStride + (w - 1) * outputStride < dataLength
    ensures offset + row * w * outputStride + w * outputStride == offset + (row + 1) * w * outputStride
  {
    MulLeft(0, row, w);
    MulLeft(0, row * w, outputStride);
    RowMajorNext(offset, outputStride, w, row);
    if outputStride == 1 {
      assert row * w * outputStride == row * w;
      MulNext(row, w);
      MulLeft(row + 1, h, w);
      assert h * w == w * h;
    }
    if w > 0 {
      RowMajorInside(row, w - 1, w, h);
      MulLeft(row * w + w - 1, w * h - 1, outputStride);
      SlotOfRow(offset, outputStride, w, row, w - 1);
    }
  }

  /** The row after row `row` starts w samples further on in the output. */
  lemma RowMajorNext(offset: int, outputStride: int, w: int, row: int)
    ensures offset + row * w * outputStride + w * outputStride == offset + (row + 1) * w * outputStride
  {
    MulNext(row, w);
    MulAdd(row * w, w, outputStride);
  }

  /** A row that cannot be read makes the plane unreadable: the last row
      starts at least as far into the buffer. */
  lemma FailedRowUnreadable(limit: int, rowDataSize: int, rowStride: int, pixelStride: int,
                            top: nat, left: nat, w: int, h: int, outputStride: int, row: nat)
    requires rowStride >= 1 && row < h
    requires !RowFits(limit, rowDataSize, pixelStride, outputStride, w, SampleIndex(rowStride, pixelStride, top, left, row, 0))
    ensures !RowsReadable(limit, rowDataSize, rowStride, pixelStride, top, left, w, h, outputStride)
  {
    MulLeft(top + row, top + h - 1, rowStride);
  }

  /** A row that starts past the limit makes the plane unreadable. */
  lemma FailedMoveUnreadable(limit: int, rowDataSize: int, rowStride: int, pixelStride: int,
                             top: nat, left: nat, w: int, h: int, outputStride: int, row: nat)
    requires rowStride >= 1 && row < h
    requires SampleIndex(rowStride, pixelStride, top, left, row, 0) > limit
    ensures !RowsReadable(limit, rowDataSize, rowStride, pixelStride, top, left, w, h, outputStride)
  {
    MulLeft(top + row, top + h - 1, rowStride);
  }

  /** A plane whose last row can be read is readable: the earlier rows start
      before it. */
  lemma LastRowReadable(limit: int, rowDataSize: int, rowStride: int, pixelStride: int,
                        top: nat, left: nat, w: int, h: int, outputStride: int)
    requires rowStride >= 1 && h > 0
    requires RowFits(limit, rowDataSize, pixelStride, outputStride, w, SampleIndex(rowStride, pixelStride, top, left, h - 1, 0))
    ensures RowsReadable(limit, rowDataSize, rowStride, pixelStride, top, left, w, h, outputStride)
  {
    MulLeft(top, top + h - 1, rowStride);
  }

  /** One row of a plane, from the cursor at its first sample: CopyRow, with
      what was copied stated for the plane as a whole. */
  method PlaneRow(buffer: seq<bv8>, rowStride: Stride, pixelStride: Stride, top: nat, left: nat, w: nat, h: nat,
                  data: array<bv8>, rowData: array<bv8>, offset: nat, outputStride: int,
                  row: nat, position: int, channelOffset: int, ghost original: seq<bv8>) returns (ok: bool, next: int)
    requires outputStride == 1 || outputStride == 2
    requires channelOffset == offset + row * w * outputStride
    requires data != rowData
    requires outputStride == 1 ==> offset + w * h <= data.Length
    requires w * h == 0 || offset + (w * h - 1) * outputStride < data.Length
    requires row < h
    requires position == SampleIndex(rowStride, pixelStride, top, left, row, 0) && 0 <= position <= |buffer|
    requires RowsCopied(data[..], buffer, rowStride, pixelStride, top, left, w, row, offset, outputStride)
    requires Unchanged(original, data[..], offset, outputStride, row * w)
    modifies data, rowData
    ensures ok <==> RowFits(|buffer|, rowData.Length, pixelStride, outputStride, w, position)
    ensures ok ==> next == offset + (row + 1) * w * outputStride
    ensures ok ==> RowsCopied(data[..], buffer, rowStride, pixelStride, top, left, w, row + 1, offset, outputStride)
    ensures ok ==> Unchanged(original, data[..], offset, outputStride, (row + 1) * w)
  {
    RowTargetFits(offset, outputStride, w, h, row, data.Length);
    ghost var before := data[..];
    ok, next := CopyRow(buffer, position, pixelStride, w, data, rowData, channelOffset, outputStride);
    if ok {
      ExtendRows(before, data[..], buffer, rowStride, pixelStride, top, left, w, row, offset, outputStride);
      UnchangedAfterRow(original, before, data[..], offset, outputStride, row, w);
    }
  }

  /** The body of the plane loop of yuv420toNV21 for one plane: sets the
      cursor to the crop's first sample, then reads h rows with CopyRow and,
      between rows, `buffer.position(buffer.position() + rowStride - length)`,
      so row r starts `r * rowStride` past the first. It fails exactly when a
      cursor move or a get is out of range; when it succeeds it has written
      nothing outside the plane's own output positions. */
  method CopyPlane(buffer: seq<bv8>, rowStride: Stride, pixelStride: Stride, top: nat, left: nat, w: nat, h: nat,
                   data: array<bv8>, rowData: array<bv8>, offset: nat, outputStride: int) returns (ok: bool)
    requires outputStride == 1 || outputStride == 2
    requires data != rowData
    requires outputStride == 1 ==> offset + w * h <= data.Length
    requires w * h == 0 || offset + (w * h - 1) * outputStride < data.Length
    modifies data, rowData
    ensures ok <==> RowsReadable(|buffer|, rowData.Length, rowStride, pixelStride, top, left, w, h, outputStride)
    ensures ok ==> RowsCopied(data[..], buffer, rowStride, pixelStride, top, left, w, h, offset, outputStride)
    ensures ok ==> Unchanged(old(data[..]), data[..], offset, outputStride, h * w)
  {
    var position := SampleIndex(rowStride, pixelStride, top, left, 0, 0);
    MulLeft(0, top, rowStride);
    MulLeft(0, left, pixelStride);
    if position > |buffer| {
      // buffer.position(...) past the limit
      return false;
    }
    if h == 0 {
      return true;
    }
    var channelOffset := offset;
    var row := 0;
    while row < h
      invariant 0 <= row <= h
      invariant row < h ==> position == SampleIndex(rowStride, pixelStride, top, left, row, 0) && position <= |buffer|
      invariant row == h ==> RowsReadable(|buffer|, rowData.Length, rowStride, pixelStride, top, left, w, h, outputStride)
      invariant channelOffset == offset + row * w * outputStride
      invariant RowsCopied(data[..], buffer, rowStride, pixelStride, top, left, w, row, offset, outputStride)
      invariant Unchanged(old(data[..]), data[..], offset, outputStride, row * w)
    {
      ok, channelOffset := PlaneRow(buffer, rowStride, pixelStride, top, left, w, h, data, rowData, offset, outputStride, row, position, channelOffset, old(data[..]));
      if !ok {
        FailedRowUnreadable(|buffer|, rowData.Length, rowStride, pixelStride, top, left, w, h, outputStride, row);
        return;
      }
      if row < h - 1 {
        // the get advanced the cursor by the row length; the move adds the rest of the stride
        position := position + rowStride;
        NextRowStart(rowStride, pixelStride, top, left, row);
        if position > |buffer| {
          FailedMoveUnreadable(|buffer|, rowData.Length, rowStride, pixelStride, top, left, w, h, outputStride, row + 1);
          return false;
        }
      } else {
        LastRowReadable(|buffer|, rowData.Length, rowStride, pixelStride, top, left, w, h, outputStride);
      }
      row := row + 1;
    }
    return true;
  }

  // ----- The frame -----

  /** ImageFormat.getBitsPerPixel(YUV_420_888). */
  const YuvBitsPerPixel := 12

  /** The crop's width and height, `crop.width()` and `crop.height()`. */
  function CropWidth(image: ImageProxy): nat
    requires image.Valid()
  {
    image.cropRect.Width()
  }

  function CropHeight(image: ImageProxy): nat
    requires image.Valid()
  {
    image.cropRect.Height()
  }

  /** Number of samples in a `width` by `height` block. */
  function Area(width: nat, height: nat): nat {
    width * height
  }

  /** Number of Y samples, `width * height`. */
  function LumaSize(image: ImageProxy): nat
    requires image.Valid()
  {
    Area(CropWidth(image), CropHeight(image))
  }

  /** Size of the output array: `width * height * 12 / 8`. */
  function DataSize(image: ImageProxy): nat
    requires image.Valid()
  {
    LumaSize(image) * YuvBitsPerPixel / 8
  }

  /** Plane 0 (Y) is read at full resolution, planes 1 (U) and 2 (V) at half. */
  function PlaneShift(i: int): nat {
    if i == 0 then 0 else 1
  }

  /** Where plane i's first sample goes: Y at 0, U just after the first V, V right after Y. */
  function OutputOffset(i: int, lumaSize: int): int {
    if i == 0 then 0 else if i == 1 then lumaSize + 1 else lumaSize
  }

  /** Y samples are packed; U and V samples interleave, each every other byte. */
  function OutputStride(i: int): int {
    if i == 0 then 1 else 2
  }

  function PlaneWidth(image: ImageProxy, i: int): nat
    requires image.Valid()
  {
    Shr(CropWidth(image), PlaneShift(i))
  }

  function PlaneHeight(image: ImageProxy, i: int): nat
    requires image.Valid()
  {
    Shr(CropHeight(image), PlaneShift(i))
  }

  function PlaneTop(image: ImageProxy, i: int): nat
    requires image.Valid()
  {
    Shr(image.cropRect.top, PlaneShift(i))
  }

  function PlaneLeft(image: ImageProxy, i: int): nat
    requires image.Valid()
  {
    Shr(image.cropRect.left, PlaneShift(i))
  }

  /** Number of samples of plane i, `h * w`. */
  function PlaneCount(image: ImageProxy, i: int): nat
    requires image.Valid()
  {
    PlaneHeight(image, i) * PlaneWidth(image, i)
  }

  /** Whether plane i can be read with the frame's strides and the scratch
      row, which is as long as plane 0's row stride. */
  predicate PlaneReadable(image: ImageProxy, i: int)
    requires image.Valid() && image.format == YUV_420_888 && 0 <= i < 3
  {
    var plane := image.planes[i];
    RowsReadable(|plane.buffer|, image.planes[0].rowStride, plane.rowStride, plane.pixelStride,
                 PlaneTop(image, i), PlaneLeft(image, i), PlaneWidth(image, i), PlaneHeight(image, i), OutputStride(i))
  }

  /** Whether yuv420toNV21 runs without a buffer exception. */
  predicate ReadsInBounds(image: ImageProxy)
    requires image.Valid() && image.format == YUV_420_888
  {
    forall i :: 0 <= i < 3 ==> PlaneReadable(image, i)
  }

  /** Sample (r, c) of plane i's crop; 0 where the index falls outside the buffer. */
  function PlaneSample(image: ImageProxy, i: int, r: int, c: int): bv8
    requires image.Valid() && image.format == YUV_420_888 && 0 <= i < 3
  {
    var plane := image.planes[i];
    var k := SampleIndex(plane.rowStride, plane.pixelStride, PlaneTop(image, i), PlaneLeft(image, i), r, c);
    if 0 <= k < |plane.buffer| then plane.buffer[k] else 0
  }

  /** All of plane i sits at its output positions in `s`. */
  ghost predicate PlaneCopied(image: ImageProxy, s: seq<bv8>, i: int)
    requires image.Valid() && image.format == YUV_420_888 && 0 <= i < 3
  {
    var plane := image.planes[i];
    RowsCopied(s, plane.buffer, plane.rowStride, plane.pixelStride, PlaneTop(image, i), PlaneLeft(image, i),
               PlaneWidth(image, i), PlaneHeight(image, i), OutputOffset(i, LumaSize(image)), OutputStride(i))
  }

  /** The output positions no plane below `planes` writes. */
  predicate Unwritten(image: ImageProxy, planes: int, j: int)
    requires image.Valid()
  {
    var lumaSize := LumaSize(image);
    (planes > 0 ==> Untouched(j, OutputOffset(0, lumaSize), OutputStride(0), PlaneCount(image, 0))) &&
    (planes > 1 ==> Untouched(j, OutputOffset(1, lumaSize), OutputStride(1), PlaneCount(image, 1))) &&
    (planes > 2 ==> Untouched(j, OutputOffset(2, lumaSize), OutputStride(2), PlaneCount(image, 2)))
  }

  /** End of the chroma samples: Y, then one V and one U byte per chroma sample. */
  function ChromaEnd(image: ImageProxy): int
    requires image.Valid()
  {
    LumaSize(image) + 2 * PlaneCount(image, 1)
  }

  /** The NV21 layout of a frame's crop: `DataSize` bytes; Y sample (r, c)
      at `r * width + c`; V sample (r, c) of the half-size chroma grid at
      `width * height + 2 * (r * (width / 2) + c)` and U sample (r, c) one
      byte after it; every byte after the chroma 0. */
  ghost predicate IsNv21(image: ImageProxy, s: seq<bv8>)
    requires image.Valid() && image.format == YUV_420_888
  {
    |s| == DataSize(image) &&
    PlaneCopied(image, s, 0) && PlaneCopied(image, s, 1) && PlaneCopied(image, s, 2) &&
    forall j :: ChromaEnd(image) <= j < |s| ==> s[j] == 0
  }

  /** Byte j of the NV21 array, read off its index: a Y sample below
      `width * height`, then V and U samples alternately, then 0. */
  function Nv21Byte(image: ImageProxy, j: int): bv8
    requires image.Valid() && image.format == YUV_420_888 && 0 <= j
  {
    var width := CropWidth(image);
    var chromaWidth := PlaneWidth(image, 1);
    if j < LumaSize(image) then
      PlaneSample(image, 0, j / width, j % width)
    else if j < ChromaEnd(image) then
      var k := j - LumaSize(image);
      assert chromaWidth != 0;
      PlaneSample(image, if k % 2 == 0 then 2 else 1, (k / 2) / chromaWidth, (k / 2) % chromaWidth)
    else
      0
  }

  /** The NV21 array of a frame, byte by byte. */
  function Nv21(image: ImageProxy): (r: seq<bv8>)
    requires image.Valid() && image.format == YUV_420_888
    ensures |r| == DataSize(image)
    ensures forall j :: 0 <= j < |r| ==> r[j] == Nv21Byte(image, j)
  {
    seq(DataSize(image), j requires 0 <= j => Nv21Byte(image, j))
  }

  // ----- Facts about the layout -----

  /** `x shr 0` is x and `x shr 1` is x / 2. */
  lemma ShrSmall(x: nat)
    ensures Shr(x, 0) == x && Shr(x, 1) == x / 2
  {
    assert Shr(x, 1) == Shr(x / 2, 0);
  }

  /** A half-size grid has at most a quarter of the cells. */
  lemma QuarterGrid(width: nat, height: nat)
    ensures 4 * ((width / 2) * (height / 2)) <= width * height
  {
    MulLeft(2 * (width / 2), width, 2 * (height / 2));
    MulLeft(2 * (height / 2), height, width);
  }

  /** Twelve bits per sample is one and a half bytes. */
  lemma ThreeHalves(luma: nat)
    ensures luma * 12 / 8 == luma + luma / 2
  {
  }

  /** The plane sizes: Y is the crop, U and V are half its width and
      height; the output array holds the Y samples and the interleaved
      chroma, since `width * height * 12 / 8` is `width * height` plus half
      of it and the chroma grid has at most a quarter as many samples. */
  lemma Geometry(image: ImageProxy)
    requires image.Valid()
    ensures PlaneWidth(image, 0) == CropWidth(image) && PlaneHeight(image, 0) == CropHeight(image)
    ensures PlaneCount(image, 0) == LumaSize(image)
    ensures PlaneWidth(image, 1) == PlaneWidth(image, 2) == CropWidth(image) / 2
    ensures PlaneHeight(image, 1) == PlaneHeight(image, 2) == CropHeight(image) / 2
    ensures PlaneCount(image, 1) == PlaneCount(image, 2)
    ensures LumaSize(image) <= ChromaEnd(image) <= DataSize(image)
  {
    var width, height := CropWidth(image), CropHeight(image);
    ShrSmall(width);
    ShrSmall(height);
    QuarterGrid(width, height);
    ThreeHalves(LumaSize(image));
  }

  /** Plane i's samples fit the output array, as CopyPlane needs. */
  lemma PlaneFits(image: ImageProxy, i: int)
    requires image.Valid() && 0 <= i < 3
    ensures OutputOffset(i, LumaSize(image)) >= 0
    ensures OutputStride(i) == 1 ==> OutputOffset(i, LumaSize(image)) + PlaneCount(image, i) <= DataSize(image)
    ensures PlaneCount(image, i) == 0 ||
      OutputOffset(i, LumaSize(image)) + (PlaneCount(image, i) - 1) * OutputStride(i) < DataSize(image)
  {
    Geometry(image);
  }

  /** The three planes write to disjoint positions: Y below `width * height`,
      V at even and U at odd distances from it. */
  lemma PlanesDisjoint(image: ImageProxy, p: int, q: int, r: int, c: int)
    requires image.Valid() && 0 <= p < 3 && 0 <= q < 3 && p != q
    requires 0 <= r < PlaneHeight(image, p) && 0 <= c < PlaneWidth(image, p)
    ensures Untouched(Slot(OutputOffset(p, LumaSize(image)), OutputStride(p), PlaneWidth(image, p), r, c),
                      OutputOffset(q, LumaSize(image)), OutputStride(q), PlaneCount(image, q))
  {
    Geometry(image);
    LayoutDisjoint(p, q, LumaSize(image), PlaneCount(image, 1), PlaneWidth(image, p), PlaneHeight(image, p), r, c);
  }

  /** The layout argument of PlanesDisjoint on plain numbers: `luma` Y
      samples, `chroma` samples in each of U and V, and a `w` by `h` grid
      for plane p. */
  lemma LayoutDisjoint(p: int, q: int, luma: nat, chroma: nat, w: nat, h: nat, r: int, c: int)
    requires 0 <= p < 3 && 0 <= q < 3 && p != q
    requires 0 <= r < h && 0 <= c < w
    requires h * w == if p == 0 then luma else chroma
    ensures Untouched(Slot(OutputOffset(p, luma), OutputStride(p), w, r, c),
                      OutputOffset(q, luma), OutputStride(q), if q == 0 then luma else chroma)
  {
    var m := r * w + c;
    MulLeft(0, r, w);
    if p == 0 {
      RowMajorInside(r, c, w, h);
    } else if q == 0 {
    } else if p == 1 {
      assert Slot(OutputOffset(p, luma), 2, w, r, c) - luma == 2 * m + 1;
    } else {
      assert Slot(OutputOffset(p, luma), 2, w, r, c) - (luma + 1) == 2 * m - 1;
    }
  }

  /** Writing plane q keeps plane p's samples. */
  lemma KeepPlane(image: ImageProxy, s: seq<bv8>, t: seq<bv8>, p: int, q: int)
    requires image.Valid() && image.format == YUV_420_888 && 0 <= p < 3 && 0 <= q < 3 && p != q
    requires PlaneCopied(image, s, p)
    requires Unchanged(s, t, OutputOffset(q, LumaSize(image)), OutputStride(q), PlaneCount(image, q))
    ensures PlaneCopied(image, t, p)
  {
    var luma := LumaSize(image);
    forall r, c | 0 <= r < PlaneHeight(image, p) && 0 <= c < PlaneWidth(image, p)
      ensures t[Slot(OutputOffset(p, luma), OutputStride(p), PlaneWidth(image, p), r, c)]
           == s[Slot(OutputOffset(p, luma), OutputStride(p), PlaneWidth(image, p), r, c)]
    {
      PlanesDisjoint(image, p, q, r, c);
    }
  }

  /** Past `luma + 2 * chroma` nothing of the three planes is written. */
  lemma PastChroma(luma: int, chroma: int, j: int)
    requires 0 <= luma <= luma + 2 * chroma <= j
    ensures Untouched(j, 0, 1, luma) && Untouched(j, luma + 1, 2, chroma) && Untouched(j, luma, 2, chroma)
  {
    if j < luma + 1 + chroma * 2 {
      assert j - (luma + 1) == 2 * chroma - 1;
    }
  }

  /** No plane writes past the chroma. */
  lemma TailUnwritten(image: ImageProxy, j: int)
    requires image.Valid() && ChromaEnd(image) <= j
    ensures Unwritten(image, 3, j)
  {
    Geometry(image);
    PastChroma(LumaSize(image), PlaneCount(image, 1), j);
  }

  /** A sample of a readable plane is the buffer byte at its index. */
  lemma SampleOfReadable(image: ImageProxy, i: int, r: int, c: int)
    requires image.Valid() && image.format == YUV_420_888 && 0 <= i < 3 && PlaneReadable(image, i)
    requires 0 <= r < PlaneHeight(image, i) && 0 <= c < PlaneWidth(image, i)
    ensures var plane := image.planes[i];
      var k := SampleIndex(plane.rowStride, plane.pixelStride, PlaneTop(image, i), PlaneLeft(image, i), r, c);
      0 <= k < |plane.buffer| && PlaneSample(image, i, r, c) == plane.buffer[k]
  {
    var plane := image.planes[i];
    SampleInBounds(|plane.buffer|, image.planes[0].rowStride, plane.rowStride, plane.pixelStride,
                   PlaneTop(image, i), PlaneLeft(image, i), PlaneWidth(image, i), PlaneHeight(image, i), OutputStride(i), r, c);
  }

  /** The byte-by-byte array has the NV21 layout. */
  lemma {:induction false} Nv21Layout(image: ImageProxy)
    requires image.Valid() && image.format == YUV_420_888 && ReadsInBounds(image)
    ensures IsNv21(image, Nv21(image))
  {
    var s := Nv21(image);
    var luma := LumaSize(image);
    var width := CropWidth(image);
    Geometry(image);
    forall r, c | 0 <= r < PlaneHeight(image, 0) && 0 <= c < PlaneWidth(image, 0)
      ensures 0 <= Slot(0, 1, width, r, c) < |s| && s[Slot(0, 1, width, r, c)] == PlaneSample(image, 0, r, c)
    {
      RowMajorInside(r, c, width, CropHeight(image));
      RowMajorDivides(r, c, width);
    }
    forall i, r, c | 1 <= i < 3 && 0 <= r < PlaneHeight(image, i) && 0 <= c < PlaneWidth(image, i)
      ensures 0 <= Slot(OutputOffset(i, luma), 2, PlaneWidth(image, i), r, c) < |s|
      ensures s[Slot(OutputOffset(i, luma), 2, PlaneWidth(image, i), r, c)] == PlaneSample(image, i, r, c)
    {
      var m := r * PlaneWidth(image, i) + c;
      RowMajorInside(r, c, PlaneWidth(image, i), PlaneHeight(image, i));
      RowMajorDivides(r, c, PlaneWidth(image, i));
      var k := Slot(OutputOffset(i, luma), 2, PlaneWidth(image, i), r, c) - luma;
      assert k == 2 * m + (if i == 1 then 1 else 0);
      assert k / 2 == m;
    }
    forall i, r, c | 0 <= i < 3 && 0 <= r < PlaneHeight(image, i) && 0 <= c < PlaneWidth(image, i)
      ensures var plane := image.planes[i];
        var k := SampleIndex(plane.rowStride, plane.pixelStride, PlaneTop(image, i), PlaneLeft(image, i), r, c);
        0 <= k < |plane.buffer| && PlaneSample(image, i, r, c) == plane.buffer[k]
    {
      SampleOfReadable(image, i, r, c);
    }
  }

  /** The NV21 layout fixes every byte: an array with it is the byte-by-byte array. */
  lemma {:induction false} Nv21Unique(image: ImageProxy, s: seq<bv8>)
    requires image.Valid() && image.format == YUV_420_888 && IsNv21(image, s)
    ensures s == Nv21(image)
  {
    var t := Nv21(image);
    var luma := LumaSize(image);
    var width := CropWidth(image);
    Geometry(image);
    forall j | 0 <= j < |s|
      ensures s[j] == t[j]
    {
      if j < luma {
        DivideRowMajor(j, width, CropHeight(image));
        assert Slot(0, 1, width, j / width, j % width) == j;
        SampleOfCopied(image, s, 0, j / width, j % width);
      } else if j < ChromaEnd(image) {
        var k := j - luma;
        var m := k / 2;
        var i := if k % 2 == 0 then 2 else 1;
        var chromaWidth := PlaneWidth(image, i);
        DivideRowMajor(m, chromaWidth, PlaneHeight(image, i));
        assert Slot(OutputOffset(i, luma), 2, chromaWidth, m / chromaWidth, m % chromaWidth) == j;
        SampleOfCopied(image, s, i, m / chromaWidth, m % chromaWidth);
      }
    }
  }

  /** A copied sample of plane i is the plane's sample. */
  lemma SampleOfCopied(image: ImageProxy, s: seq<bv8>, i: int, r: int, c: int)
    requires image.Valid() && image.format == YUV_420_888 && 0 <= i < 3 && PlaneCopied(image, s, i)
    requires 0 <= r < PlaneHeight(image, i) && 0 <= c < PlaneWidth(image, i)
    ensures var j := Slot(OutputOffset(i, LumaSize(image)), OutputStride(i), PlaneWidth(image, i), r, c);
      0 <= j < |s| && s[j] == PlaneSample(image, i, r, c)
  {
  }

  // ----- yuv420toNV21 -----

  /** The body of the plane loop for plane i, once the `when` has chosen
      its output offset and stride: the crop's corner and size are shifted
      right by one for the chroma planes, then CopyPlane. */
  method ReadPlane(image: ImageProxy, i: int, data: array<bv8>, rowData: array<bv8>, channelOffset: nat, outputStride: int)
    returns (ok: bool)
    requires image.Valid() && image.format == YUV_420_888 && 0 <= i < 3
    requires data.Length == DataSize(image) && rowData.Length == image.planes[0].rowStride && data != rowData
    requires channelOffset == OutputOffset(i, LumaSize(image)) && outputStride == OutputStride(i)
    modifies data, rowData
    ensures ok <==> PlaneReadable(image, i)
    ensures ok ==> PlaneCopied(image, data[..], i)
    ensures ok ==> Unchanged(old(data[..]), data[..], channelOffset, outputStride, PlaneCount(image, i))
  {
    var crop := image.cropRect;
    var plane := image.planes[i];
    var shift := if i == 0 then 0 else 1;
    var w, h := Shr(crop.Width(), shift), Shr(crop.Height(), shift);
    PlaneFits(image, i);
    ok := CopyPlane(plane.buffer, plane.rowStride, plane.pixelStride, Shr(crop.top, shift), Shr(crop.left, shift),
                    w, h, data, rowData, channelOffset, outputStride);
  }

  /** After the first `planes` planes: each was readable and sits at its
      output positions, and every position none of them writes is still 0. */
  ghost predicate PlanesDone(image: ImageProxy, s: seq<bv8>, planes: int)
    requires image.Valid() && image.format == YUV_420_888 && 0 <= planes <= 3
  {
    (forall p :: 0 <= p < planes ==> PlaneReadable(image, p) && PlaneCopied(image, s, p)) &&
    forall j :: 0 <= j < |s| && Unwritten(image, planes, j) ==> s[j] == 0
  }

  /** Copying plane i after the planes before it keeps them and the zeros
      outside all of them. */
  lemma PlaneDone(image: ImageProxy, before: seq<bv8>, after: seq<bv8>, i: int)
    requires image.Valid() && image.format == YUV_420_888 && 0 <= i < 3
    requires PlanesDone(image, before, i)
    requires PlaneReadable(image, i) && PlaneCopied(image, after, i)
    requires Unchanged(before, after, OutputOffset(i, LumaSize(image)), OutputStride(i), PlaneCount(image, i))
    ensures PlanesDone(image, after, i + 1)
  {
    forall p | 0 <= p < i
      ensures PlaneCopied(image, after, p)
    {
      KeepPlane(image, before, after, p, i);
    }
  }

  /** An array of the right size with all three planes done has the NV21 layout. */
  lemma AllPlanesDone(image: ImageProxy, s: seq<bv8>)
    requires image.Valid() && image.format == YUV_420_888 && |s| == DataSize(image)
    requires PlanesDone(image, s, 3)
    ensures ReadsInBounds(image) && IsNv21(image, s) && s == Nv21(image)
  {
    forall j | ChromaEnd(image) <= j < |s|
      ensures s[j] == 0
    {
      TailUnwritten(image, j);
    }
    Nv21Unique(image, s);
  }

  /** yuv420toNV21: allocates the zeroed output array and a scratch row as
      long as plane 0's row stride, then copies the planes in order, Y
      packed from 0, U every other byte from `width * height + 1`, V every
      other byte from `width * height`. A buffer exception in any plane
      ends it; otherwise the result has the NV21 layout and so is the
      byte-by-byte array Nv21. */
  method Yuv420ToNv21(image: ImageProxy) returns (r: Outcome<seq<bv8>>)
    requires image.Valid() && image.format == YUV_420_888
    ensures r.Returned? <==> ReadsInBounds(image)
    ensures r.Thrown? ==> r.exception == BufferAccess
    ensures r.Returned? ==> IsNv21(image, r.value) && r.value == Nv21(image)
  {
    var crop := image.cropRect;
    var width := crop.Width();
    var height := crop.Height();
    var planes := image.planes;
    // DataSize(image) is `width * height * getBitsPerPixel(format) / 8`
    var data := new bv8[DataSize(image)](_ => 0);
    var rowData := new bv8[planes[0].rowStride](_ => 0);
    var channelOffset: nat := 0;
    var outputStride := 1;
    for i := 0 to |planes|
      invariant PlanesDone(image, data[..], i)
    {
      if i == 0 {
        channelOffset, outputStride := 0, 1;
      } else if i == 1 {
        channelOffset, outputStride := width * height + 1, 2;
      } else {
        channelOffset, outputStride := width * height, 2;
      }
      ghost var before := data[..];
      var ok := ReadPlane(image, i, data, rowData, channelOffset, outputStride);
      if !ok {
        return Thrown(BufferAccess);
      }
      PlaneDone(image, before, data[..], i);
    }
    AllPlanesDone(image, data[..]);
    return Returned(data[..]);
  }
}

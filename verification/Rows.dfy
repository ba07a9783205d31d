/** Copying rows of bytes between buffers whose rows are a pitch apart: the
    memcpy loops of src/context/sync.c and src/objects/texture.c. */
module Rows {
  import opened Arithmetic
  import opened ContextState

  /** Where rows start: `base`, and then every `pitch` bytes. */
  datatype Span = Span(base: nat, pitch: nat)

  /** The first `n` bytes of each of `rows` rows lie inside `length` bytes. The
      last row needs no padding. */
  predicate RowsFit(length: nat, at: Span, rows: nat, n: nat) {
    && 0 < n <= at.pitch
    && (0 < rows ==> at.base + (rows - 1) * at.pitch + n <= length)
  }

  lemma RowFits(length: nat, at: Span, rows: nat, n: nat, row: nat)
    requires RowsFit(length, at, rows, n) && row < rows
    ensures at.base + row * at.pitch + n <= length
  {
    MulMonotone(row, rows - 1, at.pitch);
  }

  /** Byte `k` lies in one of the rows. */
  predicate InRow(k: nat, at: Span, rows: nat, n: nat)
    requires 0 < at.pitch
  {
    at.base <= k && (k - at.base) / at.pitch < rows && (k - at.base) % at.pitch < n
  }

  /** The byte of `src` that goes to byte `k` of the destination. */
  function Source(src: seq<byte>, from: Span, to: Span, rows: nat, n: nat, k: nat): byte
    requires RowsFit(|src|, from, rows, n) && 0 < to.pitch && InRow(k, to, rows, n)
  {
    RowFits(|src|, from, rows, n, (k - to.base) / to.pitch);
    src[from.base + (k - to.base) / to.pitch * from.pitch + (k - to.base) % to.pitch]
  }

  /** `dst` with the rows of `src` put over its own rows. */
  function RowsPut(dst: seq<byte>, to: Span, src: seq<byte>, from: Span, rows: nat, n: nat): (r: seq<byte>)
    requires RowsFit(|dst|, to, rows, n) && RowsFit(|src|, from, rows, n)
    ensures |r| == |dst|
  {
    seq(|dst|, k requires 0 <= k < |dst| => if InRow(k, to, rows, n) then Source(src, from, to, rows, n, k) else dst[k])
  }

  /** memcpy. */
  method CopyBytes(dst: array<byte>, to: nat, src: array<byte>, from: nat, n: nat)
    requires to + n <= dst.Length && from + n <= src.Length && dst != src
    modifies dst
    ensures forall k :: 0 <= k < dst.Length ==>
              dst[k] == if to <= k < to + n then src[from + (k - to)] else old(dst[k])
  {
    var i := 0;
    while i < n
      invariant i <= n
      invariant forall k :: 0 <= k < dst.Length ==>
                  dst[k] == if to <= k < to + i then src[from + (k - to)] else old(dst[k])
    {
      dst[to + i] := src[from + i];
      i := i + 1;
    }
  }

  lemma RowIs(k: nat, at: Span, row: nat, n: nat)
    requires 0 < n <= at.pitch && at.base <= k
    ensures (k - at.base) / at.pitch == row && (k - at.base) % at.pitch < n
       <==> at.base + row * at.pitch <= k < at.base + row * at.pitch + n
    ensures at.base + row * at.pitch <= k < at.base + row * at.pitch + n ==>
              (k - at.base) % at.pitch == k - at.base - row * at.pitch
  {
    var j := k - at.base;
    DivMod(j, at.pitch);
    if row * at.pitch <= j < row * at.pitch + n {
      QuotientIs(j, at.pitch, row, j - row * at.pitch);
    }
  }

  method CopyRows(dst: array<byte>, to: Span, src: array<byte>, from: Span, rows: nat, n: nat)
    requires RowsFit(dst.Length, to, rows, n) && RowsFit(src.Length, from, rows, n) && dst != src
    modifies dst
    ensures dst[..] == RowsPut(old(dst[..]), to, src[..], from, rows, n)
  {
    hide RowsPut;
    ghost var was := dst[..];
    var row := 0;
    FewerRowsFit(dst.Length, to, rows, n, 0);
    FewerRowsFit(src.Length, from, rows, n, 0);
    NoRows(was, to, src[..], from, n);
    while row < rows
      invariant row <= rows
      invariant RowsFit(dst.Length, to, row, n) && RowsFit(src.Length, from, row, n)
      invariant dst[..] == RowsPut(was, to, src[..], from, row, n)
    {
      FewerRowsFit(dst.Length, to, rows, n, row + 1);
      FewerRowsFit(src.Length, from, rows, n, row + 1);
      ghost var before := dst[..];
      CopyBytes(dst, to.base + row * to.pitch, src, from.base + row * from.pitch, n);
      OneMoreRow(was, to, src[..], from, row, n, before, dst[..]);
      row := row + 1;
    }
  }

  lemma FewerRowsFit(length: nat, at: Span, rows: nat, n: nat, fewer: nat)
    requires RowsFit(length, at, rows, n) && fewer <= rows
    ensures RowsFit(length, at, fewer, n)
    ensures 0 < fewer ==> at.base + (fewer - 1) * at.pitch + n <= length
  {
    if 0 < fewer {
      RowFits(length, at, rows, n, fewer - 1);
    }
  }

  lemma NoRows(dst: seq<byte>, to: Span, src: seq<byte>, from: Span, n: nat)
    requires RowsFit(|dst|, to, 0, n) && RowsFit(|src|, from, 0, n)
    ensures RowsPut(dst, to, src, from, 0, n) == dst
  {
    hide Source;
    forall k | 0 <= k < |dst|
      ensures !InRow(k, to, 0, n)
    {
      if to.base <= k {
        DivMod(k - to.base, to.pitch);
      }
    }
  }

  lemma OneMoreRow(dst: seq<byte>, to: Span, src: seq<byte>, from: Span, row: nat, n: nat, d: seq<byte>, d': seq<byte>)
    requires RowsFit(|dst|, to, row + 1, n) && RowsFit(|src|, from, row + 1, n)
    requires RowsFit(|dst|, to, row, n) && RowsFit(|src|, from, row, n)
    requires d == RowsPut(dst, to, src, from, row, n) && |d'| == |dst|
    requires forall k :: 0 <= k < |d'| ==>
               d'[k] == if to.base + row * to.pitch <= k < to.base + row * to.pitch + n
                        then src[from.base + row * from.pitch + (k - (to.base + row * to.pitch))] else d[k]
    ensures d' == RowsPut(dst, to, src, from, row + 1, n)
  {
    forall k | 0 <= k < |dst|
      ensures d'[k] == RowsPut(dst, to, src, from, row + 1, n)[k]
    {
      if to.base <= k {
        RowIs(k, to, row, n);
      }
    }
  }
}

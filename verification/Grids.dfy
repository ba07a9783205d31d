/** Images held in byte buffers: `w` by `h` cells of `n` bytes, row by row. */
module Grids {
  import opened Arithmetic
  import opened ContextState

  /** Piece `p` of a buffer cut into pieces of `n` bytes. */
  function Piece(bytes: seq<byte>, n: nat, p: nat): (r: seq<byte>)
    requires (p + 1) * n <= |bytes|
    ensures |r| == n
  {
    PieceFits(n, p);
    bytes[p * n..p * n + n]
  }

  lemma PieceFits(n: nat, p: nat)
    ensures 0 <= p * n && p * n + n == (p + 1) * n
  {
  }

  lemma PiecesApart(a: nat, b: nat, n: nat)
    requires a != b
    ensures (a + 1) * n <= b * n || (b + 1) * n <= a * n
  {
    MulMonotone(a + 1, b, n);
    MulMonotone(b + 1, a, n);
  }

  lemma CellFits(w: nat, h: nat, n: nat, x: nat, y: nat)
    requires x < w && y < h
    ensures 0 <= y * w + x && (y * w + x + 1) * n <= w * h * n
  {
    MulMonotone(y + 1, h, w);
    MulMonotone(y * w + x + 1, w * h, n);
  }

  /** The cell at column `x` and row `y`. */
  function Cell(bytes: seq<byte>, n: nat, w: nat, h: nat, x: nat, y: nat): (r: seq<byte>)
    requires |bytes| == w * h * n && x < w && y < h
    ensures |r| == n
  {
    CellFits(w, h, n, x, y);
    Piece(bytes, n, y * w + x)
  }

  lemma CellsApart(w: nat, x: nat, y: nat, x': nat, y': nat)
    requires x < w && x' < w && (x, y) != (x', y')
    ensures y * w + x != y' * w + x'
  {
    RowAndColumn(y, w, x);
    RowAndColumn(y', w, x');
  }

  /** `after` is `before` with one cell replaced. */
  ghost predicate CellPut(before: seq<byte>, after: seq<byte>, n: nat, w: nat, h: nat, x: nat, y: nat, cell: seq<byte>)
    requires |before| == w * h * n && x < w && y < h
  {
    && |after| == |before|
    && forall x', y' :: 0 <= x' < w && 0 <= y' < h ==>
         Cell(after, n, w, h, x', y') == if x' == x && y' == y then cell else Cell(before, n, w, h, x', y')
  }

  /** memcpy of one cell. */
  method WriteCell(dst: array<byte>, n: nat, w: nat, h: nat, x: nat, y: nat, cell: seq<byte>)
    requires dst.Length == w * h * n && x < w && y < h && |cell| == n
    modifies dst
    ensures CellPut(old(dst[..]), dst[..], n, w, h, x, y, cell)
  {
    CellFits(w, h, n, x, y);
    var at := y * w + x;
    PieceFits(n, at);
    var i := 0;
    while i < n
      invariant 0 <= i <= n
      invariant forall k :: 0 <= k < i ==> dst[at * n + k] == cell[k]
      invariant forall k :: 0 <= k < dst.Length && !(at * n <= k < at * n + n) ==> dst[k] == old(dst[k])
    {
      dst[at * n + i] := cell[i];
      i := i + 1;
    }
    forall x', y' | 0 <= x' < w && 0 <= y' < h
      ensures Cell(dst[..], n, w, h, x', y') == if x' == x && y' == y then cell else Cell(old(dst[..]), n, w, h, x', y')
    {
      CellFits(w, h, n, x', y');
      PieceFits(n, y' * w + x');
      if x' != x || y' != y {
        CellsApart(w, x, y, x', y');
        PiecesApart(at, y' * w + x', n);
      }
    }
  }

  /** An image with one cell replaced. */
  function PutCell(bytes: seq<byte>, n: nat, w: nat, h: nat, x: nat, y: nat, cell: seq<byte>): (r: seq<byte>)
    requires |bytes| == w * h * n && x < w && y < h && |cell| == n
    ensures CellPut(bytes, r, n, w, h, x, y, cell)
  {
    CellFits(w, h, n, x, y);
    PieceFits(n, y * w + x);
    var at := (y * w + x) * n;
    var r := bytes[..at] + cell + bytes[at + n..];
    PutCellIs(bytes, r, n, w, h, x, y, cell);
    r
  }

  lemma SpliceReads(bytes: seq<byte>, at: nat, cell: seq<byte>, from: nat)
    requires at + |cell| <= |bytes| && from + |cell| <= |bytes|
    requires from + |cell| <= at || at + |cell| <= from || from == at
    ensures var r := bytes[..at] + cell + bytes[at + |cell|..];
            r[from..from + |cell|] == if from == at then cell else bytes[from..from + |cell|]
  {
  }

  lemma PutCellIs(bytes: seq<byte>, r: seq<byte>, n: nat, w: nat, h: nat, x: nat, y: nat, cell: seq<byte>)
    requires |bytes| == w * h * n && x < w && y < h && |cell| == n
    requires 0 <= (y * w + x) * n && (y * w + x) * n + n <= |bytes|
    requires r == bytes[..(y * w + x) * n] + cell + bytes[(y * w + x) * n + n..]
    ensures CellPut(bytes, r, n, w, h, x, y, cell)
  {
    forall x', y' | 0 <= x' < w && 0 <= y' < h
      ensures Cell(r, n, w, h, x', y') == if x' == x && y' == y then cell else Cell(bytes, n, w, h, x', y')
    {
      PutOther(bytes, r, n, w, h, x, y, cell, x', y');
    }
  }

  lemma PutOther(bytes: seq<byte>, r: seq<byte>, n: nat, w: nat, h: nat, x: nat, y: nat, cell: seq<byte>, x': nat, y': nat)
    requires |bytes| == w * h * n && x < w && y < h && |cell| == n && x' < w && y' < h
    requires 0 <= (y * w + x) * n && (y * w + x) * n + n <= |bytes|
    requires r == bytes[..(y * w + x) * n] + cell + bytes[(y * w + x) * n + n..]
    ensures |r| == |bytes|
    ensures Cell(r, n, w, h, x', y') == if x' == x && y' == y then cell else Cell(bytes, n, w, h, x', y')
  {
    CellFits(w, h, n, x', y');
    var p, p' := y * w + x, y' * w + x';
    PieceFits(n, p');
    if x' != x || y' != y {
      CellsApart(w, x, y, x', y');
      PiecesApart(p, p', n);
      PieceFits(n, p);
    }
    SpliceReads(bytes, p * n, cell, p' * n);
  }
}

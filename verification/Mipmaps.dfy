/** glGenerateMipmap in src/objects/texture.c: the levels it makes, what their
    texels are, and what it leaves of the ledger. */
module Mipmaps {
  import opened Limits
  import opened StagingBlocks
  import opened Arithmetic
  import opened ContextState
  import opened ContextLedger
  import opened PackedColor
  import opened Grids
  import opened TextureFormats
  import opened MipFilter
  import opened TextureStorage

  // ------------------------------------------------------------- one texel

  /** How the filter sees a texel. */
  datatype Kind = Bytes4 | Words(f: PackedFormat) | Floats(texel: nat)

  function KindOf(format: nat, componentType: nat): Kind {
    if IsPacked(format) then Words(PackedOf(format))
    else if IsFloat(componentType) then Floats(if componentType == FLOAT_TYPE then 16 else 8)
    else Bytes4
  }

  function KindBytes(kind: Kind): nat {
    match kind case Bytes4 => 4 case Words(_) => 2 case Floats(n) => n
  }

  function Field(c: Fields, k: nat): nat {
    if k == 0 then c.r else if k == 1 then c.g else if k == 2 then c.b else c.a
  }

  /** A normalized component of a stored texel. */
  function Component(kind: Kind, texel: seq<byte>, c: nat): nat
    requires !kind.Floats? && |texel| == KindBytes(kind) && c < 4
  {
    match kind
    case Bytes4 => texel[c]
    case Words(f) => Field(Split(f, Word(texel, 0)), c)
  }

  function BoxByte(a: byte, b: byte, c: byte, d: byte): byte { Box(a, b, c, d) }

  function BoxFields(f: PackedFormat, a: Fields, b: Fields, c: Fields, d: Fields): (r: Fields)
    requires Fits(f, a) && Fits(f, b) && Fits(f, c) && Fits(f, d)
    ensures Fits(f, r)
  {
    Fields(Box(a.r, b.r, c.r, d.r), Box(a.g, b.g, c.g, d.g), Box(a.b, b.b, c.b, d.b), Box(a.a, b.a, c.a, d.a))
  }

  /** The filtered texel. For packed formats the averages fit their fields again,
      so packing them loses nothing. */
  function BoxTexel(kind: Kind, a: seq<byte>, b: seq<byte>, c: seq<byte>, d: seq<byte>): (r: seq<byte>)
    requires !kind.Floats?
    requires |a| == KindBytes(kind) && |b| == KindBytes(kind) && |c| == KindBytes(kind) && |d| == KindBytes(kind)
    ensures |r| == KindBytes(kind)
  {
    match kind
    case Bytes4 =>
      [BoxByte(a[0], b[0], c[0], d[0]), BoxByte(a[1], b[1], c[1], d[1]), BoxByte(a[2], b[2], c[2], d[2]), BoxByte(a[3], b[3], c[3], d[3])]
    case Words(f) =>
      SplitsFit(f, a, b, c, d);
      var fields := BoxFields(f, Split(f, Word(a, 0)), Split(f, Word(b, 0)), Split(f, Word(c, 0)), Split(f, Word(d, 0)));
      SplitInvertsJoin(f, fields);
      var word := Join(f, fields);
      [word % 256, word / 256]
  }

  lemma SplitsFit(f: PackedFormat, a: seq<byte>, b: seq<byte>, c: seq<byte>, d: seq<byte>)
    requires |a| == 2 && |b| == 2 && |c| == 2 && |d| == 2
    ensures Fits(f, Split(f, Word(a, 0))) && Fits(f, Split(f, Word(b, 0)))
    ensures Fits(f, Split(f, Word(c, 0))) && Fits(f, Split(f, Word(d, 0)))
  {
    hide Split;
    JoinInvertsSplit(f, Word(a, 0));
    JoinInvertsSplit(f, Word(b, 0));
    JoinInvertsSplit(f, Word(c, 0));
    JoinInvertsSplit(f, Word(d, 0));
  }

  /** Componentwise, the filtered texel is the box average of the four. */
  lemma BoxComponent(kind: Kind, a: seq<byte>, b: seq<byte>, c: seq<byte>, d: seq<byte>, k: nat)
    requires !kind.Floats? && k < 4
    requires |a| == KindBytes(kind) && |b| == KindBytes(kind) && |c| == KindBytes(kind) && |d| == KindBytes(kind)
    ensures Component(kind, BoxTexel(kind, a, b, c, d), k)
         == Box(Component(kind, a, k), Component(kind, b, k), Component(kind, c, k), Component(kind, d, k))
  {
    match kind {
      case Bytes4 =>
      case Words(f) =>
        SplitsFit(f, a, b, c, d);
        var fields := BoxFields(f, Split(f, Word(a, 0)), Split(f, Word(b, 0)), Split(f, Word(c, 0)), Split(f, Word(d, 0)));
        SplitInvertsJoin(f, fields);
        var word := Join(f, fields);
        assert Word([word % 256, word / 256], 0) == word;
        OpaqueAlpha(f, Word(a, 0));
        OpaqueAlpha(f, Word(b, 0));
        OpaqueAlpha(f, Word(c, 0));
        OpaqueAlpha(f, Word(d, 0));
    }
  }

  lemma OpaqueAlpha(f: PackedFormat, word: nat)
    ensures f == Rgb565 ==> Split(f, word).a == 1
  {
  }

  // -------------------------------------------------------------- one level

  /** The texel at column `x` and row `y` of a level. */
  function TexelAt(kind: Kind, bytes: seq<byte>, w: nat, h: nat, x: nat, y: nat): (r: seq<byte>)
    requires |bytes| == w * h * KindBytes(kind) && x < w && y < h
    ensures |r| == KindBytes(kind)
  {
    Cell(bytes, KindBytes(kind), w, h, x, y)
  }

  lemma SourcesFit(sw: nat, sh: nat, x: nat, y: nat)
    requires 0 < sw && 0 < sh && x < Halve(sw) && y < Halve(sh)
    ensures 2 * x < sw && Second(x, sw) < sw && 2 * y < sh && Second(y, sh) < sh
  {
  }

  /** What the box filter makes of the source level at (x, y). */
  function Filtered(kind: Kind, src: seq<byte>, sw: nat, sh: nat, x: nat, y: nat): (r: seq<byte>)
    requires !kind.Floats? && 0 < sw && 0 < sh && |src| == sw * sh * KindBytes(kind) && x < Halve(sw) && y < Halve(sh)
    ensures |r| == KindBytes(kind)
  {
    SourcesFit(sw, sh, x, y);
    BoxTexel(kind, TexelAt(kind, src, sw, sh, 2 * x, 2 * y), TexelAt(kind, src, sw, sh, Second(x, sw), 2 * y),
             TexelAt(kind, src, sw, sh, 2 * x, Second(y, sh)), TexelAt(kind, src, sw, sh, Second(x, sw), Second(y, sh)))
  }

  /** A level is the filtered form of the level below it. */
  ghost predicate LevelFiltered(kind: Kind, src: seq<byte>, sw: nat, sh: nat, dst: seq<byte>)
    requires 0 < sw && 0 < sh && |src| == sw * sh * KindBytes(kind)
  {
    && |dst| == Halve(sw) * Halve(sh) * KindBytes(kind)
    && (kind.Floats? || forall x, y :: 0 <= x < Halve(sw) && 0 <= y < Halve(sh) ==>
          TexelAt(kind, dst, Halve(sw), Halve(sh), x, y) == Filtered(kind, src, sw, sh, x, y))
  }

  method FilterLevel(kind: Kind, src: seq<byte>, sw: nat, sh: nat, dst: array<byte>)
    requires 0 < sw && 0 < sh && |src| == sw * sh * KindBytes(kind)
    requires dst.Length == Halve(sw) * Halve(sh) * KindBytes(kind)
    modifies dst
    ensures LevelFiltered(kind, src, sw, sh, dst[..])
  {
    hide Filtered, Halve, KindBytes;
    var dw, dh, n := Halve(sw), Halve(sh), KindBytes(kind);
    var y := 0;
    while y < dh
      invariant 0 <= y <= dh
      invariant FilteredUpTo(kind, src, sw, sh, dst[..], 0, y)
    {
      var x := 0;
      while x < dw
        invariant 0 <= x <= dw
        invariant FilteredUpTo(kind, src, sw, sh, dst[..], x, y)
      {
        ghost var before := dst[..];
        if kind.Floats? {
          var texel: seq<byte> := *; // the float average rounds
          texel := Fit(texel, n);
          WriteCell(dst, n, dw, dh, x, y, texel);
        } else {
          var texel := Filtered(kind, src, sw, sh, x, y);
          WriteCell(dst, n, dw, dh, x, y, texel);
          OneMoreTexel(kind, src, sw, sh, before, dst[..], x, y);
        }
        x := x + 1;
      }
      y := y + 1;
    }
  }

  /** Rows above `y`, and row `y` up to column `x`, are done. */
  ghost predicate FilteredUpTo(kind: Kind, src: seq<byte>, sw: nat, sh: nat, dst: seq<byte>, x: nat, y: nat)
    requires 0 < sw && 0 < sh && |src| == sw * sh * KindBytes(kind)
    requires |dst| == Halve(sw) * Halve(sh) * KindBytes(kind)
  {
    kind.Floats? || forall x', y' :: 0 <= x' < Halve(sw) && 0 <= y' < Halve(sh) && (y' < y || (y' == y && x' < x)) ==>
      TexelAt(kind, dst, Halve(sw), Halve(sh), x', y') == Filtered(kind, src, sw, sh, x', y')
  }

  lemma OneMoreTexel(kind: Kind, src: seq<byte>, sw: nat, sh: nat, before: seq<byte>, after: seq<byte>, x: nat, y: nat)
    requires !kind.Floats? && 0 < sw && 0 < sh && |src| == sw * sh * KindBytes(kind)
    requires |before| == |after| == Halve(sw) * Halve(sh) * KindBytes(kind)
    requires x < Halve(sw) && y < Halve(sh) && FilteredUpTo(kind, src, sw, sh, before, x, y)
    requires CellPut(before, after, KindBytes(kind), Halve(sw), Halve(sh), x, y, Filtered(kind, src, sw, sh, x, y))
    ensures FilteredUpTo(kind, src, sw, sh, after, x + 1, y)
  {
    hide Filtered, Halve, KindBytes, Cell;
  }

  // -------------------------------------------------------------- the chain

  /** Level `level` is one generateMipmap made: exact size, filtered from below. */
  ghost predicate Generated(kind: Kind, base: seq<byte>, w: nat, h: nat, generated: seq<MipStorage>, level: nat)
    requires 0 < level <= |generated|
  {
    var m, below := generated[level - 1], StoredLevel(base, generated, level - 1);
    && m.width == DimAt(w, level) && m.height == DimAt(h, level) && m.defined && m.generated
    && 0 < DimAt(w, level - 1) && 0 < DimAt(h, level - 1)
    && |below| == DimAt(w, level - 1) * DimAt(h, level - 1) * KindBytes(kind)
    && LevelFiltered(kind, below, DimAt(w, level - 1), DimAt(h, level - 1), m.bytes)
  }

  ghost predicate Chain(kind: Kind, base: seq<byte>, w: nat, h: nat, generated: seq<MipStorage>, count: nat) {
    && 0 < w && 0 < h && |base| == w * h * KindBytes(kind)
    && 0 < count <= |generated| + 1
    && (forall level :: 0 < level < count ==> Generated(kind, base, w, h, generated, level))
    && (forall k :: count - 1 <= k < |generated| ==> generated[k] == NO_MIP)
  }

  /** One component of the base image. */
  function PlaneOf(kind: Kind, base: seq<byte>, w: nat, h: nat, c: nat): Plane
    requires !kind.Floats? && |base| == w * h * KindBytes(kind) && c < 4
  {
    (x: nat, y: nat) => if x < w && y < h then Component(kind, TexelAt(kind, base, w, h, x, y), c) else 0
  }

  /** Every component of every level of a chain is what repeated box filtering of
      the base gives. */
  lemma {:induction false} ChainIsLevel(kind: Kind, base: seq<byte>, w: nat, h: nat, generated: seq<MipStorage>, count: nat,
                                        level: nat, x: nat, y: nat, c: nat)
    requires !kind.Floats? && Chain(kind, base, w, h, generated, count) && level < count && c < 4
    requires x < DimAt(w, level) && y < DimAt(h, level)
    ensures |StoredLevel(base, generated, level)| == DimAt(w, level) * DimAt(h, level) * KindBytes(kind)
    ensures Component(kind, TexelAt(kind, StoredLevel(base, generated, level), DimAt(w, level), DimAt(h, level), x, y), c)
         == Level(PlaneOf(kind, base, w, h, c), w, h, level, x, y)
  {
    hide Component, Box, TexelAt, KindBytes, PlaneOf, Level, StoredLevel, Filtered, Second, Halve, DimAt, LevelFiltered;
    if level == 0 {
      BaseIsLevel(kind, base, w, h, generated, x, y, c);
    } else {
      var sw, sh, below := DimAt(w, level - 1), DimAt(h, level - 1), StoredLevel(base, generated, level - 1);
      GeneratedIs(kind, base, w, h, generated, level, x, y);
      var x1, y1 := Second(x, sw), Second(y, sh);
      ChainIsLevel(kind, base, w, h, generated, count, level - 1, 2 * x, 2 * y, c);
      ChainIsLevel(kind, base, w, h, generated, count, level - 1, x1, 2 * y, c);
      ChainIsLevel(kind, base, w, h, generated, count, level - 1, 2 * x, y1, c);
      ChainIsLevel(kind, base, w, h, generated, count, level - 1, x1, y1, c);
      FilteredComponent(kind, below, sw, sh, x, y, c);
      LevelUnfolds(PlaneOf(kind, base, w, h, c), w, h, level, x, y);
    }
  }

  lemma BaseIsLevel(kind: Kind, base: seq<byte>, w: nat, h: nat, generated: seq<MipStorage>, x: nat, y: nat, c: nat)
    requires !kind.Floats? && |base| == w * h * KindBytes(kind) && c < 4
    requires x < DimAt(w, 0) && y < DimAt(h, 0)
    ensures |StoredLevel(base, generated, 0)| == DimAt(w, 0) * DimAt(h, 0) * KindBytes(kind)
    ensures Component(kind, TexelAt(kind, StoredLevel(base, generated, 0), DimAt(w, 0), DimAt(h, 0), x, y), c)
         == Level(PlaneOf(kind, base, w, h, c), w, h, 0, x, y)
  {
    hide Component, TexelAt;
  }

  lemma GeneratedIs(kind: Kind, base: seq<byte>, w: nat, h: nat, generated: seq<MipStorage>, level: nat, x: nat, y: nat)
    requires !kind.Floats? && 0 < level <= |generated| && Generated(kind, base, w, h, generated, level)
    requires x < DimAt(w, level) && y < DimAt(h, level)
    ensures var sw, sh, below := DimAt(w, level - 1), DimAt(h, level - 1), StoredLevel(base, generated, level - 1);
            && DimAt(w, level) == Halve(sw) && DimAt(h, level) == Halve(sh) && 0 < sw && 0 < sh
            && 2 * x < sw && Second(x, sw) < sw && 2 * y < sh && Second(y, sh) < sh
            && |below| == sw * sh * KindBytes(kind)
            && |StoredLevel(base, generated, level)| == DimAt(w, level) * DimAt(h, level) * KindBytes(kind)
            && TexelAt(kind, StoredLevel(base, generated, level), DimAt(w, level), DimAt(h, level), x, y)
               == Filtered(kind, below, sw, sh, x, y)
  {
    hide TexelAt, Filtered, KindBytes;
    SourcesFit(DimAt(w, level - 1), DimAt(h, level - 1), x, y);
  }

  lemma FilteredComponent(kind: Kind, src: seq<byte>, sw: nat, sh: nat, x: nat, y: nat, c: nat)
    requires !kind.Floats? && 0 < sw && 0 < sh && |src| == sw * sh * KindBytes(kind)
    requires x < Halve(sw) && y < Halve(sh) && c < 4
    ensures 2 * x < sw && Second(x, sw) < sw && 2 * y < sh && Second(y, sh) < sh
    ensures Component(kind, Filtered(kind, src, sw, sh, x, y), c)
         == Box(Component(kind, TexelAt(kind, src, sw, sh, 2 * x, 2 * y), c),
                Component(kind, TexelAt(kind, src, sw, sh, Second(x, sw), 2 * y), c),
                Component(kind, TexelAt(kind, src, sw, sh, 2 * x, Second(y, sh)), c),
                Component(kind, TexelAt(kind, src, sw, sh, Second(x, sw), Second(y, sh)), c))
  {
    hide Component, BoxTexel, Box, TexelAt, KindBytes;
    SourcesFit(sw, sh, x, y);
    BoxComponent(kind, TexelAt(kind, src, sw, sh, 2 * x, 2 * y), TexelAt(kind, src, sw, sh, Second(x, sw), 2 * y),
                 TexelAt(kind, src, sw, sh, 2 * x, Second(y, sh)), TexelAt(kind, src, sw, sh, Second(x, sw), Second(y, sh)), c);
  }

  /** A stored component of level k of a power-of-two image is within k / 2 of the
      exact mean of the base components it covers. */
  lemma GeneratedNearMean(kind: Kind, base: seq<byte>, i: nat, j: nat, generated: seq<MipStorage>, count: nat,
                          level: nat, x: nat, y: nat, c: nat)
    requires !kind.Floats? && Chain(kind, base, Pow2(i), Pow2(j), generated, count) && level < count && c < 4
    requires InLevel(i, j, level, x, y)
    ensures var bytes := StoredLevel(base, generated, level);
            && |bytes| == DimAt(Pow2(i), level) * DimAt(Pow2(j), level) * KindBytes(kind)
            && var v := Component(kind, TexelAt(kind, bytes, DimAt(Pow2(i), level), DimAt(Pow2(j), level), x, y), c);
               Near(v, Area(i, j, level), Covered(PlaneOf(kind, base, Pow2(i), Pow2(j), c), i, j, level, x, y), level)
  {
    hide Near, Area, Covered, Component, Level;
    ChainIsLevel(kind, base, Pow2(i), Pow2(j), generated, count, level, x, y, c);
    LevelNearMean(PlaneOf(kind, base, Pow2(i), Pow2(j), c), i, j, level, x, y);
  }

  /** And it lies between the least and the greatest of them. */
  lemma GeneratedBetween(kind: Kind, base: seq<byte>, i: nat, j: nat, generated: seq<MipStorage>, count: nat,
                         level: nat, x: nat, y: nat, c: nat, low: nat, high: nat)
    requires !kind.Floats? && Chain(kind, base, Pow2(i), Pow2(j), generated, count) && level < count && c < 4
    requires InLevel(i, j, level, x, y)
    requires CoveredBetween(PlaneOf(kind, base, Pow2(i), Pow2(j), c), i, j, level, x, y, low, high)
    ensures var bytes := StoredLevel(base, generated, level);
            && |bytes| == DimAt(Pow2(i), level) * DimAt(Pow2(j), level) * KindBytes(kind)
            && low <= Component(kind, TexelAt(kind, bytes, DimAt(Pow2(i), level), DimAt(Pow2(j), level), x, y), c) <= high
  {
    hide CoveredBetween, Component, Level;
    ChainIsLevel(kind, base, Pow2(i), Pow2(j), generated, count, level, x, y, c);
    LevelBetween(PlaneOf(kind, base, Pow2(i), Pow2(j), c), i, j, level, x, y, low, high);
  }

  // ------------------------------------------------------------- generation

  lemma ExtendChain(kind: Kind, base: seq<byte>, w: nat, h: nat, generated: seq<MipStorage>, level: nat, m: MipStorage)
    requires Chain(kind, base, w, h, generated, level) && level <= |generated|
    requires Generated(kind, base, w, h, generated[level - 1 := m], level)
    ensures Chain(kind, base, w, h, generated[level - 1 := m], level + 1)
  {
    hide LevelFiltered, DimAt, KindBytes;
    var after := generated[level - 1 := m];
    forall l | 0 < l < level
      ensures Generated(kind, base, w, h, after, l)
    {
      assert Generated(kind, base, w, h, generated, l);
    }
  }

  lemma {:induction false} ChainSizes(kind: Kind, base: seq<byte>, w: nat, h: nat, generated: seq<MipStorage>, count: nat, level: nat)
    requires Chain(kind, base, w, h, generated, count) && level < count
    ensures |StoredLevel(base, generated, level)| == DimAt(w, level) * DimAt(h, level) * KindBytes(kind)
  {
    if level > 0 {
      assert Generated(kind, base, w, h, generated, level);
    }
  }

  /** texture_free_generated_mips. */
  method FreeGenerated(ctx: Context, generated: seq<MipStorage>)
    requires LedgerValid(ctx) && MipBytes(generated) <= Untracked(ctx)
    modifies ctx`active, ctx.process`globalBytes
    ensures LedgerValid(ctx) && Others(ctx) == old(Others(ctx))
    ensures Untracked(ctx) == old(Untracked(ctx)) - MipBytes(generated)
  {
    var rest := generated;
    var index := 0;
    while index < |generated|
      invariant index <= |generated| == |rest|
      invariant LedgerValid(ctx) && Others(ctx) == old(Others(ctx))
      invariant MipBytes(rest) <= Untracked(ctx) && Untracked(ctx) - MipBytes(rest) == old(Untracked(ctx)) - MipBytes(generated)
      invariant forall k :: 0 <= k < index ==> rest[k] == NO_MIP
    {
      MipBytesUpdate(rest, index, NO_MIP);
      ReleaseShadowBytes(ctx, |rest[index].bytes|);
      rest := rest[index := NO_MIP];
      index := index + 1;
    }
    NoMipBytes(rest);
  }

  lemma TexelBytesOfKind(format: nat, componentType: nat)
    requires FormatOk(format, componentType) && IsColor(format)
    ensures KindBytes(KindOf(format, componentType)) == TexelBytes(format, componentType)
  {
  }

  lemma DimAtZero(d: nat)
    ensures DimAt(d, 0) == d && Pow2(0) == 1
  {
  }

  /** One round of the loop: reserve, allocate and filter one level. */
  method MakeLevel(ctx: Context, sizeMax: nat, kind: Kind, source: seq<byte>, sw: nat, sh: nat) returns (ok: bool, m: MipStorage)
    requires LedgerValid(ctx) && 0 < sw && 0 < sh && |source| == sw * sh * KindBytes(kind)
    modifies ctx`active, ctx`cached, ctx`blocks, ctx.process
    ensures LedgerValid(ctx) && Others(ctx) == old(Others(ctx)) && 0 <= Untracked(ctx)
    ensures Untracked(ctx) == old(Untracked(ctx)) + if ok then |m.bytes| else 0
    ensures ok ==> m.width == Halve(sw) && m.height == Halve(sh) && m.defined && m.generated
    ensures ok ==> LevelFiltered(kind, source, sw, sh, m.bytes)
  {
    hide LevelFiltered;
    m := NO_MIP;
    var dw, dh := if sw > 1 then sw / 2 else 1, if sh > 1 then sh / 2 else 1;
    var size := dw * dh * KindBytes(kind);
    if size > sizeMax {
      return false, m;
    }
    var memory := AllocTemporary(ctx, size);
    if memory == 0 {
      return false, m;
    }
    var destination := new byte[size];
    FilterLevel(kind, source, sw, sh, destination);
    return true, MipStorage(destination[..], dw, dh, true, true);
  }

  /** texture_generate_color_mips: all levels, or none and no charge. */
  method GenerateColorMips(ctx: Context, sizeMax: nat, base: seq<byte>, w: nat, h: nat, format: nat, componentType: nat)
    returns (ok: bool, generated: seq<MipStorage>)
    requires LedgerValid(ctx) && IsColor(format) && FormatOk(format, componentType)
    requires 0 < w <= MAX_TEXTURE_SIZE && 0 < h <= MAX_TEXTURE_SIZE && |base| == w * h * TexelBytes(format, componentType)
    modifies ctx`active, ctx`cached, ctx`blocks, ctx.process
    ensures LedgerValid(ctx) && Others(ctx) == old(Others(ctx))
    ensures Untracked(ctx) == old(Untracked(ctx)) + if ok then MipBytes(generated) else 0
    ensures ok ==> |generated| == MIP_STORAGES && Chain(KindOf(format, componentType), base, w, h, generated, LevelCount(w, h))
  {
    assert 0 <= Untracked(ctx);
    TexelBytesOfKind(format, componentType);
    hide LevelFiltered, Generated, LedgerValid, Others, Untracked, DimAt, IsColor, KindOf, KindBytes, Halve;
    CountIsExact(w, h, 0);
    DimAtZero(w);
    DimAtZero(h);
    var kind := KindOf(format, componentType);
    var count := MipLevelCount(w, h);
    generated := NoMips();
    NoMipBytes(generated);
    var source, sw, sh := base, w, h;
    var level := 1;
    while level < count
      invariant 0 < level <= count <= MIP_STORAGES + 1 && |generated| == MIP_STORAGES
      invariant LedgerValid(ctx) && Others(ctx) == old(Others(ctx)) && 0 <= old(Untracked(ctx))
      invariant Untracked(ctx) == old(Untracked(ctx)) + MipBytes(generated)
      invariant Chain(kind, base, w, h, generated, level)
      invariant source == StoredLevel(base, generated, level - 1) && sw == DimAt(w, level - 1) && sh == DimAt(h, level - 1)
      invariant 0 < sw && 0 < sh && |source| == sw * sh * KindBytes(kind)
    {
      var m;
      ok, m := MakeLevel(ctx, sizeMax, kind, source, sw, sh);
      if !ok {
        FreeGenerated(ctx, generated);
        return false, NoMips();
      }
      MipBytesUpdate(generated, level - 1, m);
      LevelMade(kind, base, w, h, generated, level, m);
      ExtendChain(kind, base, w, h, generated, level, m);
      generated := generated[level - 1 := m];
      source, sw, sh := m.bytes, m.width, m.height;
      HalvesPositive(kind, base, w, h, generated, level);
      level := level + 1;
    }
    return true, generated;
  }

  lemma HalvesPositive(kind: Kind, base: seq<byte>, w: nat, h: nat, generated: seq<MipStorage>, level: nat)
    requires 0 < level <= |generated| && Generated(kind, base, w, h, generated, level)
    ensures 0 < DimAt(w, level) && 0 < DimAt(h, level)
    ensures |generated[level - 1].bytes| == DimAt(w, level) * DimAt(h, level) * KindBytes(kind)
  {
  }

  lemma LevelMade(kind: Kind, base: seq<byte>, w: nat, h: nat, generated: seq<MipStorage>, level: nat, m: MipStorage)
    requires 0 < level <= |generated| && 0 < DimAt(w, level - 1) && 0 < DimAt(h, level - 1)
    requires m.width == Halve(DimAt(w, level - 1)) && m.height == Halve(DimAt(h, level - 1)) && m.defined && m.generated
    requires |StoredLevel(base, generated, level - 1)| == DimAt(w, level - 1) * DimAt(h, level - 1) * KindBytes(kind)
    requires LevelFiltered(kind, StoredLevel(base, generated, level - 1), DimAt(w, level - 1), DimAt(h, level - 1), m.bytes)
    ensures Generated(kind, base, w, h, generated[level - 1 := m], level)
    ensures m.width == DimAt(w, level) && m.height == DimAt(h, level)
  {
    hide LevelFiltered;
    var after := generated[level - 1 := m];
    assert StoredLevel(base, after, level - 1) == StoredLevel(base, generated, level - 1);
  }

  lemma {:induction false} AreaGrowsAtTop(w: nat, h: nat, level: nat, count: nat)
    requires level <= count
    ensures AreaFrom(w, h, level, count + 1) == AreaFrom(w, h, level, count) + AreaAt(w, h, count)
    decreases count - level
  {
    if level < count {
      AreaGrowsAtTop(w, h, level + 1, count);
    }
  }

  lemma {:induction false} ChainBytes(kind: Kind, base: seq<byte>, w: nat, h: nat, generated: seq<MipStorage>, count: nat, n: nat)
    requires Chain(kind, base, w, h, generated, count) && n < count
    ensures MipBytes(generated[..n]) == AreaFrom(w, h, 1, n + 1) * KindBytes(kind)
  {
    if n > 0 {
      hide Chain, DimAt, KindBytes;
      ChainBytes(kind, base, w, h, generated, count, n - 1);
      ChainSizes(kind, base, w, h, generated, count, n);
      AreaGrowsAtTop(w, h, 1, n);
      assert generated[..n][..n - 1] == generated[..n - 1];
      Distribute(AreaFrom(w, h, 1, n), AreaAt(w, h, n), KindBytes(kind));
    }
  }

  lemma {:induction false} EmptyTail(generated: seq<MipStorage>, n: nat)
    requires n <= |generated| && forall k :: n <= k < |generated| ==> generated[k] == NO_MIP
    ensures MipBytes(generated) == MipBytes(generated[..n])
  {
    if n < |generated| {
      var last := |generated| - 1;
      EmptyTail(generated[..last], n);
      assert generated[..last][..n] == generated[..n];
    } else {
      assert generated[..n] == generated;
    }
  }

  /** All the levels a generation adds are fewer bytes than the base level. */
  lemma ChainAddsLessThanBase(kind: Kind, base: seq<byte>, w: nat, h: nat, generated: seq<MipStorage>)
    requires 0 < w <= MAX_TEXTURE_SIZE && 0 < h <= MAX_TEXTURE_SIZE && 0 < KindBytes(kind)
    requires Chain(kind, base, w, h, generated, LevelCount(w, h))
    ensures MipBytes(generated) < |base|
  {
    hide LevelFiltered, Generated, KindBytes, DimAt, AreaFrom;
    var count := LevelCount(w, h);
    DimAtZero(w);
    DimAtZero(h);
    CountIsExact(w, h, 0);
    ChainBytes(kind, base, w, h, generated, count, count - 1);
    EmptyTail(generated, count - 1);
    ChainIsSmaller(w, h, 0, count);
    ScaledBelow(AreaFrom(w, h, 1, count), w * h, KindBytes(kind));
  }

  lemma ScaledBelow(a: nat, b: nat, n: nat)
    requires a < b && 0 < n
    ensures a * n < b * n
  {
    MulMonotone(a + 1, b, n);
    Distribute(a, 1, n);
  }

  // ---------------------------------------------------------- completeness

  /** texture_dimension_is_power_of_two: what `d & (d - 1)` tests, bit by bit. */
  predicate PowerOfTwo(d: nat) {
    d == 1 || (0 < d && d % 2 == 0 && PowerOfTwo(d / 2))
  }

  /** What the sampled-count and completeness loops ask of a level. */
  predicate LevelSampled(t: TextureObject, level: nat)
    requires |t.mips| == MIP_STORAGES && 0 < level <= MIP_STORAGES
  {
    && LevelDefined(t, level)
    && t.mips[level - 1].width == DimAt(t.width, level) && t.mips[level - 1].height == DimAt(t.height, level)
  }

  /** ringl_texture_sampled_mip_count on a texture that is no cube map: the levels up
      to the first that does not fit. */
  method FlatMipCount(t: TextureObject) returns (count: nat)
    requires |t.mips| == MIP_STORAGES && t.width <= MAX_TEXTURE_SIZE && t.height <= MAX_TEXTURE_SIZE
    ensures count == 0 <==> !LevelDefined(t, 0)
    ensures 0 < count ==> count <= LevelCount(t.width, t.height) <= MIP_STORAGES + 1
    ensures forall level :: 0 < level < count ==> LevelSampled(t, level)
    ensures 0 < count < LevelCount(t.width, t.height) ==> !LevelSampled(t, count)
    ensures LevelDefined(t, 0) && AllLevelsSampled(t) ==> count == LevelCount(t.width, t.height)
  {
    if !LevelDefined(t, 0) {
      return 0;
    }
    CountIsExact(t.width, t.height, 0);
    DimAtZero(t.width);
    DimAtZero(t.height);
    var levelCount := MipLevelCount(t.width, t.height);
    count := 1;
    var level := 1;
    while level < levelCount
      invariant 0 < level == count <= levelCount
      invariant forall l :: 0 < l < level ==> LevelSampled(t, l)
    {
      var w := ExpectedDim(t.width, level);
      var h := ExpectedDim(t.height, level);
      if !LevelDefined(t, level) || t.mips[level - 1].width != w || t.mips[level - 1].height != h {
        break;
      }
      count := level + 1;
      level := level + 1;
    }
  }

  /** The mipmap loop of texture_level0_complete. */
  method MipsComplete(t: TextureObject) returns (complete: bool)
    requires |t.mips| == MIP_STORAGES && LevelDefined(t, 0) && t.width <= MAX_TEXTURE_SIZE && t.height <= MAX_TEXTURE_SIZE
    ensures complete <==> AllLevelsSampled(t)
  {
    CountIsExact(t.width, t.height, 0);
    DimAtZero(t.width);
    DimAtZero(t.height);
    var levelCount := MipLevelCount(t.width, t.height);
    var level := 1;
    while level < levelCount
      invariant 0 < level <= levelCount
      invariant forall l :: 0 < l < level ==> LevelSampled(t, l)
    {
      var w := ExpectedDim(t.width, level);
      var h := ExpectedDim(t.height, level);
      if !LevelDefined(t, level) || t.mips[level - 1].width != w || t.mips[level - 1].height != h {
        assert !LevelSampled(t, level);
        return false;
      }
      level := level + 1;
    }
    return true;
  }

  const NEAREST: nat := 0x2600
  const LINEAR: nat := 0x2601
  const NEAREST_MIPMAP_NEAREST: nat := 0x2700
  const CLAMP_TO_EDGE: nat := 0x812f

  /** The sampler state of a texture, and whether script has asked for the two linear
      filtering extensions. */
  datatype Sampling = Sampling(wrapS: nat, wrapT: nat, minFilter: nat, magFilter: nat, floatLinear: bool, halfLinear: bool)

  predicate UsesMips(s: Sampling) { s.minFilter != NEAREST && s.minFilter != LINEAR }

  /** The components are floats that may not be filtered linearly. */
  predicate NearestOnly(componentType: nat, compressedFormat: nat, srgb: bool, s: Sampling) {
    || (componentType == FLOAT_TYPE && compressedFormat == 0 && !srgb && !s.floatLinear)
    || (componentType == HALF_FLOAT && !s.halfLinear)
  }

  predicate FiltersNearest(s: Sampling) {
    s.magFilter == NEAREST && (s.minFilter == NEAREST || s.minFilter == NEAREST_MIPMAP_NEAREST)
  }

  /** When a 2D texture can be sampled: it has a base; its sides are powers of two,
      unless it is clamped and uses no mipmaps; float components are filtered by
      nearest unless script has the extension; and every level is there if mipmaps
      are used. */
  ghost predicate Sampleable(t: TextureObject, s: Sampling)
    requires |t.mips| == MIP_STORAGES
  {
    && LevelDefined(t, 0)
    && ((PowerOfTwo(t.width) && PowerOfTwo(t.height))
        || (s.wrapS == CLAMP_TO_EDGE && s.wrapT == CLAMP_TO_EDGE && !UsesMips(s)))
    && (NearestOnly(t.componentType, t.compressedFormat, t.srgb, s) ==> FiltersNearest(s))
    && (UsesMips(s) ==> AllLevelsSampled(t))
  }

  /** texture_level0_complete. */
  method Level0Complete(t: TextureObject, s: Sampling) returns (complete: bool)
    requires |t.mips| == MIP_STORAGES && t.width <= MAX_TEXTURE_SIZE && t.height <= MAX_TEXTURE_SIZE
    ensures complete <==> Sampleable(t, s)
  {
    hide PowerOfTwo, LevelSampled;
    if !LevelDefined(t, 0) {
      return false;
    }
    if (!PowerOfTwo(t.width) || !PowerOfTwo(t.height)) && (s.wrapS != CLAMP_TO_EDGE || s.wrapT != CLAMP_TO_EDGE || UsesMips(s)) {
      return false;
    }
    if NearestOnly(t.componentType, t.compressedFormat, t.srgb, s) && !FiltersNearest(s) {
      return false;
    }
    if !UsesMips(s) {
      return true;
    }
    complete := MipsComplete(t);
  }

  ghost predicate AllLevelsSampled(t: TextureObject)
    requires |t.mips| == MIP_STORAGES
  {
    LevelCount(t.width, t.height) <= MIP_STORAGES + 1
    && forall level :: 0 < level < LevelCount(t.width, t.height) ==> LevelSampled(t, level)
  }

  /** A generated chain satisfies both loops: every level is sampled. */
  lemma GeneratedIsComplete(kind: Kind, t: TextureObject, level: nat)
    requires |t.mips| == MIP_STORAGES && 0 < KindBytes(kind)
    requires Chain(kind, t.bytes, t.width, t.height, t.mips, LevelCount(t.width, t.height))
    requires 0 < level < LevelCount(t.width, t.height)
    ensures LevelSampled(t, level)
  {
    hide LevelFiltered, KindBytes;
    assert Generated(kind, t.bytes, t.width, t.height, t.mips, level);
    ChainSizes(kind, t.bytes, t.width, t.height, t.mips, LevelCount(t.width, t.height), level);
    DimPositive(t.width, level);
    DimPositive(t.height, level);
    MulMonotone(1, DimAt(t.width, level), DimAt(t.height, level));
    MulMonotone(1, DimAt(t.width, level) * DimAt(t.height, level), KindBytes(kind));
  }

  // ------------------------------------------------------------------ the call

  /** So the bounds above cover every image the call accepts. */
  lemma {:induction false} PowerOfTwoIs(d: nat) returns (i: nat)
    requires PowerOfTwo(d)
    ensures d == Pow2(i)
  {
    if d == 1 {
      i := 0;
    } else {
      i := PowerOfTwoIs(d / 2);
      i := i + 1;
    }
  }

  lemma GeneratedSized(kind: Kind, t: TextureObject, generated: seq<MipStorage>, count: nat)
    requires Sized(t) && Chain(kind, t.bytes, t.width, t.height, generated, count)
    requires KindBytes(kind) == TexelBytes(t.format, t.componentType)
    ensures Sized(t.(mips := generated))
  {
    hide LevelFiltered, KindBytes, DimAt, TexelBytes;
    forall k | 0 <= k < |generated|
      ensures LevelSized(generated[k].bytes, generated[k].width, generated[k].height, generated[k].defined, KindBytes(kind))
    {
      if k + 1 < count {
        assert Generated(kind, t.bytes, t.width, t.height, generated, k + 1);
        ChainSizes(kind, t.bytes, t.width, t.height, generated, count, k + 1);
      }
    }
  }

  lemma SizedFormat(t: TextureObject)
    requires Sized(t)
    ensures FormatOk(t.format, t.componentType)
  {
  }

  lemma MipsOwned(t: TextureObject, mips: seq<MipStorage>)
    ensures OwnedBytes(t.(mips := mips)) == OwnedBytes(t) - MipBytes(t.mips) + MipBytes(mips)
  {
  }

  /** What glGenerateMipmap on the 2D target checks before it allocates. `mipOps`
      says whether the backend has the mip operations. */
  predicate Generatable(t: TextureObject, mipOps: bool)
    requires |t.mips| == MIP_STORAGES
  {
    && LevelDefined(t, 0) && IsColor(t.format) && t.compressedFormat == 0 && !t.srgb
    && PowerOfTwo(t.width) && PowerOfTwo(t.height)
    && (LevelCount(t.width, t.height) > 1 ==> mipOps)
  }

  /** glGenerateMipmap(GL_TEXTURE_2D). On success the chain is complete and
      filtered from the base; on failure neither the texture nor the charge changes. */
  method GenerateMipmap2D(ctx: Context, sizeMax: nat, mipOps: bool)
    requires TexturesValid(ctx)
    modifies ctx`active, ctx`cached, ctx`blocks, ctx`textures, ctx`pendingError, ctx.process, ctx.backend
    ensures StorageFrame(ctx)
    ensures Discarded(old(ctx.backend.objects), ctx.backend.objects, old(ctx.textures), ctx.textures, Bound2D(ctx))
    ensures var k := Bound2D(ctx);
            if k == OBJECT_SLOT_COUNT || !Generatable(old(ctx.textures)[k], mipOps) then
              && ctx.textures == old(ctx.textures) && ctx.active == old(ctx.active)
              && ctx.pendingError == Context.Pending(old(ctx.pendingError), InvalidOperation)
            else
              || (&& ctx.textures == old(ctx.textures) && Untracked(ctx) == old(Untracked(ctx))
                  && ctx.pendingError == Context.Pending(old(ctx.pendingError), OutOfMemory))
              || (&& ctx.pendingError == old(ctx.pendingError)
                  && Installed(old(ctx.textures)[k], ctx.textures[k])
                  && ctx.textures == old(ctx.textures)[k := ctx.textures[k]])
  {
    hide Sized, LedgerValid, Chain, Generatable, LevelCount, IsColor, FormatOk, KindOf, TexelBytes, OwnedBytes;
    var k := Bound2D(ctx);
    if k == OBJECT_SLOT_COUNT || !Generatable(ctx.textures[k], mipOps) {
      ctx.RecordError(InvalidOperation);
      return;
    }
    var t := ctx.textures[k];
    GeneratableIs(t, mipOps);
    var ok, generated := GenerateColorMips(ctx, sizeMax, t.bytes, t.width, t.height, t.format, t.componentType);
    if !ok {
      ctx.RecordError(OutOfMemory);
      return;
    }
    InstallMips(ctx, k, generated);
  }

  lemma GeneratableIs(t: TextureObject, mipOps: bool)
    requires |t.mips| == MIP_STORAGES && Generatable(t, mipOps) && Sized(t)
    ensures IsColor(t.format) && FormatOk(t.format, t.componentType)
    ensures 0 < t.width <= MAX_TEXTURE_SIZE && 0 < t.height <= MAX_TEXTURE_SIZE
    ensures |t.bytes| == t.width * t.height * TexelBytes(t.format, t.componentType)
  {
  }

  /** The texture as it was, with no GPU image and the generated chain. */
  ghost predicate Installed(before: TextureObject, after: TextureObject) {
    && after == before.(image := 0, mips := after.mips) && |after.mips| == MIP_STORAGES
    && Chain(KindOf(before.format, before.componentType), before.bytes, before.width, before.height, after.mips,
             LevelCount(before.width, before.height))
  }

  /** The old levels are released and the charged new ones take their place. */
  method InstallMips(ctx: Context, k: nat, generated: seq<MipStorage>)
    requires IsTexture(ctx, k) && |generated| == MIP_STORAGES && IsColor(ctx.textures[k].format)
    requires var t := ctx.textures[k];
             Chain(KindOf(t.format, t.componentType), t.bytes, t.width, t.height, generated, LevelCount(t.width, t.height))
    requires MipBytes(generated) <= Surplus(ctx)
    modifies ctx`active, ctx`textures, ctx.process`globalBytes, ctx.backend
    ensures TexturesValid(ctx) && Others(ctx) == old(Others(ctx))
    ensures Discarded(old(ctx.backend.objects), ctx.backend.objects, old(ctx.textures), ctx.textures, k)
    ensures Surplus(ctx) == old(Surplus(ctx)) - MipBytes(generated)
    ensures ctx.textures == old(ctx.textures)[k := old(ctx.textures)[k].(image := 0, mips := generated)]
  {
    hide Sized, OwnedBytes, LedgerValid, Chain, LevelFiltered, Surplus, IsColor, FormatOk, KindOf, TexelBytes, KindBytes;
    SizedFormat(ctx.textures[k]);
    TexelBytesOfKind(ctx.textures[k].format, ctx.textures[k].componentType);
    DiscardImage(ctx, k);
    DropMipsFrom(ctx, k, 1);
    var t := ctx.textures[k];
    NoMipBytes(t.mips);
    GeneratedSized(KindOf(t.format, t.componentType), t, generated, LevelCount(t.width, t.height));
    MipsOwned(t, generated);
    Assign(ctx, k, t.(mips := generated), 0);
  }

  /** What glGenerateMipmap on the 2D target leaves can be sampled in full, with any
      filter and wrap mode the components allow. */
  lemma GeneratedIsSampleable(before: TextureObject, after: TextureObject, mipOps: bool, s: Sampling)
    requires |before.mips| == MIP_STORAGES && Generatable(before, mipOps) && Sized(before) && Installed(before, after)
    ensures LevelDefined(after, 0) && AllLevelsSampled(after)
    ensures Sampleable(after, s)
            <==> (NearestOnly(after.componentType, after.compressedFormat, after.srgb, s) ==> FiltersNearest(s))
  {
    hide PowerOfTwo, LevelSampled, Chain, NearestOnly, FiltersNearest, Sized;
    GeneratableIs(before, mipOps);
    CountIsExact(before.width, before.height, 0);
    DimAtZero(before.width);
    DimAtZero(before.height);
    ChainIgnoresImage(before, after);
    forall level | 0 < level < LevelCount(after.width, after.height)
      ensures LevelSampled(after, level)
    {
      GeneratedIsComplete(KindOf(before.format, before.componentType), after, level);
    }
  }

  lemma ChainIgnoresImage(before: TextureObject, after: TextureObject)
    requires Installed(before, after)
    ensures 0 < KindBytes(KindOf(before.format, before.componentType))
    ensures Chain(KindOf(before.format, before.componentType), after.bytes, after.width, after.height, after.mips,
                  LevelCount(after.width, after.height))
  {
    hide Chain, LevelCount;
  }
}

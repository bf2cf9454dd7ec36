/**
 * The software compositor: an RGBA pixel buffer stored row-major in an
 * array, with fill, solid rectangles, a ball stencil, horizontal lines and a
 * clipped, alpha-blended block transfer from another buffer.
 *
 * Every drawing method is proved against a function on the buffer's
 * contents (`PaintSpec`, `BlitSpec`); lemmas then say which cells those
 * functions change and to what.
 */
module Images {
  import opened Types

  // ---------------------------------------------------------------------
  // Linear indices
  // ---------------------------------------------------------------------

  /** The row-major linear index of column `x` of row `y` in rows of width `w`. */
  function Lin(w: int, y: int, x: int): int { y * w + x }

  lemma MulLe(a: int, b: int, c: int)
    requires a <= b && 0 <= c
    ensures a * c <= b * c
  {
    assert (b - a) * c >= 0;
  }

  /** A cell inside a w-by-h grid has a linear index inside [0, w*h). */
  lemma LinBound(w: int, h: int, y: int, x: int)
    requires 0 <= y < h && 0 <= x < w
    ensures 0 <= Lin(w, y, x) < w * h
  {
    MulLe(0, y, w);
    MulLe(y + 1, h, w);
  }

  /** Division and remainder by the row width recover row and column. */
  lemma LinDivMod(w: int, y: int, x: int)
    requires 0 <= x < w
    ensures Lin(w, y, x) / w == y && Lin(w, y, x) % w == x
  {
    var i := Lin(w, y, x);
    var q, r := i / w, i % w;
    assert i == q * w + r;
    if q > y {
      MulLe(y + 1, q, w);
      assert false;
    } else if q < y {
      MulLe(q + 1, y, w);
      assert false;
    }
  }

  /** Every index is the linear index of its quotient row and remainder column. */
  lemma DivModLin(w: int, i: int)
    requires w > 0
    ensures Lin(w, i / w, i % w) == i && 0 <= i % w < w
  {
  }

  /** Counting modulo `w`: the successor of `j` wraps to 0 exactly when `j` is the last residue. */
  lemma ModSucc(w: int, j: int)
    requires w > 0
    ensures 0 <= j % w < w
    ensures (j + 1) % w == if j % w + 1 == w then 0 else j % w + 1
  {
    var q, r := j / w, j % w;
    DivModLin(w, j);
    if r + 1 == w {
      LinNextRow(w, q);
      LinDivMod(w, q + 1, 0);
    } else {
      LinDivMod(w, q, r + 1);
    }
  }

  /** One past the end of row `y` is the start of row `y + 1`. */
  lemma LinNextRow(w: int, y: int)
    ensures Lin(w, y, w) == Lin(w, y + 1, 0)
  {
    assert (y + 1) * w == y * w + w;
  }

  // ---------------------------------------------------------------------
  // Blending
  // ---------------------------------------------------------------------

  /** `n / 255` rounded to the nearest integer, halves away from zero. */
  function RoundDiv255(n: nat): nat { (2 * n + 255) / 510 }

  /** The conversion of a float to `u8`, which saturates at both ends. */
  function Sat(n: int): byte { if n < 0 then 0 else if n > 255 then 255 else n }

  /**
   * One colour channel of a blit: the source channel plus the destination
   * channel scaled by one minus the source alpha, added with saturation.
   */
  function Channel(s: byte, d: byte, sa: byte): byte
  {
    Sat(s + Sat(RoundDiv255(d * (255 - sa))))
  }

  /**
   * The blend of source pixel `s` over destination pixel `d`: colour channels
   * as `Channel`, alpha `fa + ta * (1 - fa)` rescaled to 0..255.
   * Computed in exact rational arithmetic.
   */
  function Blend(d: Color, s: Color): Color
  {
    Color(Channel(s.r, d.r, s.a), Channel(s.g, d.g, s.a), Channel(s.b, d.b, s.a),
          Sat(s.a + RoundDiv255(d.a * (255 - s.a))))
  }

  /** An opaque source pixel replaces the destination channels and makes it opaque. */
  lemma BlendOpaque(d: Color, s: Color)
    requires s.a == 255
    ensures Blend(d, s) == Color(s.r, s.g, s.b, 255)
  {
  }

  /** The all-zero source pixel leaves the destination as it was. */
  lemma BlendZeroPixel(d: Color)
    ensures Blend(d, Color(0, 0, 0, 0)) == d
  {
    assert RoundDiv255(d.r * 255) == d.r;
    assert RoundDiv255(d.g * 255) == d.g;
    assert RoundDiv255(d.b * 255) == d.b;
    assert RoundDiv255(d.a * 255) == d.a;
  }

  // ---------------------------------------------------------------------
  // Painting rectangles of cells with one colour
  // ---------------------------------------------------------------------

  type Bit = x: int | 0 <= x <= 1

  /** The 8x8 stencil of `draw_ball`, row-major. */
  const Ball: seq<Bit> := [
    0, 0, 1, 1, 1, 1, 0, 0,
    0, 1, 1, 1, 1, 1, 1, 0,
    1, 1, 1, 1, 1, 1, 1, 1,
    1, 1, 1, 1, 1, 1, 1, 1,
    1, 1, 1, 1, 1, 1, 1, 1,
    1, 1, 1, 1, 1, 1, 1, 1,
    0, 1, 1, 1, 1, 1, 1, 0,
    0, 0, 1, 1, 1, 1, 0, 0
  ]

  function BallAt(k: int): int { if 0 <= k < |Ball| then Ball[k] else 0 }

  /** What decides whether a visited cell is painted. */
  datatype Brush =
    | Solid                                  // draw_rect: every visited cell
    | Stencil                                // draw_ball: non-negative column and stencil bit set

  /** The stencil counter `coli` when cell (x, y) of `rect` is visited: cells visited before it. */
  function StencilIndex(rect: Rect, y: int, x: int): int
  {
    Lin(rect.sz.x, y - rect.pos.y, x - rect.pos.x)
  }

  predicate Paints(brush: Brush, rect: Rect, y: int, x: int)
  {
    match brush
    case Solid => true
    case Stencil => x >= 0 && BallAt(StencilIndex(rect, y, x)) > 0
  }

  /** `b` with cell `i` set to `c` when `i` indexes `b`, and unchanged otherwise. */
  function PutIf(b: seq<Color>, i: int, c: Color): (r: seq<Color>)
    ensures |r| == |b|
  {
    if 0 <= i < |b| then b[i := c] else b
  }

  /** Row `y` painted from column `x0` up to (not including) column `x`. */
  function PaintRow(b: seq<Color>, w: int, brush: Brush, rect: Rect, c: Color, y: int, x0: int, x: int): (r: seq<Color>)
    ensures |r| == |b|
    decreases x - x0
  {
    if x <= x0 then b
    else
      var prev := PaintRow(b, w, brush, rect, c, y, x0, x - 1);
      if Paints(brush, rect, y, x - 1) then PutIf(prev, Lin(w, y, x - 1), c) else prev
  }

  /** The rows of `rect` from its top up to (not including) row `y`, painted in order. */
  function PaintRows(b: seq<Color>, w: int, brush: Brush, rect: Rect, c: Color, y: int): (r: seq<Color>)
    ensures |r| == |b|
    decreases y - rect.pos.y
  {
    if y <= rect.pos.y then b
    else PaintRow(PaintRows(b, w, brush, rect, c, y - 1), w, brush, rect, c, y - 1, rect.pos.x, rect.pos.x + rect.sz.x)
  }

  /** The buffer after every cell of `rect` has been visited in row-major order. */
  function PaintSpec(b: seq<Color>, w: int, brush: Brush, rect: Rect, c: Color): seq<Color>
  {
    PaintRows(b, w, brush, rect, c, rect.pos.y + rect.sz.y)
  }

  /** Some cell (x, y) in rows [y0, y1) and columns [x0, x1) that the brush paints has linear index `i`. */
  ghost predicate Covered(w: int, brush: Brush, rect: Rect, y0: int, y1: int, x0: int, x1: int, i: int)
  {
    exists y, x :: y0 <= y < y1 && x0 <= x < x1 && Lin(w, y, x) == i && Paints(brush, rect, y, x)
  }

  lemma {:induction false} PaintRowCells(b: seq<Color>, w: int, brush: Brush, rect: Rect, c: Color, y: int, x0: int, x: int, i: int)
    requires 0 <= i < |b|
    ensures PaintRow(b, w, brush, rect, c, y, x0, x)[i] == if Covered(w, brush, rect, y, y + 1, x0, x, i) then c else b[i]
    decreases x - x0
  {
    if x > x0 {
      PaintRowCells(b, w, brush, rect, c, y, x0, x - 1, i);
      if Covered(w, brush, rect, y, y + 1, x0, x, i) {
        var yy, xx :| y <= yy < y + 1 && x0 <= xx < x && Lin(w, yy, xx) == i && Paints(brush, rect, yy, xx);
        if xx < x - 1 {
          assert Covered(w, brush, rect, y, y + 1, x0, x - 1, i);
        }
      }
    }
  }

  lemma {:induction false} PaintRowsCells(b: seq<Color>, w: int, brush: Brush, rect: Rect, c: Color, y: int, i: int)
    requires 0 <= i < |b|
    ensures PaintRows(b, w, brush, rect, c, y)[i]
            == if Covered(w, brush, rect, rect.pos.y, y, rect.pos.x, rect.pos.x + rect.sz.x, i) then c else b[i]
    decreases y - rect.pos.y
  {
    var x0, x1 := rect.pos.x, rect.pos.x + rect.sz.x;
    if y > rect.pos.y {
      var prev := PaintRows(b, w, brush, rect, c, y - 1);
      PaintRowsCells(b, w, brush, rect, c, y - 1, i);
      PaintRowCells(prev, w, brush, rect, c, y - 1, x0, x1, i);
      var all := Covered(w, brush, rect, rect.pos.y, y, x0, x1, i);
      var before := Covered(w, brush, rect, rect.pos.y, y - 1, x0, x1, i);
      var last := Covered(w, brush, rect, y - 1, y, x0, x1, i);
      if all {
        var yy, xx :| rect.pos.y <= yy < y && x0 <= xx < x1 && Lin(w, yy, xx) == i && Paints(brush, rect, yy, xx);
        if yy < y - 1 { assert before; } else { assert last; }
      }
      if before {
        var yy, xx :| rect.pos.y <= yy < y - 1 && x0 <= xx < x1 && Lin(w, yy, xx) == i && Paints(brush, rect, yy, xx);
        assert all;
      }
      if last {
        var yy, xx :| y - 1 <= yy < y && x0 <= xx < x1 && Lin(w, yy, xx) == i && Paints(brush, rect, yy, xx);
        assert all;
      }
    }
  }

  /**
   * Painting a rectangle changes exactly the buffer cells whose linear index
   * `y*w + x` belongs to a painted cell (x, y) of the rectangle, and gives them
   * colour `c`; every other cell keeps its value. The bound is on the linear
   * index only: a column outside [0, w) wraps onto a neighbouring row.
   */
  lemma PaintSpecCells(b: seq<Color>, w: int, brush: Brush, rect: Rect, c: Color)
    ensures |PaintSpec(b, w, brush, rect, c)| == |b|
    ensures forall i :: 0 <= i < |b| ==>
              PaintSpec(b, w, brush, rect, c)[i]
              == if Covered(w, brush, rect, rect.pos.y, rect.pos.y + rect.sz.y, rect.pos.x, rect.pos.x + rect.sz.x, i)
                 then c else b[i]
  {
    forall i | 0 <= i < |b|
      ensures PaintSpec(b, w, brush, rect, c)[i]
              == if Covered(w, brush, rect, rect.pos.y, rect.pos.y + rect.sz.y, rect.pos.x, rect.pos.x + rect.sz.x, i)
                 then c else b[i]
    {
      PaintRowsCells(b, w, brush, rect, c, rect.pos.y + rect.sz.y, i);
    }
  }

  /** `draw_ball` paints with the red and green of its colour, no blue, opaque. */
  function BallColor(c: Color): Color { Color(c.r, c.g, 0, 255) }

  /**
   * The visits of `draw_ball` that the source guards with the stencil lookup
   * (linear index below w*h and a non-negative column) stay inside the
   * 64-entry stencil, and a painted one has a non-negative linear index.
   */
  ghost predicate BallSafe(w: int, h: int, rect: Rect)
  {
    forall y, x {:trigger Lin(w, y, x)} ::
      rect.pos.y <= y < rect.pos.y + rect.sz.y && rect.pos.x <= x < rect.pos.x + rect.sz.x
      && Lin(w, y, x) < w * h && x >= 0
      ==> StencilIndex(rect, y, x) < |Ball| && (Ball[StencilIndex(rect, y, x)] > 0 ==> Lin(w, y, x) >= 0)
  }

  /**
   * One visit of `draw_ball`: the source's guard (linear index below w*h,
   * non-negative column, stencil bit set) paints exactly when `Paints` does,
   * and then at an index inside the buffer.
   */
  lemma BallCell(b: seq<Color>, w: int, h: int, rect: Rect, c: Color, y: int, x: int)
    requires w >= 0 && |b| == w * h && BallSafe(w, h, rect)
    requires rect.pos.y <= y < rect.pos.y + rect.sz.y && rect.pos.x <= x < rect.pos.x + rect.sz.x
    ensures Lin(w, y, x) < w * h && x >= 0 ==> 0 <= StencilIndex(rect, y, x) < |Ball|
    ensures (if Paints(Stencil, rect, y, x) then PutIf(b, Lin(w, y, x), c) else b)
            == if Lin(w, y, x) < w * h && x >= 0 && Ball[StencilIndex(rect, y, x)] > 0 then b[Lin(w, y, x) := c] else b
  {
    MulLe(0, y - rect.pos.y, rect.sz.x);
  }

  // ---------------------------------------------------------------------
  // Block transfer
  // ---------------------------------------------------------------------

  /** The placement test after which `bitblt` returns without touching anything. */
  predicate OffScreen(dsz: Vec2i, from: Rect, to: Vec2i)
  {
    to.x + from.sz.x < 0 || dsz.x <= to.x || to.y + from.sz.y < 0 || dsz.y <= to.y
  }

  function Max(a: int, b: int): int { if a >= b then a else b }
  function Min(a: int, b: int): int { if a <= b then a else b }

  /** Destination cell (col, row) lies in the clipped placement of `from` at `to`. */
  predicate InClip(dsz: Vec2i, from: Rect, to: Vec2i, row: int, col: int)
  {
    Max(to.y, 0) <= row < Min(to.y + from.sz.y, dsz.y) && Max(to.x, 0) <= col < Min(to.x + from.sz.x, dsz.x)
  }

  /** A source buffer of `ssz` whose rectangle `from` is inside its bounds. */
  predicate SourceOk(sb: seq<Color>, ssz: Vec2i, from: Rect)
  {
    ssz.x >= 0 && ssz.y >= 0 && |sb| == ssz.x * ssz.y && from.sz.x >= 0 && from.sz.y >= 0
    && Contains(Rect(Vec2i(0, 0), ssz), from)
  }

  /** The source pixel that lands on destination cell (col, row). */
  function SrcPixel(sb: seq<Color>, ssz: Vec2i, from: Rect, to: Vec2i, row: int, col: int): Color
    requires SourceOk(sb, ssz, from)
    requires to.y <= row < to.y + from.sz.y && to.x <= col < to.x + from.sz.x
  {
    LinBound(ssz.x, ssz.y, from.pos.y + row - to.y, from.pos.x + col - to.x);
    sb[Lin(ssz.x, from.pos.y + row - to.y, from.pos.x + col - to.x)]
  }

  /**
   * The destination buffer after `bitblt`: each cell in the clipped placement
   * is the blend of its old value with the corresponding source pixel; every
   * other cell is unchanged.
   */
  function BlitSpec(db: seq<Color>, dsz: Vec2i, sb: seq<Color>, ssz: Vec2i, from: Rect, to: Vec2i): (r: seq<Color>)
    requires SourceOk(sb, ssz, from)
    ensures |r| == |db|
  {
    seq(|db|, i requires 0 <= i < |db| =>
      if dsz.x > 0 && InClip(dsz, from, to, i / dsz.x, i % dsz.x)
      then Blend(db[i], SrcPixel(sb, ssz, from, to, i / dsz.x, i % dsz.x))
      else db[i])
  }

  /** An off-screen placement leaves the destination unchanged. */
  lemma BlitOffScreenNoop(db: seq<Color>, dsz: Vec2i, sb: seq<Color>, ssz: Vec2i, from: Rect, to: Vec2i)
    requires SourceOk(sb, ssz, from) && dsz.x >= 0 && dsz.y >= 0 && |db| == dsz.x * dsz.y
    requires OffScreen(dsz, from, to)
    ensures BlitSpec(db, dsz, sb, ssz, from, to) == db
  {
    var r := BlitSpec(db, dsz, sb, ssz, from, to);
    forall i | 0 <= i < |db| ensures r[i] == db[i] {
      if dsz.x > 0 && InClip(dsz, from, to, i / dsz.x, i % dsz.x) {
        DivModLin(dsz.x, i);
        var row := i / dsz.x;
        if row >= dsz.y {
          MulLe(dsz.y, row, dsz.x);
          assert false;
        }
        assert false;
      }
    }
  }

  /**
   * A blit only changes destination cells in rows [max(to.y, 0), min(to.y + h, H))
   * and columns [max(to.x, 0), min(to.x + w, W)), and every pixel it reads lies in
   * `from`: the changed cell (col, row) reads source pixel
   * (from.pos.x + col - to.x, from.pos.y + row - to.y) of `from`.
   */
  lemma BlitFootprint(db: seq<Color>, dsz: Vec2i, sb: seq<Color>, ssz: Vec2i, from: Rect, to: Vec2i, i: int)
    requires SourceOk(sb, ssz, from) && dsz.x > 0 && 0 <= i < |db|
    ensures !InClip(dsz, from, to, i / dsz.x, i % dsz.x) ==> BlitSpec(db, dsz, sb, ssz, from, to)[i] == db[i]
    ensures InClip(dsz, from, to, i / dsz.x, i % dsz.x) ==>
              && BlitSpec(db, dsz, sb, ssz, from, to)[i]
                 == Blend(db[i], SrcPixel(sb, ssz, from, to, i / dsz.x, i % dsz.x))
              && from.pos.x <= from.pos.x + i % dsz.x - to.x < from.pos.x + from.sz.x
              && from.pos.y <= from.pos.y + i / dsz.x - to.y < from.pos.y + from.sz.y
  {
    var row, col := i / dsz.x, i % dsz.x;
    var r := BlitSpec(db, dsz, sb, ssz, from, to);
    assert r[i] == if InClip(dsz, from, to, row, col) then Blend(db[i], SrcPixel(sb, ssz, from, to, row, col)) else db[i];
  }

  /**
   * The clipping arithmetic of `bitblt`: when the placement is not off-screen,
   * the skips and counts satisfy every bound the source asserts in debug
   * builds, and the rows and columns they select are exactly the clip window.
   */
  lemma BlitClipBounds(dsz: Vec2i, ssz: Vec2i, from: Rect, to: Vec2i)
    requires dsz.x >= 0 && dsz.y >= 0
    requires from.sz.x >= 0 && from.sz.y >= 0 && Contains(Rect(Vec2i(0, 0), ssz), from)
    requires !OffScreen(dsz, from, to)
    ensures var xSkip, ySkip := Max(to.x, 0) - to.x, Max(to.y, 0) - to.y;
            var xCount, yCount := Min(to.x + from.sz.x, dsz.x) - to.x, Min(to.y + from.sz.y, dsz.y) - to.y;
            && 0 <= xSkip <= xCount <= from.sz.x && 0 <= ySkip <= yCount <= from.sz.y
            && 0 <= to.x + xSkip && 0 <= to.y + ySkip
            && 0 <= from.pos.x + xSkip && 0 <= from.pos.y + ySkip
            && to.x + xCount <= dsz.x && to.y + yCount <= dsz.y
            && from.pos.x + xCount <= ssz.x && from.pos.y + yCount <= ssz.y
  {
  }

  /** What `bitblt` demands of its source and placement before it writes anything. */
  predicate BlitPre(sb: seq<Color>, ssz: Vec2i, dsz: Vec2i, from: Rect, to: Vec2i)
  {
    ssz.x >= 0 && ssz.y >= 0 && |sb| == ssz.x * ssz.y && Contains(Rect(Vec2i(0, 0), ssz), from)
    && (!OffScreen(dsz, from, to) ==> from.sz.x >= 0 && from.sz.y >= 0 && ssz.x > 0 && dsz.x > 0)
  }

  /** The destination after one `bitblt`: unchanged when off-screen, otherwise `BlitSpec`. */
  function BlitResult(db: seq<Color>, dsz: Vec2i, sb: seq<Color>, ssz: Vec2i, from: Rect, to: Vec2i): (r: seq<Color>)
    requires BlitPre(sb, ssz, dsz, from, to)
    ensures |r| == |db|
  {
    if OffScreen(dsz, from, to) then db else BlitSpec(db, dsz, sb, ssz, from, to)
  }

  /** One block transfer: the source rectangle and the destination corner. */
  datatype Blit = Blit(from: Rect, to: Vec2i)

  /** The destination after the blits `calls` from one source, in order. */
  function ApplyBlits(db: seq<Color>, dsz: Vec2i, sb: seq<Color>, ssz: Vec2i, calls: seq<Blit>): (r: seq<Color>)
    requires forall k :: 0 <= k < |calls| ==> BlitPre(sb, ssz, dsz, calls[k].from, calls[k].to)
    ensures |r| == |db|
  {
    if calls == [] then db
    else
      var last := calls[|calls| - 1];
      BlitResult(ApplyBlits(db, dsz, sb, ssz, calls[..|calls| - 1]), dsz, sb, ssz, last.from, last.to)
  }

  /** Applying one more blit composes `BlitResult` onto the blits so far. */
  lemma ApplyBlitsSnoc(db: seq<Color>, dsz: Vec2i, sb: seq<Color>, ssz: Vec2i, calls: seq<Blit>, k: nat)
    requires forall j :: 0 <= j < |calls| ==> BlitPre(sb, ssz, dsz, calls[j].from, calls[j].to)
    requires k < |calls|
    ensures ApplyBlits(db, dsz, sb, ssz, calls[..k + 1])
            == BlitResult(ApplyBlits(db, dsz, sb, ssz, calls[..k]), dsz, sb, ssz, calls[k].from, calls[k].to)
  {
    assert calls[..k + 1][..k] == calls[..k];
  }

  // ---------------------------------------------------------------------
  // The pixel buffer
  // ---------------------------------------------------------------------

  class Image {
    const sz: Vec2i
    const buffer: array<Color>

    /** The buffer holds exactly width * height pixels. */
    ghost predicate Valid()
    {
      sz.x >= 0 && sz.y >= 0 && buffer.Length == sz.x * sz.y
    }

    /** A width-by-height image, every pixel opaque black. */
    constructor (size: Vec2i)
      requires size.x >= 0 && size.y >= 0
      ensures Valid() && sz == size && fresh(buffer)
      ensures forall i :: 0 <= i < buffer.Length ==> buffer[i] == Color(0, 0, 0, 255)
    {
      sz := size;
      buffer := new Color[size.x * size.y](_ => Color(0, 0, 0, 255));
    }

    /** Every pixel becomes `c`. */
    method Clear(c: Color)
      modifies buffer
      ensures forall i :: 0 <= i < buffer.Length ==> buffer[i] == c
    {
      var i := 0;
      while i < buffer.Length
        invariant 0 <= i <= buffer.Length
        invariant forall k :: 0 <= k < i ==> buffer[k] == c
      {
        buffer[i] := c;
        i := i + 1;
      }
    }

    /** Visit the cells of `rect` row by row and overwrite with `color` those at a linear index inside the buffer. */
    method DrawRect(rect: Rect, color: Color)
      requires Valid()
      modifies buffer
      ensures buffer[..] == PaintSpec(old(buffer[..]), sz.x, Solid, rect, color)
    {
      ghost var b0 := buffer[..];
      var y := rect.pos.y;
      while y < rect.pos.y + rect.sz.y
        invariant rect.pos.y <= y && (y <= rect.pos.y + rect.sz.y || y == rect.pos.y)
        invariant buffer[..] == PaintRows(b0, sz.x, Solid, rect, color, y)
      {
        ghost var rowStart := buffer[..];
        var x := rect.pos.x;
        while x < rect.pos.x + rect.sz.x
          invariant rect.pos.x <= x && (x <= rect.pos.x + rect.sz.x || x == rect.pos.x)
          invariant buffer[..] == PaintRow(rowStart, sz.x, Solid, rect, color, y, rect.pos.x, x)
        {
          var idx := y * sz.x + x;
          if idx < sz.x * sz.y && idx >= 0 {
            buffer[idx] := color;
          }
          x := x + 1;
        }
        y := y + 1;
      }
    }

    /**
     * Visit the cells of `rect` row by row with the stencil counter and, where
     * the linear index is below w*h, the column is non-negative and the stencil
     * bit is set, write the ball colour.
     */
    method DrawBall(rect: Rect, color: Color)
      requires Valid() && BallSafe(sz.x, sz.y, rect)
      modifies buffer
      ensures buffer[..] == PaintSpec(old(buffer[..]), sz.x, Stencil, rect, BallColor(color))
    {
      ghost var b0 := buffer[..];
      var coli := 0;
      var y := rect.pos.y;
      while y < rect.pos.y + rect.sz.y
        invariant rect.pos.y <= y && (y <= rect.pos.y + rect.sz.y || y == rect.pos.y)
        invariant coli == if rect.sz.x > 0 then Lin(rect.sz.x, y - rect.pos.y, 0) else 0
        invariant buffer[..] == PaintRows(b0, sz.x, Stencil, rect, BallColor(color), y)
      {
        coli := BallRow(rect, color, y, coli);
        assert rect.sz.x > 0 ==> coli == (y - rect.pos.y) * rect.sz.x + rect.sz.x == (y + 1 - rect.pos.y) * rect.sz.x;
        y := y + 1;
      }
    }

    /** One row of `draw_ball`: its cells left to right, the stencil counter advancing on every visit. */
    method BallRow(rect: Rect, color: Color, y: int, coli: int) returns (coli': int)
      requires Valid() && BallSafe(sz.x, sz.y, rect) && rect.pos.y <= y < rect.pos.y + rect.sz.y
      requires coli == if rect.sz.x > 0 then Lin(rect.sz.x, y - rect.pos.y, 0) else 0
      modifies buffer
      ensures buffer[..] == PaintRow(old(buffer[..]), sz.x, Stencil, rect, BallColor(color), y, rect.pos.x, rect.pos.x + rect.sz.x)
      ensures coli' == if rect.sz.x > 0 then coli + rect.sz.x else coli
    {
      coli' := coli;
      var x := rect.pos.x;
      while x < rect.pos.x + rect.sz.x
        invariant rect.pos.x <= x && (x <= rect.pos.x + rect.sz.x || x == rect.pos.x)
        invariant coli' == if rect.sz.x > 0 then StencilIndex(rect, y, x) else coli
        invariant buffer[..] == PaintRow(old(buffer[..]), sz.x, Stencil, rect, BallColor(color), y, rect.pos.x, x)
      {
        BallCell(buffer[..], sz.x, sz.y, rect, BallColor(color), y, x);
        var idx := y * sz.x + x;
        if idx < sz.x * sz.y && x >= 0 {
          if Ball[coli'] > 0 {
            buffer[idx] := Color(color.r * Ball[coli'], color.g * Ball[coli'], 0, 255);
          }
        }
        coli' := coli' + 1;
        x := x + 1;
      }
    }

    /** Fill row `y` from column `x0` up to, not including, column `x1`. */
    method HLine(x0: nat, x1: nat, y: nat, c: Color)
      requires Valid()
      requires y < sz.y && x0 <= x1 && x1 < sz.x
      modifies buffer
      ensures forall i :: 0 <= i < buffer.Length ==>
                buffer[i] == if Lin(sz.x, y, x0) <= i < Lin(sz.x, y, x1) then c else old(buffer[i])
    {
      LinBound(sz.x, sz.y, y, x1);
      var i := y * sz.x + x0;
      while i < y * sz.x + x1
        invariant Lin(sz.x, y, x0) <= i <= Lin(sz.x, y, x1)
        invariant forall k :: 0 <= k < buffer.Length ==>
                    buffer[k] == if Lin(sz.x, y, x0) <= k < i then c else old(buffer[k])
      {
        buffer[i] := c;
        i := i + 1;
      }
    }

    /**
     * Blend rectangle `from` of `src` onto this image with its top-left corner
     * at `to`, clipped to this image.
     */
    method Bitblt(src: Image, from: Rect, to: Vec2i)
      requires Valid() && src.Valid() && src.buffer != buffer
      requires Contains(Rect(Vec2i(0, 0), src.sz), from)
      requires !OffScreen(sz, from, to) ==> from.sz.x >= 0 && from.sz.y >= 0 && src.sz.x > 0 && sz.x > 0
      modifies buffer
      ensures BlitPre(src.buffer[..], src.sz, sz, from, to)
      ensures buffer[..] == BlitResult(old(buffer[..]), sz, src.buffer[..], src.sz, from, to)
    {
      var toX, toY := to.x, to.y;
      if toX + from.sz.x < 0 || sz.x <= toX || toY + from.sz.y < 0 || sz.y <= toY {
        return;
      }
      BlitClipBounds(sz, src.sz, from, to);
      var ySkip := Max(toY, 0) - toY;
      var xSkip := Max(toX, 0) - toX;
      var yCount := Min(toY + from.sz.y, sz.y) - toY;
      var xCount := Min(toX + from.sz.x, sz.x) - toX;
      ghost var db := buffer[..];
      ghost var sb := src.buffer[..];
      ghost var W := sz.x;
      var k := ySkip;
      while k < yCount
        invariant ySkip <= k <= yCount
        invariant src.buffer[..] == sb
        invariant forall i :: 0 <= i < buffer.Length ==>
                    buffer[i] == if Max(toY, 0) <= i / W < toY + k && InClip(sz, from, to, i / W, i % W)
                                 then Blend(db[i], SrcPixel(sb, src.sz, from, to, i / W, i % W)) else db[i]
      {
        BlitRow(src, from, to, k);
        k := k + 1;
      }
      assert buffer[..] == BlitSpec(db, sz, sb, src.sz, from, to);
    }

    /** Row `k` of the clipped window of `bitblt`: its columns blended left to right. */
    method BlitRow(src: Image, from: Rect, to: Vec2i, k: int)
      requires Valid() && src.Valid() && src.buffer != buffer && sz.x > 0
      requires from.sz.x >= 0 && from.sz.y >= 0 && Contains(Rect(Vec2i(0, 0), src.sz), from) && !OffScreen(sz, from, to)
      requires Max(to.y, 0) - to.y <= k < Min(to.y + from.sz.y, sz.y) - to.y
      modifies buffer
      ensures forall i :: 0 <= i < buffer.Length ==>
                buffer[i] == if i / sz.x == to.y + k && InClip(sz, from, to, i / sz.x, i % sz.x)
                             then Blend(old(buffer[i]), SrcPixel(src.buffer[..], src.sz, from, to, i / sz.x, i % sz.x))
                             else old(buffer[i])
    {
      BlitClipBounds(sz, src.sz, from, to);
      var toX, toY := to.x, to.y;
      var xSkip := Max(toX, 0) - toX;
      var xCount := Min(toX + from.sz.x, sz.x) - toX;
      ghost var db := buffer[..];
      ghost var sb := src.buffer[..];
      ghost var W := sz.x;
      var j := xSkip;
      while j < xCount
        invariant xSkip <= j <= xCount
        invariant forall i :: 0 <= i < buffer.Length ==>
                    buffer[i] == if i / W == toY + k && Max(toX, 0) <= i % W < toX + j
                                 then Blend(db[i], SrcPixel(sb, src.sz, from, to, i / W, i % W)) else db[i]
      {
        var di := (toY + k) * sz.x + (toX + j);
        var si := (from.pos.y + k) * src.sz.x + (from.pos.x + j);
        LinBound(sz.x, sz.y, toY + k, toX + j);
        LinBound(src.sz.x, src.sz.y, from.pos.y + k, from.pos.x + j);
        LinDivMod(sz.x, toY + k, toX + j);
        assert si == Lin(src.sz.x, from.pos.y + (toY + k) - toY, from.pos.x + (toX + j) - toX);
        buffer[di] := Blend(buffer[di], src.buffer[si]);
        forall i | 0 <= i < buffer.Length && i != di
          ensures !(i / W == toY + k && i % W == toX + j)
        {
          DivModLin(W, i);
        }
        j := j + 1;
      }
    }
  }
}

/**
 * The tile catalogue and the scrollable tile grid: which 8x8 rectangle of
 * the tile sheet shows a tile, which tile lies under a pixel, scrolling the
 * grid's origin and drawing the grid as a row-major sequence of blits.
 */
module Tiles {
  import opened Types
  import opened Images

  /** A graphical tile: only its solidity flag. */
  datatype Tile = Tile(solid: bool)

  /** An index into a tileset. */
  type TileID = nat

  /** Rust's `/` on signed integers by a positive divisor: rounds toward zero. */
  function TruncDiv(a: int, b: int): (q: int)
    requires b > 0
    ensures a >= 0 ==> 0 <= a - q * b < b
    ensures a < 0 ==> -b < a - q * b <= 0
  {
    if a >= 0 then a / b else -((-a) / b)
  }

  /** A set of tiles sharing one tile sheet. */
  class Tileset {
    const tiles: seq<Tile>
    const image: Image

    ghost predicate Valid()
    {
      image.Valid()
    }

    constructor (tiles: seq<Tile>, texture: Image)
      requires texture.Valid()
      ensures Valid() && this.tiles == tiles && image == texture
    {
      this.tiles := tiles;
      image := texture;
    }

    /** Tiles per sheet row. */
    function TilesPerRow(): nat
    {
      if image.sz.x < 0 then 0 else image.sz.x / TILE_SZ
    }

    /**
     * The sheet rectangle of tile `id`: tiles are numbered row-major over
     * the sheet, `TilesPerRow()` to a row, each 8x8 pixels.
     */
    function GetRect(id: TileID): (r: Rect)
      requires TilesPerRow() > 0
      ensures r.sz == Vec2i(TILE_SZ, TILE_SZ)
      ensures r.pos == Vec2i(TILE_SZ * (id % TilesPerRow()), TILE_SZ * (id / TilesPerRow()))
    {
      var tw := TilesPerRow();
      var row := id / tw;
      var col := id - row * tw;
      Rect(Vec2i(col * TILE_SZ, row * TILE_SZ), Vec2i(TILE_SZ, TILE_SZ))
    }

    /** The tile with index `id`. */
    function Index(id: TileID): (t: Tile)
      requires id < |tiles|
      ensures t in tiles && t == tiles[id]
    {
      tiles[id]
    }
  }

  /**
   * A tile's rectangle lies inside the sheet exactly when its index is below
   * the number of whole tiles in the sheet.
   */
  lemma GetRectInSheet(ts: Tileset, id: TileID)
    requires ts.TilesPerRow() > 0 && ts.image.sz.y >= 0
    ensures Contains(Rect(Vec2i(0, 0), ts.image.sz), ts.GetRect(id))
            <==> id < ts.TilesPerRow() * (ts.image.sz.y / TILE_SZ)
  {
    var tw, th := ts.TilesPerRow(), ts.image.sz.y / TILE_SZ;
    var row, col := id / tw, id % tw;
    assert id == row * tw + col;
    assert TILE_SZ * col + TILE_SZ <= TILE_SZ * tw <= ts.image.sz.x;
    if row < th {
      LinBound(tw, th, row, col);
    } else {
      MulLe(th, row, tw);
    }
  }

  /** A positioned, row-major grid of tile ids. */
  class Tilemap {
    /** Screen-space pixel position of the grid's top-left corner. */
    var position: Vec2i
    /** Width and height in tiles. */
    const dims: (nat, nat)
    const tileset: Tileset
    const grid: seq<TileID>

    ghost predicate Valid()
    {
      dims.0 * dims.1 == |grid|
    }

    /** The grid must hold exactly width * height ids; any other length is fatal. */
    constructor (position: Vec2i, dims: (nat, nat), tileset: Tileset, grid: seq<nat>)
      requires dims.0 * dims.1 == |grid|
      ensures Valid()
      ensures this.position == position && this.dims == dims && this.tileset == tileset && this.grid == grid
    {
      this.position := position;
      this.dims := dims;
      this.tileset := tileset;
      this.grid := grid;
    }

    /** Grid column and row of pixel `p`, with the source's signed division. */
    function Column(p: Vec2i): int reads this { TruncDiv(p.x - position.x, TILE_SZ) }
    function Row(p: Vec2i): int reads this { TruncDiv(p.y - position.y, TILE_SZ) }

    /** The lookup of `tile_id_at` does not fail: non-negative column and row and an in-range linear index. */
    predicate Locatable(p: Vec2i)
      reads this
    {
      0 <= Column(p) && 0 <= Row(p) && Lin(dims.0, Row(p), Column(p)) < |grid|
    }

    /** The corner of the tile under `p` and that tile's id. */
    function TileIdAt(p: Vec2i): (r: (Vec2i, TileID))
      reads this
      requires Locatable(p)
      ensures r.0 == Vec2i(TILE_SZ * Column(p) + position.x, TILE_SZ * Row(p) + position.y)
      ensures r.1 == grid[Row(p) * dims.0 + Column(p)]
    {
      var x := Column(p);
      var y := Row(p);
      (Vec2i(x * TILE_SZ + position.x, y * TILE_SZ + position.y), grid[y * dims.0 + x])
    }

    function Size(): (r: (nat, nat))
      ensures Valid() ==> r.0 * r.1 == |grid|
    {
      dims
    }

    /** The corner of the tile under `p` and the tile itself. */
    function TileAt(p: Vec2i): (r: (Vec2i, Tile))
      reads this
      requires Locatable(p) && TileIdAt(p).1 < |tileset.tiles|
      ensures r.0 == TileIdAt(p).0 && r.1 == tileset.tiles[TileIdAt(p).1]
    {
      var (pos, id) := TileIdAt(p);
      (pos, tileset.Index(id))
    }

    method Translate(delta: Vec2i)
      modifies this
      ensures position == Add(old(position), delta)
    {
      position := Add(position, delta);
    }

    method TranslateX(delta: int)
      modifies this
      ensures position == Vec2i(old(position).x + delta, old(position).y)
    {
      position := position.(x := position.x + delta);
    }

    method TranslateY(delta: int)
      modifies this
      ensures position == Vec2i(old(position).x, old(position).y + delta)
    {
      position := position.(y := position.y + delta);
    }

    /** Every tile of the grid has its rectangle inside the tile sheet. */
    ghost predicate TilesInSheet()
      reads this
    {
      tileset.TilesPerRow() > 0
      && forall k :: 0 <= k < |grid| ==> Contains(Rect(Vec2i(0, 0), tileset.image.sz), tileset.GetRect(grid[k]))
    }

    /** The blits of `draw`, in the order issued: tile k of the row-major grid at its pixel position. */
    function TileBlits(): (r: seq<Blit>)
      reads this
      requires dims.0 > 0 && tileset.TilesPerRow() > 0
      ensures |r| == |grid|
    {
      var w, pos := dims.0, position;
      seq(|grid|, k requires 0 <= k < |grid| =>
        Blit(tileset.GetRect(grid[k]), Vec2i(TILE_SZ * (k % w) + pos.x, TILE_SZ * (k / w) + pos.y)))
    }

    /** Draw every tile onto `screen`, row by row. */
    method Draw(screen: Image)
      requires Valid() && tileset.Valid() && screen.Valid() && TilesInSheet()
      requires dims.0 > 0 && screen.sz.x > 0 && screen.buffer != tileset.image.buffer
      modifies screen.buffer
      ensures forall k :: 0 <= k < |TileBlits()| ==>
                BlitPre(tileset.image.buffer[..], tileset.image.sz, screen.sz, TileBlits()[k].from, TileBlits()[k].to)
      ensures screen.buffer[..]
              == ApplyBlits(old(screen.buffer[..]), screen.sz, tileset.image.buffer[..], tileset.image.sz, TileBlits())
    {
      ghost var b0 := screen.buffer[..];
      ghost var sb := tileset.image.buffer[..];
      ghost var calls := TileBlits();
      TileBlitsPre(this, screen.sz);
      var w := dims.0;
      var h := |grid| / w;
      assert h == dims.1 by { assert |grid| == Lin(w, dims.1, 0); LinDivMod(w, dims.1, 0); }
      var y := 0;
      while y < h
        invariant 0 <= y <= h
        invariant tileset.image.buffer[..] == sb
        invariant screen.buffer[..] == ApplyBlits(b0, screen.sz, sb, tileset.image.sz, calls[..Lin(w, y, 0)])
      {
        DrawRow(screen, y, b0);
        y := y + 1;
      }
      assert calls[..Lin(w, h, 0)] == calls;
    }

    /** One pass of the inner loop of `draw`: the tiles of grid row `y`, left to right. */
    method DrawRow(screen: Image, y: nat, ghost b0: seq<Color>)
      requires Valid() && tileset.Valid() && screen.Valid() && TilesInSheet()
      requires dims.0 > 0 && screen.sz.x > 0 && screen.buffer != tileset.image.buffer
      requires y < dims.1
      requires forall k :: 0 <= k < |TileBlits()| ==>
                 BlitPre(tileset.image.buffer[..], tileset.image.sz, screen.sz, TileBlits()[k].from, TileBlits()[k].to)
      requires screen.buffer[..]
               == ApplyBlits(b0, screen.sz, tileset.image.buffer[..], tileset.image.sz, TileBlits()[..Lin(dims.0, y, 0)])
      modifies screen.buffer
      ensures Lin(dims.0, y + 1, 0) <= |TileBlits()|
      ensures screen.buffer[..]
              == ApplyBlits(b0, screen.sz, tileset.image.buffer[..], tileset.image.sz, TileBlits()[..Lin(dims.0, y + 1, 0)])
    {
      ghost var calls := TileBlits();
      var src := tileset.image;
      var w := dims.0;
      var ypx := y * TILE_SZ + position.y;
      LinBound(w, dims.1, y, 0);
      var x := 0;
      ghost var n := Lin(w, y, 0);
      while x < w
        invariant 0 <= x <= w && n == Lin(w, y, x) && n <= |calls|
        invariant screen.buffer[..] == ApplyBlits(b0, screen.sz, src.buffer[..], src.sz, calls[..n])
      {
        var xpx := x * TILE_SZ + position.x;
        TileBlitsRowMajor(this, x, y);
        var frame := tileset.GetRect(grid[y * w + x]);
        screen.Bitblt(src, frame, Vec2i(xpx, ypx));
        ApplyBlitsSnoc(b0, screen.sz, src.buffer[..], src.sz, calls, n);
        x := x + 1;
        n := n + 1;
      }
      LinNextRow(w, y);
    }
  }

  /** Every blit `draw` issues satisfies the blit's preconditions on a screen at least one pixel wide. */
  lemma TileBlitsPre(m: Tilemap, dsz: Vec2i)
    requires m.tileset.Valid() && m.TilesInSheet() && m.dims.0 > 0 && dsz.x > 0
    ensures forall k :: 0 <= k < |m.TileBlits()| ==>
              BlitPre(m.tileset.image.buffer[..], m.tileset.image.sz, dsz, m.TileBlits()[k].from, m.TileBlits()[k].to)
  {
  }

  /**
   * `draw` issues exactly width * height blits, and the blit at row-major
   * position y*w + x shows tile (x, y) at `position + (8x, 8y)`.
   */
  lemma TileBlitsRowMajor(m: Tilemap, x: int, y: int)
    requires m.Valid() && m.dims.0 > 0 && m.tileset.TilesPerRow() > 0
    requires 0 <= x < m.dims.0 && 0 <= y < m.dims.1
    ensures |m.TileBlits()| == m.dims.0 * m.dims.1
    ensures 0 <= Lin(m.dims.0, y, x) < |m.TileBlits()|
    ensures m.TileBlits()[Lin(m.dims.0, y, x)]
            == Blit(m.tileset.GetRect(m.grid[y * m.dims.0 + x]),
                    Add(m.position, Vec2i(TILE_SZ * x, TILE_SZ * y)))
  {
    LinBound(m.dims.0, m.dims.1, y, x);
    LinDivMod(m.dims.0, y, x);
  }

  /**
   * The corner returned by `tile_id_at` is a whole number of tiles from the
   * grid's position, and for a pixel at or right of / below the position it
   * is the corner of the 8x8 tile that contains the pixel.
   */
  lemma TileIdAtCorner(m: Tilemap, p: Vec2i)
    requires m.Locatable(p)
    ensures (m.TileIdAt(p).0.x - m.position.x) % TILE_SZ == 0
    ensures (m.TileIdAt(p).0.y - m.position.y) % TILE_SZ == 0
    ensures p.x >= m.position.x && p.y >= m.position.y ==>
              ContainsPoint(Rect(m.TileIdAt(p).0, Vec2i(TILE_SZ - 1, TILE_SZ - 1)), p)
  {
  }

  /**
   * For a pixel up to 7 pixels left of (or above) the grid, the signed
   * division rounds toward zero and `tile_id_at` still answers with column
   * (row) 0, whose corner lies to the right of (below) the pixel.
   */
  lemma TileIdAtTruncates(m: Tilemap, p: Vec2i)
    requires m.Locatable(p)
    requires m.position.x - TILE_SZ < p.x < m.position.x
    ensures m.Column(p) == 0 && m.TileIdAt(p).0.x == m.position.x > p.x
  {
  }
}

/**
 * Integer geometry of the engine: the screen and tile constants, the
 * direction codes, two-dimensional integer vectors, axis-aligned rectangles
 * and RGBA colours.
 */
module Types {

  // Frame-buffer size in pixels.
  const WIDTH: int := 176
  const HEIGHT: int := 176

  // One grid step of an actor is 16 pixels; one graphic tile is 8 pixels.
  const MOVE_SZ: int := 16
  const TILE_SZ: int := 8

  // Key / direction codes: [Down, Up, Left, Right, Space].
  const DOWN: int := 0
  const UP: int := 1
  const LEFT: int := 2
  const RIGHT: int := 3
  const SPACE: int := 4

  // Text reveal speed: ticks per revealed glyph.
  const TSPEED: int := 4

  predicate IsDir(d: int) { 0 <= d <= 3 }

  type byte = x: int | 0 <= x < 256

  /** A colour as stored in a pixel buffer: premultiplied r, g, b and alpha. */
  datatype Color = Color(r: byte, g: byte, b: byte, a: byte)

  datatype Vec2i = Vec2i(x: int, y: int)

  const PSZ: Vec2i := Vec2i(16, 16)
  const PPOS: Vec2i := Vec2i(WIDTH / 2 - PSZ.x / 2, HEIGHT / 2 - PSZ.y / 2)
  const START: Vec2i := Vec2i(9, 10)

  /** The vector one grid cell away from `v` in direction `dir`. */
  function Walk(v: Vec2i, dir: int): (r: Vec2i)
    requires IsDir(dir)
    ensures dir == DOWN ==> r == Vec2i(v.x, v.y + 1)
    ensures dir == UP ==> r == Vec2i(v.x, v.y - 1)
    ensures dir == LEFT ==> r == Vec2i(v.x - 1, v.y)
    ensures dir == RIGHT ==> r == Vec2i(v.x + 1, v.y)
  {
    match dir
    case 0 => v.(y := v.y + 1)
    case 1 => v.(y := v.y - 1)
    case 2 => v.(x := v.x - 1)
    case 3 => v.(x := v.x + 1)
  }

  /** The unit vector of direction `dir` (Down is +y). */
  function DirVec(dir: int): Vec2i
    requires IsDir(dir)
  {
    match dir
    case 0 => Vec2i(0, 1)
    case 1 => Vec2i(0, -1)
    case 2 => Vec2i(-1, 0)
    case 3 => Vec2i(1, 0)
  }

  /** A walk changes exactly one coordinate, by one, as the direction vector says. */
  lemma WalkIsUnitStep(v: Vec2i, dir: int)
    requires IsDir(dir)
    ensures Walk(v, dir) == Add(v, DirVec(dir))
    ensures (Walk(v, dir).x == v.x) != (Walk(v, dir).y == v.y)
    ensures Abs(Walk(v, dir).x - v.x) + Abs(Walk(v, dir).y - v.y) == 1
  {
  }

  function Abs(n: int): nat { if n < 0 then -n else n }

  /** The pixel column of a grid cell: on the 16-pixel grid, and dividing by 16 gives the column back. */
  function PixelX(v: Vec2i): (r: int)
    ensures r % MOVE_SZ == 0 && r / MOVE_SZ == v.x
  {
    16 * v.x
  }

  /** The pixel row of a grid cell: on the 16-pixel grid, and dividing by 16 gives the row back. */
  function PixelY(v: Vec2i): (r: int)
    ensures r % MOVE_SZ == 0 && r / MOVE_SZ == v.y
  {
    16 * v.y
  }

  /** The pixel position of a grid cell. */
  function Get(v: Vec2i): (r: Vec2i)
    ensures r.x % MOVE_SZ == 0 && r.y % MOVE_SZ == 0
    ensures r.x / MOVE_SZ == v.x && r.y / MOVE_SZ == v.y
  {
    Vec2i(PixelX(v), PixelY(v))
  }

  /** Componentwise sum; subtracting `b` again gives `a` back. */
  function Add(a: Vec2i, b: Vec2i): (r: Vec2i)
    ensures Sub(r, b) == a
  {
    Vec2i(a.x + b.x, a.y + b.y)
  }

  /** Componentwise difference: the vector that, added to `b`, gives `a`. */
  function Sub(a: Vec2i, b: Vec2i): (r: Vec2i)
    ensures b.x + r.x == a.x && b.y + r.y == a.y
  {
    Vec2i(a.x - b.x, a.y - b.y)
  }

  /** Subtraction undoes addition and the other way round. */
  lemma AddSubInverse(a: Vec2i, b: Vec2i)
    ensures Sub(Add(a, b), b) == a
    ensures Add(Sub(a, b), b) == a
    ensures Add(a, b) == Add(b, a)
  {
  }

  datatype Rect = Rect(pos: Vec2i, sz: Vec2i)

  /** `other` lies inside `self`, boundaries included. */
  function Contains(self: Rect, other: Rect): (r: bool)
    ensures r <==> (self.pos.x <= other.pos.x && other.pos.x + other.sz.x <= self.pos.x + self.sz.x
                    && self.pos.y <= other.pos.y && other.pos.y + other.sz.y <= self.pos.y + self.sz.y)
  {
    var br := Add(self.pos, self.sz);
    var obr := Add(other.pos, other.sz);
    self.pos.x <= other.pos.x && self.pos.y <= other.pos.y && obr.x <= br.x && obr.y <= br.y
  }

  /** Containment is reflexive and transitive. */
  lemma ContainsOrder(a: Rect, b: Rect, c: Rect)
    ensures Contains(a, a)
    ensures Contains(a, b) && Contains(b, c) ==> Contains(a, c)
  {
  }

  /** `p` lies in `self`, where both the top-left corner `pos` and the corner `pos + sz` count. */
  function ContainsPoint(self: Rect, p: Vec2i): (r: bool)
    ensures r <==> (self.pos.x <= p.x <= self.pos.x + self.sz.x && self.pos.y <= p.y <= self.pos.y + self.sz.y)
  {
    self.pos.x <= p.x && self.pos.y <= p.y && self.pos.x + self.sz.x >= p.x && self.pos.y + self.sz.y >= p.y
  }

  /** Both corners of a rectangle of non-negative size are points of it. */
  lemma ContainsPointCorners(self: Rect)
    requires self.sz.x >= 0 && self.sz.y >= 0
    ensures ContainsPoint(self, self.pos)
    ensures ContainsPoint(self, Add(self.pos, self.sz))
    ensures !ContainsPoint(self, Vec2i(self.pos.x + self.sz.x + 1, self.pos.y))
  {
  }

  /** The rectangle shifted by (dx, dy); its size is unchanged. */
  function MoveBy(self: Rect, dx: int, dy: int): (r: Rect)
    ensures r.sz == self.sz
    ensures Sub(r.pos, self.pos) == Vec2i(dx, dy)
  {
    self.(pos := Vec2i(self.pos.x + dx, self.pos.y + dy))
  }

  /** The bottom edge: the last row the (corner-inclusive) rectangle contains. */
  function Bottom(self: Rect): (r: int)
    ensures self.sz.x >= 0 && self.sz.y >= 0 ==>
              ContainsPoint(self, Vec2i(self.pos.x, r)) && !ContainsPoint(self, Vec2i(self.pos.x, r + 1))
  {
    self.pos.y + self.sz.y
  }

  /** The bottom edge of a moved rectangle moves by dy and its top stays below by the height. */
  lemma BottomMoveBy(self: Rect, dx: int, dy: int)
    ensures Bottom(MoveBy(self, dx, dy)) == Bottom(self) + dy
    ensures Bottom(self) - self.pos.y == self.sz.y
  {
  }
}

/**
 * Non-player characters: their facing rules, the table that keys them by
 * grid position, and where `draw` places each of them on screen.
 */
module Npcs {
  import opened Types
  import opened Wrappers
  import opened Images

  /** The direction that looks back along `dir`: Down and Up swap, Left and Right swap. */
  function Opposite(dir: int): (r: int)
    requires IsDir(dir)
    ensures IsDir(r)
  {
    match dir
    case 0 => UP
    case 1 => DOWN
    case 2 => RIGHT
    case 3 => LEFT
  }

  /**
   * Turning to face is an involution without fixed points, and an NPC one
   * step away in `dir` that looks in `Opposite(dir)` looks straight back at
   * the cell the step came from.
   */
  lemma OppositeFacesBack(p: Vec2i, dir: int)
    requires IsDir(dir)
    ensures Opposite(Opposite(dir)) == dir && Opposite(dir) != dir
    ensures DirVec(Opposite(dir)) == Vec2i(-DirVec(dir).x, -DirVec(dir).y)
    ensures Walk(Walk(p, dir), Opposite(dir)) == p
  {
  }

  class NPC {
    const id: int
    var curDir: int
    const defDir: int
    const pos: Vec2i
    const text: string
    var talked: bool

    constructor (id: int, dir: int, pos: Vec2i, text: string)
      ensures this.id == id && curDir == dir && defDir == dir && this.pos == pos && this.text == text
      ensures !talked
    {
      this.id := id;
      curDir := dir;
      defDir := dir;
      this.pos := pos;
      this.text := text;
      talked := false;
    }

    /** Look back at someone who walked up in direction `dir`; a code other than 0..3 is fatal. */
    method TurnToFace(dir: int)
      requires IsDir(dir)
      modifies this
      ensures curDir == Opposite(dir) && talked == old(talked)
    {
      curDir := Opposite(dir);
    }

    /** Face the default direction again; a second call changes nothing more. */
    method ResetDir()
      modifies this
      ensures curDir == defDir && talked == old(talked)
    {
      curDir := defDir;
    }
  }

  /** The table `NPCSet::new` builds: NPCs inserted by position in list order, a later one replacing an earlier one. */
  function TableOf(npcs: seq<NPC>): (t: map<Vec2i, NPC>)
  {
    if npcs == [] then map[]
    else
      var last := npcs[|npcs| - 1];
      TableOf(npcs[..|npcs| - 1])[last.pos := last]
  }

  /** The table's keys are the positions of the listed NPCs, and every value is one of them stored under its own position. */
  lemma {:induction false} TableOfKeys(npcs: seq<NPC>)
    ensures TableOf(npcs).Keys == set n | n in npcs :: n.pos
    ensures forall p :: p in TableOf(npcs) ==> TableOf(npcs)[p] in npcs && TableOf(npcs)[p].pos == p
  {
    if npcs != [] {
      var init := npcs[..|npcs| - 1];
      TableOfKeys(init);
      assert npcs == init + [npcs[|npcs| - 1]];
    }
  }

  /** An NPC that no later NPC in the list shares a position with is the one the table holds at its position. */
  lemma {:induction false} TableOfLaterWins(npcs: seq<NPC>, k: nat)
    requires k < |npcs|
    requires forall j :: k < j < |npcs| ==> npcs[j].pos != npcs[k].pos
    ensures npcs[k].pos in TableOf(npcs) && TableOf(npcs)[npcs[k].pos] == npcs[k]
  {
    if k < |npcs| - 1 {
      var init := npcs[..|npcs| - 1];
      TableOfLaterWins(init, k);
    }
  }

  /** The NPCs of one level, keyed by grid position. */
  class NPCSet {
    const image: Image
    /** Never replaced after construction; the NPCs in it are updated in place. */
    const dict: map<Vec2i, NPC>
    const npcSz: Vec2i
    var fin: bool
    const finText: string

    constructor (image: Image, npcs: seq<NPC>, npcSz: Vec2i, finText: string)
      ensures dict == TableOf(npcs) && !fin
      ensures this.image == image && this.npcSz == npcSz && this.finText == finText
    {
      var table := map[];
      var i := 0;
      while i < |npcs|
        invariant 0 <= i <= |npcs|
        invariant table == TableOf(npcs[..i])
      {
        assert npcs[..i + 1][..i] == npcs[..i];
        table := table[npcs[i].pos := npcs[i]];
        i := i + 1;
      }
      assert npcs[..|npcs|] == npcs;
      this.image := image;
      dict := table;
      this.npcSz := npcSz;
      fin := false;
      this.finText := finText;
    }

    /** The NPC registered at `pos`, if any. */
    function At(pos: Vec2i): (r: Option<NPC>)
      ensures r.Some? <==> pos in dict
      ensures r.Some? ==> r.value == dict[pos]
    {
      if pos in dict then Some(dict[pos]) else None
    }

    /** The NPCs standing on `pos`: the one registered there, or none. */
    function On(pos: Vec2i): set<NPC>
    {
      if pos in dict then {dict[pos]} else {}
    }

    /** The blits `draw` issues, one per NPC (a set: the table is visited in no particular order). */
    ghost function DrawBlits(ppos: Vec2i, movec: nat, dir: int): (r: set<Blit>)
      requires IsDir(dir)
      reads dict.Values
      ensures forall n :: n in dict.Values ==> Placement(npcSz, n.id, n.curDir, n.pos, ppos, movec, dir) in r
      ensures forall b :: b in r ==> b.from.sz == npcSz
      ensures |dict| == 0 ==> r == {}
    {
      set n | n in dict.Values :: Placement(npcSz, n.id, n.curDir, n.pos, ppos, movec, dir)
    }
  }

  /** How far an NPC is drawn shifted while the player is mid-step: half the countdown, along the walking axis. */
  function SubPos(movec: nat, dir: int): (r: Vec2i)
    requires IsDir(dir)
    ensures r.x == 0 || r.y == 0
    ensures Abs(r.x) + Abs(r.y) == movec / 2
  {
    match dir
    case 0 => Vec2i(0, movec / 2)
    case 1 => Vec2i(0, -(movec / 2))
    case 2 => Vec2i(-(movec / 2), 0)
    case 3 => Vec2i(movec / 2, 0)
  }

  /** The shift is `movec / 2` pixels in the walking direction, so it shrinks from 16 to 0 over one step. */
  lemma SubPosAlongDirection(movec: nat, dir: int)
    requires IsDir(dir)
    ensures SubPos(movec, dir) == Vec2i(DirVec(dir).x * (movec / 2), DirVec(dir).y * (movec / 2))
    ensures Abs(SubPos(movec, dir).x) + Abs(SubPos(movec, dir).y) == movec / 2
    ensures movec <= 32 ==> movec / 2 <= MOVE_SZ
  {
  }

  /** The blit of one NPC: its sheet cell by facing and id, placed relative to the player's grid cell `ppos`. */
  function Placement(npcSz: Vec2i, id: int, curDir: int, npos: Vec2i, ppos: Vec2i, movec: nat, dir: int): (r: Blit)
    requires IsDir(dir)
    ensures r.from.sz == npcSz
    ensures Sub(r.to, SubPos(movec, dir)).x % MOVE_SZ == 0
    ensures (Sub(r.to, SubPos(movec, dir)).y - if npcSz.y > 16 then 2 else 0) % MOVE_SZ == 0
    ensures npos == ppos ==> Sub(r.to, SubPos(movec, dir)) == Vec2i(80, 80 + if npcSz.y > 16 then 2 else 0)
  {
    var adj := if npcSz.y > 16 then 2 else 0;
    Blit(Rect(Vec2i(npcSz.x * curDir, npcSz.y * id), npcSz),
         Add(SubPos(movec, dir), Vec2i(16 * (5 + npos.x - ppos.x), 16 * (5 + npos.y - ppos.y) + adj)))
  }

  /**
   * NPCs are laid out 16 pixels per grid cell relative to one another,
   * whatever the player's cell and countdown; an NPC on the player's cell
   * sits at (80, 80) plus the step shift, 2 pixels lower for tall sprites;
   * and the sheet cell is chosen by facing (column) and id (row).
   */
  lemma PlacementGrid(npcSz: Vec2i, id: int, curDir: int, p: Vec2i, q: Vec2i, ppos: Vec2i, movec: nat, dir: int)
    requires IsDir(dir)
    ensures Sub(Placement(npcSz, id, curDir, p, ppos, movec, dir).to, Placement(npcSz, id, curDir, q, ppos, movec, dir).to)
            == Vec2i(MOVE_SZ * (p.x - q.x), MOVE_SZ * (p.y - q.y))
    ensures Placement(npcSz, id, curDir, ppos, ppos, movec, dir).to
            == Add(SubPos(movec, dir), Vec2i(80, 80 + if npcSz.y > 16 then 2 else 0))
    ensures Placement(npcSz, id, curDir, p, ppos, movec, dir).from == Rect(Vec2i(npcSz.x * curDir, npcSz.y * id), npcSz)
  {
  }
}

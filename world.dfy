/**
 * Game content that is code rather than data: the glyph table of the
 * dialogue font, the player's animation table, and the NPC lists of the
 * three levels.
 */
module World {
  import opened Types
  import opened Images
  import opened Actions
  import opened Animations
  import opened Npcs

  // ---------------------------------------------------------------------
  // The glyph table
  // ---------------------------------------------------------------------

  /** Codes with a glyph of their own outside the letter and digit ranges. */
  predicate Listed(c: nat)
  {
    (1 <= c <= 9) || (11 <= c <= 19) || (21 <= c <= 29) || c == 233 || (256 <= c <= 264)
    || c == 40 || c == 41 || c == 58 || c == 59 || c == 91 || c == 93 || c == 45 || c == 63
    || c == 33 || c == 46 || c == 47 || c == 44 || c == 42
  }

  /** The pixel position in the font sheet of the glyph for code `c`; always on the 8-pixel grid. */
  function TextCoords(c: nat): (r: Vec2i)
    ensures r.x % TILE_SZ == 0 && r.y % TILE_SZ == 0
  {
    var coords :=
      if 65 <= c <= 90 then Vec2i(c - 65, 0)
      else if 97 <= c <= 122 then Vec2i(c - 97, 1)
      else if 48 <= c <= 57 then Vec2i(c - 48, 2)
      else
        match c
        case 1 => Vec2i(0, 3)
        case 2 => Vec2i(2, 3)
        case 3 => Vec2i(5, 3)
        case 4 => Vec2i(4, 3)
        case 5 => Vec2i(1, 3)
        case 6 => Vec2i(1, 3)
        case 7 => Vec2i(3, 3)
        case 8 => Vec2i(3, 3)
        case 9 => Vec2i(21, 3)
        case 11 => Vec2i(0, 4)
        case 12 => Vec2i(2, 4)
        case 13 => Vec2i(4, 4)
        case 14 => Vec2i(6, 4)
        case 15 => Vec2i(1, 4)
        case 16 => Vec2i(1, 4)
        case 17 => Vec2i(7, 4)
        case 18 => Vec2i(3, 4)
        case 19 => Vec2i(21, 3)
        case 21 => Vec2i(8, 4)
        case 22 => Vec2i(10, 4)
        case 23 => Vec2i(12, 4)
        case 24 => Vec2i(14, 4)
        case 25 => Vec2i(9, 4)
        case 26 => Vec2i(13, 4)
        case 27 => Vec2i(15, 4)
        case 28 => Vec2i(11, 4)
        case 29 => Vec2i(21, 3)
        case 233 => Vec2i(10, 2)
        case 256 => Vec2i(11, 2)
        case 257 => Vec2i(12, 2)
        case 258 => Vec2i(13, 2)
        case 259 => Vec2i(14, 2)
        case 260 => Vec2i(15, 2)
        case 261 => Vec2i(16, 2)
        case 262 => Vec2i(17, 2)
        case 263 => Vec2i(18, 3)
        case 264 => Vec2i(19, 3)
        case 40 => Vec2i(6, 3)
        case 41 => Vec2i(7, 3)
        case 58 => Vec2i(8, 3)
        case 59 => Vec2i(9, 3)
        case 91 => Vec2i(10, 3)
        case 93 => Vec2i(11, 3)
        case 45 => Vec2i(12, 3)
        case 63 => Vec2i(13, 3)
        case 33 => Vec2i(14, 3)
        case 46 => Vec2i(15, 3)
        case 47 => Vec2i(16, 3)
        case 44 => Vec2i(17, 3)
        case 42 => Vec2i(20, 3)
        case _ => Vec2i(22, 3);
    Vec2i(TILE_SZ * coords.x, TILE_SZ * coords.y)
  }

  /** The glyph of the blank cell: column 22 of sheet row 3. */
  const SpaceGlyph: Vec2i := Vec2i(8 * 22, 8 * 3)

  /** Upper-case letters fill sheet row 0, lower-case row 1 and digits row 2, in code order. */
  lemma TextCoordsRanges(c: nat)
    ensures 65 <= c <= 90 ==> TextCoords(c) == Vec2i(8 * (c - 65), 0)
    ensures 97 <= c <= 122 ==> TextCoords(c) == Vec2i(8 * (c - 97), 8)
    ensures 48 <= c <= 57 ==> TextCoords(c) == Vec2i(8 * (c - 48), 16)
  {
  }

  /** Every code without a glyph of its own, the pad code 0 of `parse` among them, shows the blank glyph. */
  lemma TextCoordsDefault(c: nat)
    requires !Listed(c) && !(65 <= c <= 90) && !(97 <= c <= 122) && !(48 <= c <= 57)
    ensures TextCoords(c) == SpaceGlyph
    ensures TextCoords(0) == SpaceGlyph
  {
  }

  /**
   * The contraction codes 256..262 and the quote codes 263..264 that
   * `parse` produces each have a glyph of their own: no two share one and
   * none is the blank glyph.
   */
  lemma ParserCodesHaveGlyphs(c: nat, d: nat)
    requires 256 <= c <= 264 && 256 <= d <= 264
    ensures TextCoords(c) != SpaceGlyph
    ensures c != d ==> TextCoords(c) != TextCoords(d)
  {
  }

  // ---------------------------------------------------------------------
  // The player's animations
  // ---------------------------------------------------------------------

  /** The sprite-sheet row of the frames facing `dir`, for sprites of size `sz`. */
  function FacingRow(sz: Vec2i, dir: int): int
    requires IsDir(dir)
  {
    dir * sz.y
  }

  /** The animation table of a sprite sheet with `sz`-sized frames, one row per facing. */
  method Anims(sz: Vec2i) returns (animations: map<Action, Animation>)
    ensures forall a: Action :: a in animations
    ensures forall a: Action :: animations[a].loops
    ensures forall a: Action :: |animations[a].frames| == |animations[a].frameTimings|
    ensures forall a: Action, k :: 0 <= k < |animations[a].frames| ==> animations[a].frames[k].sz == sz
    ensures forall d :: IsDir(d) ==> animations[Stand(d)].frames == [Rect(Vec2i(0, FacingRow(sz, d)), sz)]
    ensures forall d :: IsDir(d) ==>
              |animations[WalkIn(d)].frames| == (if d == DOWN || d == UP then 4 else 2)
              && animations[WalkIn(d)].frames[0] == animations[Stand(d)].frames[0]
              && (forall k :: 0 <= k < |animations[WalkIn(d)].frames| ==>
                    animations[WalkIn(d)].frames[k].pos.y == FacingRow(sz, d))
  {
    animations := map[];
    animations := animations[StandD := Animation([Rect(Vec2i(0, 0), sz)], [0], true)];
    animations := animations[StandU := Animation([Rect(Vec2i(0, sz.y), sz)], [0], true)];
    animations := animations[StandL := Animation([Rect(Vec2i(0, 2 * sz.y), sz)], [0], true)];
    animations := animations[StandR := Animation([Rect(Vec2i(0, 3 * sz.y), sz)], [0], true)];
    animations := animations[WalkD := Animation(
      [Rect(Vec2i(0, 0), sz), Rect(Vec2i(sz.x, 0), sz), Rect(Vec2i(0, 0), sz), Rect(Vec2i(2 * sz.x, 0), sz)],
      [0, 15, 30, 45], true)];
    animations := animations[WalkU := Animation(
      [Rect(Vec2i(0, sz.y), sz), Rect(Vec2i(sz.x, sz.y), sz), Rect(Vec2i(0, sz.y), sz), Rect(Vec2i(2 * sz.x, sz.y), sz)],
      [0, 15, 30, 45], true)];
    animations := animations[WalkL := Animation(
      [Rect(Vec2i(0, 2 * sz.y), sz), Rect(Vec2i(sz.x, 2 * sz.y), sz)],
      [0, 15], true)];
    animations := animations[WalkR := Animation(
      [Rect(Vec2i(0, 3 * sz.y), sz), Rect(Vec2i(sz.x, 3 * sz.y), sz)],
      [0, 15], true)];
    forall a: Action ensures a in animations {
      ActionsByDirection(a);
    }
  }

  // ---------------------------------------------------------------------
  // The NPCs of each level
  // ---------------------------------------------------------------------

  /** One NPC of a level list: id (sheet row), default facing, grid cell and the dialogue key of its text. */
  datatype NpcDef = NpcDef(id: int, dir: int, pos: Vec2i, key: string)

  /** The NPC list of `level`; only levels 0, 1 and 2 exist. Each has eight NPCs with a valid facing and one of five sheet rows. */
  function NpcDefs(level: nat): (r: seq<NpcDef>)
    requires level <= 2
    ensures |r| == 8
    ensures forall i :: 0 <= i < |r| ==> IsDir(r[i].dir) && 0 <= r[i].id <= 4
  {
    match level
    case 0 => [
      NpcDef(0, 0, Vec2i(15, 18), "BOY"), NpcDef(1, 2, Vec2i(7, 13), "WOMAN"),
      NpcDef(2, 3, Vec2i(20, 15), "OAK"), NpcDef(3, 0, Vec2i(10, 10), "MOM"),
      NpcDef(4, 0, Vec2i(7, 9), "HSIGN"), NpcDef(4, 0, Vec2i(15, 9), "RSIGN"),
      NpcDef(4, 0, Vec2i(11, 13), "TSIGN"), NpcDef(4, 0, Vec2i(17, 17), "BSIGN")]
    case 1 => [
      NpcDef(0, 0, Vec2i(16, 14), "BOY"), NpcDef(1, 3, Vec2i(7, 7), "RIVAL"),
      NpcDef(2, 3, Vec2i(21, 12), "ELM"), NpcDef(3, 1, Vec2i(10, 13), "WOMAN"),
      NpcDef(4, 0, Vec2i(7, 8), "LSIGN"), NpcDef(4, 0, Vec2i(15, 10), "HSIGN"),
      NpcDef(4, 0, Vec2i(12, 13), "MSIGN"), NpcDef(4, 0, Vec2i(13, 18), "BSIGN")]
    case 2 => [
      NpcDef(0, 3, Vec2i(16, 16), "BOY1"), NpcDef(1, 0, Vec2i(15, 6), "GIRL"),
      NpcDef(2, 2, Vec2i(6, 14), "BIRCH"), NpcDef(3, 2, Vec2i(18, 18), "BOY2"),
      NpcDef(4, 0, Vec2i(14, 19), "LSIGN"), NpcDef(4, 0, Vec2i(12, 11), "HSIGN"),
      NpcDef(4, 0, Vec2i(18, 15), "MSIGN"), NpcDef(4, 0, Vec2i(16, 11), "FSIGN")]
  }

  /** The NPC sprite size of `level`: level 2's sprites are 20 pixels tall. */
  function NpcSize(level: nat): Vec2i
    requires level <= 2
  {
    if level == 2 then Vec2i(16, 20) else Vec2i(16, 16)
  }

  /** The message shown once every NPC of `level` has been talked to. */
  function FinText(level: nat): string
    requires level <= 2
  {
    if level == 0 then "Looks like you've talked to everyone here in PALLET TOWN! Why don't you walk around a bit?"
    else "Looks like you've talked to everyone here in PALLET TOWN! Why don't you try walking around a bit?"
  }

  /**
   * Each level lists eight NPCs on eight different cells with valid
   * default facings, so building the table replaces none of them; only
   * level 2's sprites are tall enough to be drawn 2 pixels lower.
   */
  lemma NpcDefsWellFormed(level: nat)
    requires level <= 2
    ensures |NpcDefs(level)| == 8
    ensures forall i, j :: 0 <= i < j < 8 ==> NpcDefs(level)[i].pos != NpcDefs(level)[j].pos
    ensures forall i :: 0 <= i < 8 ==> IsDir(NpcDefs(level)[i].dir) && 0 <= NpcDefs(level)[i].id <= 4
    ensures NpcSize(level).y > 16 <==> level == 2
  {
  }

  /** The grid cells a list of NPC definitions occupies. */
  function DefPositions(defs: seq<NpcDef>): set<Vec2i>
  {
    set i | 0 <= i < |defs| :: defs[i].pos
  }

  /**
   * `npcs(level)`: the NPC table of a level, each NPC's text looked up by
   * its key in the dialogue file's contents `dlg`; a missing key is fatal.
   * Every listed NPC is in the table under its own cell.
   */
  method LevelNpcs(level: nat, image: Image, dlg: map<string, string>) returns (npcs: NPCSet)
    requires level <= 2
    requires forall i :: 0 <= i < |NpcDefs(level)| ==> NpcDefs(level)[i].key in dlg
    ensures fresh(npcs) && !npcs.fin && npcs.npcSz == NpcSize(level) && npcs.finText == FinText(level)
    ensures npcs.dict.Keys == DefPositions(NpcDefs(level)) && |npcs.dict| == 8
    ensures forall i :: 0 <= i < |NpcDefs(level)| ==> Created(npcs.dict[NpcDefs(level)[i].pos], NpcDefs(level)[i], dlg)
  {
    var defs := NpcDefs(level);
    NpcDefsWellFormed(level);
    npcs := BuildSet(image, defs, dlg, NpcSize(level), FinText(level));
    DistinctPositions(defs);
  }

  /** `n` is the NPC `NPC::new` makes from definition `d`, with its text looked up in `dlg`. */
  predicate Created(n: NPC, d: NpcDef, dlg: map<string, string>)
    reads n
  {
    d.key in dlg && n.pos == d.pos && n.id == d.id && n.curDir == d.dir && n.defDir == d.dir
    && n.text == dlg[d.key] && !n.talked
  }

  /** Create one NPC per definition and key them by position with `NPCSet::new`. */
  method BuildSet(image: Image, defs: seq<NpcDef>, dlg: map<string, string>, npcSz: Vec2i, finText: string)
    returns (npcs: NPCSet)
    requires forall i :: 0 <= i < |defs| ==> defs[i].key in dlg
    requires forall i, j :: 0 <= i < j < |defs| ==> defs[i].pos != defs[j].pos
    ensures fresh(npcs) && !npcs.fin && npcs.npcSz == npcSz && npcs.finText == finText
    ensures npcs.dict.Keys == DefPositions(defs)
    ensures forall i :: 0 <= i < |defs| ==> Created(npcs.dict[defs[i].pos], defs[i], dlg)
  {
    var list: seq<NPC> := [];
    var i := 0;
    while i < |defs|
      invariant 0 <= i <= |defs| && |list| == i
      invariant forall j :: 0 <= j < i ==> fresh(list[j]) && Created(list[j], defs[j], dlg)
    {
      var n := new NPC(defs[i].id, defs[i].dir, defs[i].pos, dlg[defs[i].key]);
      list := list + [n];
      i := i + 1;
    }
    npcs := new NPCSet(image, list, npcSz, finText);
    TableOfKeys(list);
    forall p | p in DefPositions(defs)
      ensures p in npcs.dict
    {
      var k :| 0 <= k < |defs| && defs[k].pos == p;
      assert list[k] in list;
    }
    forall i | 0 <= i < |defs|
      ensures npcs.dict[defs[i].pos] == list[i]
    {
      TableOfLaterWins(list, i);
    }
  }

  /** Eight definitions on pairwise different cells occupy eight cells. */
  lemma {:induction false} DistinctPositions(defs: seq<NpcDef>)
    requires forall i, j :: 0 <= i < j < |defs| ==> defs[i].pos != defs[j].pos
    ensures |DefPositions(defs)| == |defs|
  {
    if defs != [] {
      var init := defs[..|defs| - 1];
      DistinctPositions(init);
      assert DefPositions(defs) == DefPositions(init) + {defs[|defs| - 1].pos};
    }
  }
}

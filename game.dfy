/**
 * The per-tick game logic: the direction latch, the grid step with its
 * 32-tick countdown that scrolls the map one pixel every other tick, talking
 * to NPCs, and the typewriter reveal of the text box.
 *
 * `Step` is the whole tick on a snapshot of the state; `State.UpdateState`
 * performs it in place on the objects and is proved to agree with it.
 */
module Game {
  import opened Types
  import opened Wrappers
  import opened Images
  import opened Tiles
  import opened Actions
  import opened Animations
  import opened Sprites
  import opened Npcs
  import opened Text

  // ---------------------------------------------------------------------
  // The keyboard and the direction latch
  // ---------------------------------------------------------------------

  /** The keys held this tick and the tick before, indexed Down, Up, Left, Right, Space. */
  datatype Input = Input(now: seq<bool>, prev: seq<bool>)

  predicate InputOk(i: Input)
  {
    |i.now| > SPACE && |i.prev| > SPACE
  }

  predicate LatchOk(latch: Option<int>)
  {
    latch.Some? ==> IsDir(latch.value)
  }

  /** The latch after releases: cleared when the latched key went up this tick, otherwise kept. */
  function Released(latch: Option<int>, i: Input): Option<int>
    requires InputOk(i)
  {
    if latch.Some? && IsDir(latch.value) && !i.now[latch.value] && i.prev[latch.value] then None else latch
  }

  /** The held direction key with the highest code, if any. */
  function LastHeld(now: seq<bool>): (r: Option<int>)
    requires |now| > SPACE
    ensures LatchOk(r)
  {
    if now[RIGHT] then Some(RIGHT)
    else if now[LEFT] then Some(LEFT)
    else if now[UP] then Some(UP)
    else if now[DOWN] then Some(DOWN)
    else None
  }

  /** The latch for this tick: releases first, then an empty latch takes a held direction. */
  function Latch(latch: Option<int>, i: Input): (r: Option<int>)
    requires InputOk(i) && LatchOk(latch)
    ensures LatchOk(r)
  {
    var kept := Released(latch, i);
    if kept.None? then LastHeld(i.now) else kept
  }

  /**
   * An empty latch takes the last direction held in the order Down, Up,
   * Left, Right: some direction is taken exactly when one is held, and the
   * one taken is held with none of a higher code held.
   */
  lemma LastHeldIsLast(now: seq<bool>)
    requires |now| > SPACE
    ensures LastHeld(now).None? <==> forall d :: IsDir(d) ==> !now[d]
    ensures forall d :: LastHeld(now) == Some(d) <==> (IsDir(d) && now[d] && forall e :: d < e <= RIGHT ==> !now[e])
  {
  }

  /**
   * Releasing the latched key clears the latch before presses are looked
   * at; any other release, or none, keeps it; a kept latch ignores every
   * press; and only an empty latch is filled.
   */
  lemma LatchRules(latch: Option<int>, i: Input)
    requires InputOk(i) && LatchOk(latch)
    ensures latch.Some? && !i.now[latch.value] && i.prev[latch.value] ==> Released(latch, i).None?
    ensures latch.Some? && (i.now[latch.value] || !i.prev[latch.value]) ==> Latch(latch, i) == latch
    ensures latch.Some? && !i.now[latch.value] && i.prev[latch.value] ==> Latch(latch, i) == LastHeld(i.now)
    ensures latch.None? ==> Latch(latch, i) == LastHeld(i.now)
  {
  }

  /** The four release checks then, on an empty latch, the four press checks, in key order. */
  method UpdateLatch(latch: Option<int>, i: Input) returns (r: Option<int>)
    requires InputOk(i) && LatchOk(latch)
    ensures r == Latch(latch, i)
  {
    r := latch;
    if !i.now[DOWN] && i.prev[DOWN] && r == Some(DOWN) { r := None; }
    if !i.now[UP] && i.prev[UP] && r == Some(UP) { r := None; }
    if !i.now[LEFT] && i.prev[LEFT] && r == Some(LEFT) { r := None; }
    if !i.now[RIGHT] && i.prev[RIGHT] && r == Some(RIGHT) { r := None; }
    if r == None {
      if i.now[DOWN] { r := Some(DOWN); }
      if i.now[UP] { r := Some(UP); }
      if i.now[LEFT] { r := Some(LEFT); }
      if i.now[RIGHT] { r := Some(RIGHT); }
    }
  }

  /** The cell the player faces: one step in the latched direction, or in the current facing when nothing is latched. */
  function NextPos(pos: Vec2i, latch: Option<int>, curDir: int): (r: Vec2i)
    requires LatchOk(latch) && IsDir(curDir)
    ensures Abs(r.x - pos.x) + Abs(r.y - pos.y) == 1
    ensures latch.Some? ==> r == Walk(pos, latch.value)
  {
    Walk(pos, if latch.Some? then latch.value else curDir)
  }

  /** The faced cell is a grid neighbour of the player's cell. */
  lemma NextPosAdjacent(pos: Vec2i, latch: Option<int>, curDir: int)
    requires LatchOk(latch) && IsDir(curDir)
    ensures Abs(NextPos(pos, latch, curDir).x - pos.x) + Abs(NextPos(pos, latch, curDir).y - pos.y) == 1
    ensures latch.Some? ==> NextPos(pos, latch, curDir) == Add(pos, DirVec(latch.value))
    ensures latch.None? ==> NextPos(pos, latch, curDir) == Add(pos, DirVec(curDir))
  {
  }

  /** The `next_pos` match: the four latched cases, then the four facings when nothing is latched. */
  method FacedCell(pos: Vec2i, latch: Option<int>, curDir: int) returns (p: Vec2i)
    requires LatchOk(latch) && IsDir(curDir)
    ensures p == NextPos(pos, latch, curDir)
  {
    match latch
    case Some(d) =>
      if d == DOWN { p := Vec2i(pos.x, pos.y + 1); }
      else if d == UP { p := Vec2i(pos.x, pos.y - 1); }
      else if d == LEFT { p := Vec2i(pos.x - 1, pos.y); }
      else { p := Vec2i(pos.x + 1, pos.y); }
    case None =>
      if curDir == DOWN { p := Vec2i(pos.x, pos.y + 1); }
      else if curDir == UP { p := Vec2i(pos.x, pos.y - 1); }
      else if curDir == LEFT { p := Vec2i(pos.x - 1, pos.y); }
      else { p := Vec2i(pos.x + 1, pos.y); }
  }

  // ---------------------------------------------------------------------
  // One tick on a snapshot of the state
  // ---------------------------------------------------------------------

  /** The text box as the game logic sees it: shown or not, the rows, the page pointer and the reveal counter. */
  datatype TextView = TextView(isText: bool, rows: seq<seq<nat>>, rptr: nat, cptr: nat)

  /**
   * The state one tick changes: the player's grid cell, the step
   * countdown, the facing, the latch, the map's pixel offset, and the text.
   */
  datatype Snap = Snap(pos: Vec2i, movec: nat, curDir: int, nextDir: Option<int>, mapPos: Vec2i, text: TextView)

  predicate SnapOk(s: Snap)
  {
    IsDir(s.curDir) && LatchOk(s.nextDir)
  }

  /** Every NPC's text parses; `texts` maps each NPC cell to its text. */
  predicate TextsOk(texts: map<Vec2i, string>)
  {
    forall p :: p in texts ==> ParseSpec(texts[p]).Ok?
  }

  /** Talking to an NPC: the first press loads its text, later presses turn the page until the last one closes the box. */
  function Interact(t: TextView, npcText: string): TextView
    requires ParseSpec(npcText).Ok?
  {
    if t.isText then TextView(t.rptr + 2 < |t.rows|, t.rows, t.rptr + 2, 0)
    else TextView(true, ParseSpec(npcText).value, 1, 0)
  }

  /** The reveal counter grows by one per tick up to `40 * TSPEED`. */
  function Reveal(cptr: nat): nat
  {
    if cptr < 40 * TSPEED then cptr + 1 else cptr
  }

  /** The one-pixel map scroll of a countdown tick: opposite to the direction walked. */
  function ScrollDelta(dir: int): Vec2i
    requires IsDir(dir)
  {
    match dir
    case 0 => Vec2i(0, -1)
    case 1 => Vec2i(0, 1)
    case 2 => Vec2i(1, 0)
    case 3 => Vec2i(-1, 0)
  }

  /** The map scrolls against the walk, so the world seems to move under a centred player. */
  lemma ScrollDeltaOpposes(dir: int)
    requires IsDir(dir)
    ensures ScrollDelta(dir) == Vec2i(-DirVec(dir).x, -DirVec(dir).y)
  {
  }

  /** Whether the tick starts a step: idle, a direction latched, the cell walkable and free of NPCs. */
  predicate Steps(s: Snap, i: Input, canMoveTo: Vec2i -> bool, texts: map<Vec2i, string>)
    requires SnapOk(s) && InputOk(i)
  {
    var latch := Latch(s.nextDir, i);
    s.movec == 0 && latch.Some? && canMoveTo(NextPos(s.pos, latch, s.curDir))
    && NextPos(s.pos, latch, s.curDir) !in texts
  }

  /** Whether the tick talks: idle, Space pressed this tick (not held before), an NPC on the faced cell. */
  predicate Talks(s: Snap, i: Input, texts: map<Vec2i, string>)
    requires SnapOk(s) && InputOk(i)
  {
    s.movec == 0 && i.now[SPACE] && !i.prev[SPACE] && NextPos(s.pos, Latch(s.nextDir, i), s.curDir) in texts
  }

  /** The facing after the tick: the latched direction whenever the player is idle and something is latched. */
  function NewDir(s: Snap, i: Input): (d: int)
    requires SnapOk(s) && InputOk(i)
    ensures IsDir(d)
  {
    var latch := Latch(s.nextDir, i);
    if s.movec == 0 && latch.Some? then latch.value else s.curDir
  }

  /**
   * The idle part of a tick, on a snapshot whose latch is already updated:
   * face the latch, step onto `next` if the map allows it and no NPC stands
   * there, and talk to an NPC on `next` if Space was just pressed (`space`).
   */
  function IdleAct(s: Snap, next: Vec2i, space: bool, canMoveTo: Vec2i -> bool, texts: map<Vec2i, string>): (r: Snap)
    requires SnapOk(s) && TextsOk(texts)
    ensures SnapOk(r)
  {
    var stepped := s.nextDir.Some? && canMoveTo(next) && next !in texts;
    Snap(if stepped then next else s.pos, if stepped then 32 else s.movec,
         if s.nextDir.Some? then s.nextDir.value else s.curDir, s.nextDir, s.mapPos,
         if space && next in texts then Interact(s.text, texts[next]) else s.text)
  }

  /** The first part of a tick: the latch, then, only when idle, the facing, the step and the talk. */
  function Act(s: Snap, i: Input, canMoveTo: Vec2i -> bool, texts: map<Vec2i, string>): (r: Snap)
    requires SnapOk(s) && InputOk(i) && TextsOk(texts)
    ensures SnapOk(r)
  {
    var latch := Latch(s.nextDir, i);
    var s' := s.(nextDir := latch);
    if s.movec == 0 then IdleAct(s', NextPos(s.pos, latch, s.curDir), i.now[SPACE] && !i.prev[SPACE], canMoveTo, texts)
    else s'
  }

  /** The end of every tick: the reveal counter, then the countdown and its scroll. */
  function Settle(s: Snap): (r: Snap)
    requires SnapOk(s)
    ensures SnapOk(r)
  {
    var movec := if s.movec > 0 then s.movec - 1 else 0;
    s.(movec := movec,
       mapPos := if s.movec > 0 && movec % 2 == 1 then Add(s.mapPos, ScrollDelta(s.curDir)) else s.mapPos,
       text := s.text.(cptr := Reveal(s.text.cptr)))
  }

  /** One tick of `update_state`. `canMoveTo` is the map's walkability test and `texts` the NPC table's texts by cell. */
  function Step(s: Snap, i: Input, canMoveTo: Vec2i -> bool, texts: map<Vec2i, string>): (r: Snap)
    requires SnapOk(s) && InputOk(i) && TextsOk(texts)
    ensures SnapOk(r)
  {
    Settle(Act(s, i, canMoveTo, texts))
  }

  /**
   * Facing follows the latch: an idle player with a latched direction
   * faces it afterwards even when the step is blocked; a player mid-step
   * keeps its facing and its cell whatever is pressed.
   */
  lemma FacingFollowsLatch(s: Snap, i: Input, canMoveTo: Vec2i -> bool, texts: map<Vec2i, string>)
    requires SnapOk(s) && InputOk(i) && TextsOk(texts)
    ensures s.movec == 0 && Latch(s.nextDir, i).Some? ==>
              Step(s, i, canMoveTo, texts).curDir == Latch(s.nextDir, i).value
    ensures s.movec > 0 ==>
              Step(s, i, canMoveTo, texts).curDir == s.curDir && Step(s, i, canMoveTo, texts).pos == s.pos
    ensures Step(s, i, canMoveTo, texts).nextDir == Latch(s.nextDir, i)
  {
  }

  /**
   * The player changes cell exactly when a step starts; the step goes to
   * the faced cell, which must be walkable and free of NPCs, starts the
   * countdown (already at 31 after this tick's decrement) and scrolls the
   * map once.
   */
  lemma StepGating(s: Snap, i: Input, canMoveTo: Vec2i -> bool, texts: map<Vec2i, string>)
    requires SnapOk(s) && InputOk(i) && TextsOk(texts)
    ensures var r := Step(s, i, canMoveTo, texts);
            r.pos != s.pos <==> Steps(s, i, canMoveTo, texts)
    ensures var r := Step(s, i, canMoveTo, texts);
            Steps(s, i, canMoveTo, texts) ==>
              r.pos == NextPos(s.pos, Latch(s.nextDir, i), s.curDir) && canMoveTo(r.pos) && r.pos !in texts
              && r.movec == 31 && r.mapPos == Add(s.mapPos, ScrollDelta(r.curDir))
  {
    NextPosAdjacent(s.pos, Latch(s.nextDir, i), s.curDir);
  }

  /**
   * The countdown never exceeds 32 (in fact 31 after any tick): it drops
   * by one on every tick while running, and the map scrolls exactly when
   * the new value is odd.
   */
  lemma CountdownRules(s: Snap, i: Input, canMoveTo: Vec2i -> bool, texts: map<Vec2i, string>)
    requires SnapOk(s) && InputOk(i) && TextsOk(texts)
    ensures s.movec <= 32 ==> Step(s, i, canMoveTo, texts).movec < 32
    ensures s.movec > 0 ==> Step(s, i, canMoveTo, texts).movec == s.movec - 1
    ensures s.movec > 0 ==>
              Step(s, i, canMoveTo, texts).mapPos
              == (if (s.movec - 1) % 2 == 1 then Add(s.mapPos, ScrollDelta(s.curDir)) else s.mapPos)
  {
  }

  /**
   * Talking happens only when idle and never on the tick that starts a
   * step. The first press shows the NPC's text from its first page; a
   * later press turns the page and keeps the box open only while a page
   * is left.
   */
  lemma TalkRules(s: Snap, i: Input, canMoveTo: Vec2i -> bool, texts: map<Vec2i, string>)
    requires SnapOk(s) && InputOk(i) && TextsOk(texts)
    ensures Talks(s, i, texts) ==> !Steps(s, i, canMoveTo, texts) && s.movec == 0
    ensures var r := Step(s, i, canMoveTo, texts);
            Talks(s, i, texts) && !s.text.isText ==>
              r.text.isText && r.text.rows == ParseSpec(texts[NextPos(s.pos, Latch(s.nextDir, i), s.curDir)]).value
              && r.text.rptr == 1 && r.text.cptr == 1
    ensures var r := Step(s, i, canMoveTo, texts);
            Talks(s, i, texts) && s.text.isText ==>
              (r.text.isText <==> s.text.rptr + 2 < |s.text.rows|)
              && r.text.rows == s.text.rows && r.text.rptr == s.text.rptr + 2 && r.text.cptr == 1
    ensures var r := Step(s, i, canMoveTo, texts);
            !Talks(s, i, texts) ==>
              r.text.isText == s.text.isText && r.text.rows == s.text.rows && r.text.rptr == s.text.rptr
  {
  }

  /** The reveal counter never passes `40 * TSPEED`, and below it grows by one per tick without talking. */
  lemma RevealCapped(s: Snap, i: Input, canMoveTo: Vec2i -> bool, texts: map<Vec2i, string>)
    requires SnapOk(s) && InputOk(i) && TextsOk(texts)
    ensures s.text.cptr <= 40 * TSPEED ==> Step(s, i, canMoveTo, texts).text.cptr <= 40 * TSPEED
    ensures !Talks(s, i, texts) && s.text.cptr < 40 * TSPEED ==> Step(s, i, canMoveTo, texts).text.cptr == s.text.cptr + 1
    ensures !Talks(s, i, texts) && s.text.cptr == 40 * TSPEED ==> Step(s, i, canMoveTo, texts).text.cptr == 40 * TSPEED
  {
  }

  // ---------------------------------------------------------------------
  // Many ticks
  // ---------------------------------------------------------------------

  predicate InputsOk(ins: seq<Input>)
  {
    forall j :: 0 <= j < |ins| ==> InputOk(ins[j])
  }

  /** The snapshot after one tick per input, in order. */
  function Ticks(s: Snap, ins: seq<Input>, canMoveTo: Vec2i -> bool, texts: map<Vec2i, string>): (r: Snap)
    requires SnapOk(s) && InputsOk(ins) && TextsOk(texts)
    ensures SnapOk(r)
    ensures s.movec <= 32 ==> r.movec <= 32
    decreases |ins|
  {
    if ins == [] then s else Ticks(Step(s, ins[0], canMoveTo, texts), ins[1..], canMoveTo, texts)
  }

  /**
   * While the countdown runs, whatever is pressed, `k` ticks keep the
   * player's cell and facing, take `k` off the countdown, and scroll the
   * map once for each odd value it passes through below its start.
   */
  lemma Coasting(s: Snap, ins: seq<Input>, canMoveTo: Vec2i -> bool, texts: map<Vec2i, string>)
    requires SnapOk(s) && InputsOk(ins) && TextsOk(texts) && |ins| <= s.movec
    ensures var r := Ticks(s, ins, canMoveTo, texts);
            r.pos == s.pos && r.curDir == s.curDir && r.movec == s.movec - |ins|
    ensures var n := s.movec / 2 - (s.movec - |ins|) / 2;
            var d := ScrollDelta(s.curDir);
            Ticks(s, ins, canMoveTo, texts).mapPos == Scrolled(s.mapPos, n, d)
  {
    CoastingCell(s, ins, canMoveTo, texts);
    CoastingScroll(s, ins, canMoveTo, texts);
  }

  /** The cell, facing and countdown part of `Coasting`. */
  lemma {:induction false} CoastingCell(s: Snap, ins: seq<Input>, canMoveTo: Vec2i -> bool, texts: map<Vec2i, string>)
    requires SnapOk(s) && InputsOk(ins) && TextsOk(texts) && |ins| <= s.movec
    ensures var r := Ticks(s, ins, canMoveTo, texts);
            r.pos == s.pos && r.curDir == s.curDir && r.movec == s.movec - |ins|
    decreases |ins|
  {
    if ins != [] {
      var s' := Step(s, ins[0], canMoveTo, texts);
      CountdownRules(s, ins[0], canMoveTo, texts);
      FacingFollowsLatch(s, ins[0], canMoveTo, texts);
      assert Ticks(s, ins, canMoveTo, texts) == Ticks(s', ins[1..], canMoveTo, texts);
      CoastingCell(s', ins[1..], canMoveTo, texts);
    }
  }

  /** The scroll part of `Coasting`. */
  lemma {:induction false} CoastingScroll(s: Snap, ins: seq<Input>, canMoveTo: Vec2i -> bool, texts: map<Vec2i, string>)
    requires SnapOk(s) && InputsOk(ins) && TextsOk(texts) && |ins| <= s.movec
    ensures Ticks(s, ins, canMoveTo, texts).mapPos == Scrolled(s.mapPos, OddsPassed(s.movec, |ins|), ScrollDelta(s.curDir))
    decreases |ins|
  {
    if ins == [] {
      assert OddsPassed(s.movec, 0) == 0;
    } else {
      var s' := CoastTick(s, ins, canMoveTo, texts);
      var r := Ticks(s', ins[1..], canMoveTo, texts);
      CoastingScroll(s', ins[1..], canMoveTo, texts);
      HalvesPassed(s.movec, |ins|);
      ScrollSum(s.mapPos, s'.mapPos, r.mapPos, ScrollDelta(s.curDir),
                OddsPassed(s'.movec, |ins[1..]|), OddsPassed(s.movec, |ins|), (s.movec - 1) % 2 == 1);
    }
  }

  /** The first of several ticks while the countdown runs: the snapshot after it, and what it changed. */
  lemma CoastTick(s: Snap, ins: seq<Input>, canMoveTo: Vec2i -> bool, texts: map<Vec2i, string>) returns (s': Snap)
    requires SnapOk(s) && InputsOk(ins) && TextsOk(texts) && 0 < |ins| <= s.movec
    ensures SnapOk(s') && InputsOk(ins[1..]) && |ins[1..]| <= s'.movec
    ensures s'.curDir == s.curDir && s'.movec == s.movec - 1
    ensures s'.mapPos == if (s.movec - 1) % 2 == 1 then Add(s.mapPos, ScrollDelta(s.curDir)) else s.mapPos
    ensures Ticks(s, ins, canMoveTo, texts) == Ticks(s', ins[1..], canMoveTo, texts)
  {
    s' := Step(s, ins[0], canMoveTo, texts);
    CountdownRules(s, ins[0], canMoveTo, texts);
    FacingFollowsLatch(s, ins[0], canMoveTo, texts);
  }

  /** `p` after `n` scrolls by `d`. */
  function Scrolled(p: Vec2i, n: int, d: Vec2i): Vec2i
  {
    Vec2i(p.x + n * d.x, p.y + n * d.y)
  }

  /** How many odd values a countdown from `m` passes through in `k` ticks. */
  function OddsPassed(m: nat, k: nat): int
    requires k <= m
  {
    m / 2 - (m - k) / 2
  }

  /** Of the odd values a countdown from `m` passes through in `k` ticks, all but `m - 1` come in the last `k - 1` ticks. */
  lemma HalvesPassed(m: nat, k: nat)
    requires 0 < k <= m
    ensures OddsPassed(m, k) == OddsPassed(m - 1, k - 1) + if (m - 1) % 2 == 1 then 1 else 0
  {
  }

  /** One optional scroll by `d` followed by `n` more is `n` or `n + 1` scrolls. */
  lemma ScrollSum(p: Vec2i, q: Vec2i, r: Vec2i, d: Vec2i, n: int, m: int, odd: bool)
    requires q == (if odd then Add(p, d) else p)
    requires r == Scrolled(q, n, d)
    requires m == n + if odd then 1 else 0
    ensures r == Scrolled(p, m, d)
  {
    if odd {
      assert (n + 1) * d.x == n * d.x + d.x && (n + 1) * d.y == n * d.y + d.y;
    }
  }

  /**
   * A whole step: the tick that starts it and the 31 ticks after, whatever
   * is pressed in them, move the player one cell, bring the countdown back
   * to 0 and scroll the map by exactly one cell (16 one-pixel scrolls)
   * against the walk.
   */
  lemma StepCycle(s: Snap, ins: seq<Input>, canMoveTo: Vec2i -> bool, texts: map<Vec2i, string>)
    requires SnapOk(s) && InputsOk(ins) && TextsOk(texts) && |ins| == 32
    requires Steps(s, ins[0], canMoveTo, texts)
    ensures var r := Ticks(s, ins, canMoveTo, texts);
            var dir := Latch(s.nextDir, ins[0]).value;
            r.pos == Walk(s.pos, dir) && r.curDir == dir && r.movec == 0
            && r.mapPos == Vec2i(s.mapPos.x - MOVE_SZ * DirVec(dir).x, s.mapPos.y - MOVE_SZ * DirVec(dir).y)
  {
    var s' := Step(s, ins[0], canMoveTo, texts);
    var dir := Latch(s.nextDir, ins[0]).value;
    StepGating(s, ins[0], canMoveTo, texts);
    FacingFollowsLatch(s, ins[0], canMoveTo, texts);
    assert s'.curDir == dir && s'.movec == 31 && s'.pos == Walk(s.pos, dir);
    var d := ScrollDelta(dir);
    assert s'.mapPos == Add(s.mapPos, d);
    var r := Ticks(s', ins[1..], canMoveTo, texts);
    assert Ticks(s, ins, canMoveTo, texts) == r;
    Coasting(s', ins[1..], canMoveTo, texts);
    assert r.mapPos == Vec2i(s'.mapPos.x + 15 * d.x, s'.mapPos.y + 15 * d.y);
    ScrollDeltaOpposes(dir);
  }

  // ---------------------------------------------------------------------
  // The game state
  // ---------------------------------------------------------------------

  class State {
    const tilemap: Tilemap
    const anims: AnimationSet
    const sprite: Sprite
    const npcs: NPCSet
    var movec: nat
    var curDir: int
    var nextDir: Option<int>
    var isText: bool
    const textbox: Textbox
    /** The player's grid cell. */
    var pos: Vec2i

    ghost predicate Valid()
      reads this, textbox
    {
      textbox.Valid() && IsDir(curDir) && LatchOk(nextDir) && movec <= 32
      && (forall a: Action :: a in anims.animations)
      && TextsOk(Texts())
    }

    /** The NPC table's texts by cell. */
    function Texts(): (t: map<Vec2i, string>)
      ensures t.Keys == npcs.dict.Keys
    {
      map p | p in npcs.dict :: npcs.dict[p].text
    }

    ghost function Snapshot(): Snap
      reads this, tilemap, textbox
    {
      Snap(pos, movec, curDir, nextDir, tilemap.position, TextView(isText, textbox.rows, textbox.rptr, textbox.cptr))
    }

    /** The state `State::new` builds: the player standing on `START`, facing Down, on a fresh StandD animation. */
    constructor (tilemap: Tilemap, anims: AnimationSet, sprite: Sprite, npcs: NPCSet, textbox: Textbox)
      requires textbox.Valid() && (forall a: Action :: a in anims.animations)
      requires forall p :: p in npcs.dict ==> ParseSpec(npcs.dict[p].text).Ok?
      requires sprite.animationState.action == StandD && sprite.animationState.animation == anims.animations[StandD]
      requires sprite.animationState.startTime == 0 && sprite.animationState.now == 0
      ensures Valid()
      ensures sprite.animationState.action == StandD && sprite.animationState.animation == anims.animations[StandD]
      ensures sprite.animationState.startTime == 0 && sprite.animationState.now == 0
      ensures this.tilemap == tilemap && this.anims == anims && this.sprite == sprite && this.npcs == npcs
      ensures this.textbox == textbox
      ensures movec == 0 && curDir == DOWN && nextDir == None && !isText && pos == START
    {
      this.tilemap := tilemap;
      this.anims := anims;
      this.sprite := sprite;
      this.npcs := npcs;
      this.textbox := textbox;
      movec := 0;
      curDir := DOWN;
      nextDir := None;
      isText := false;
      pos := START;
    }

    /** Restart the player's sprite on the animation of `act`. */
    method Anim(act: Action)
      requires act in anims.animations
      modifies sprite
      ensures fresh(sprite.animationState)
      ensures sprite.animationState.action == act && sprite.animationState.animation == anims.animations[act]
      ensures sprite.animationState.startTime == 0 && sprite.animationState.now == 0
      ensures sprite.shape == old(sprite.shape)
    {
      sprite.animationState := anims.PlayAnimation(act);
    }

    /** Scroll the map one pixel against the facing; a facing outside 0..3 does nothing. */
    method Translate()
      modifies tilemap
      ensures IsDir(curDir) ==> tilemap.position == Add(old(tilemap.position), ScrollDelta(curDir))
      ensures !IsDir(curDir) ==> tilemap.position == old(tilemap.position)
    {
      if curDir == DOWN { tilemap.TranslateY(-1); }
      else if curDir == UP { tilemap.TranslateY(1); }
      else if curDir == LEFT { tilemap.TranslateX(1); }
      else if curDir == RIGHT { tilemap.TranslateX(-1); }
    }

    /**
     * One tick: latch, faced cell, facing and walk animation, step, talk,
     * reveal, countdown. The snapshot moves as `Step` says; the sprite
     * restarts its animation as the facing rules say; only the NPC talked
     * to turns.
     */
    method UpdateState(now: seq<bool>, prev: seq<bool>, canMoveTo: Vec2i -> bool)
      requires Valid() && InputOk(Input(now, prev))
      modifies this, tilemap, sprite, textbox, npcs.On(NextPos(pos, Latch(nextDir, Input(now, prev)), curDir))
      ensures Valid()
      ensures Snapshot() == Step(old(Snapshot()), Input(now, prev), canMoveTo, Texts())
      ensures textbox.base == old(textbox.base) && textbox.position == old(textbox.position)
      ensures var latch := Latch(old(nextDir), Input(now, prev));
              old(movec) == 0 && latch.None? ==> fresh(sprite.animationState) && Restarted(Stand(old(curDir)))
      ensures var latch := Latch(old(nextDir), Input(now, prev));
              old(movec) == 0 && latch.Some? && (old(curDir) != latch.value || IsStanding(old(sprite.animationState).action)) ==>
                fresh(sprite.animationState) && Restarted(WalkIn(latch.value))
      ensures var latch := Latch(old(nextDir), Input(now, prev));
              !(old(movec) == 0 && (latch.None? || old(curDir) != latch.value || IsStanding(old(sprite.animationState).action))) ==>
                sprite.animationState == old(sprite.animationState)
      ensures sprite.shape == old(sprite.shape)
      ensures var faced := NextPos(old(pos), Latch(old(nextDir), Input(now, prev)), old(curDir));
              faced in npcs.dict ==>
                npcs.dict[faced].curDir
                == if old(movec) == 0 && now[SPACE] && !prev[SPACE] && !old(isText) then Opposite(curDir)
                   else old(npcs.dict[faced].curDir)
    {
      ActOn(Input(now, prev), canMoveTo);
      ghost var anim, animNow := sprite.animationState, sprite.animationState.now;
      FinishTick();
      assert sprite.animationState == anim && anim.now == animNow;
    }

    /** The latch, then, when idle, the facing, the step and the talk: everything of a tick but its countdowns. */
    method ActOn(i: Input, canMoveTo: Vec2i -> bool)
      requires Valid() && InputOk(i)
      modifies this, sprite, textbox, npcs.On(NextPos(pos, Latch(nextDir, i), curDir))
      ensures Valid()
      ensures Snapshot() == Act(old(Snapshot()), i, canMoveTo, Texts())
      ensures textbox.base == old(textbox.base) && textbox.position == old(textbox.position)
      ensures var latch := Latch(old(nextDir), i);
              old(movec) == 0 && latch.None? ==> fresh(sprite.animationState) && Restarted(Stand(old(curDir)))
      ensures var latch := Latch(old(nextDir), i);
              old(movec) == 0 && latch.Some? && (old(curDir) != latch.value || IsStanding(old(sprite.animationState).action)) ==>
                fresh(sprite.animationState) && Restarted(WalkIn(latch.value))
      ensures var latch := Latch(old(nextDir), i);
              !(old(movec) == 0 && (latch.None? || old(curDir) != latch.value || IsStanding(old(sprite.animationState).action))) ==>
                sprite.animationState == old(sprite.animationState)
      ensures sprite.shape == old(sprite.shape)
      ensures var faced := NextPos(old(pos), Latch(old(nextDir), i), old(curDir));
              faced in npcs.dict ==>
                npcs.dict[faced].curDir
                == if old(movec) == 0 && i.now[SPACE] && !i.prev[SPACE] && !old(isText) then Opposite(curDir)
                   else old(npcs.dict[faced].curDir)
    {
      ghost var s0 := Snapshot();
      nextDir := UpdateLatch(nextDir, i);
      var nextPos := FacedCell(pos, nextDir, curDir);
      assert Snapshot() == s0.(nextDir := Latch(s0.nextDir, i));
      if movec == 0 {
        Idle(nextPos, i.now[SPACE] && !i.prev[SPACE], canMoveTo);
      }
    }

    /** The animation state was just restarted on `act`. */
    ghost predicate Restarted(act: Action)
      reads sprite, sprite.animationState
    {
      sprite.animationState.action == act && sprite.animationState.startTime == 0 && sprite.animationState.now == 0
      && act in anims.animations && sprite.animationState.animation == anims.animations[act]
    }

    /** The end of every tick: the reveal counter, then the countdown. */
    method FinishTick()
      requires Valid()
      modifies this, tilemap, textbox
      ensures Valid()
      ensures Snapshot() == Settle(old(Snapshot()))
      ensures isText == old(isText) && textbox.rows == old(textbox.rows) && textbox.rptr == old(textbox.rptr)
      ensures textbox.base == old(textbox.base) && textbox.position == old(textbox.position)
    {
      RevealTick();
      CountdownTick();
    }

    /**
     * The idle part of a tick: face the latch (or stand), step if the faced
     * cell is walkable and free, and talk on a Space press (`space`).
     */
    method Idle(nextPos: Vec2i, space: bool, canMoveTo: Vec2i -> bool)
      requires Valid() && movec == 0 && nextPos == NextPos(pos, nextDir, curDir)
      modifies this, sprite, textbox, npcs.On(nextPos)
      ensures Valid()
      ensures Snapshot() == IdleAct(old(Snapshot()), nextPos, space, canMoveTo, Texts())
      ensures textbox.base == old(textbox.base) && textbox.position == old(textbox.position)
      ensures nextDir.None? ==> fresh(sprite.animationState) && Restarted(Stand(old(curDir)))
      ensures nextDir.Some? && (old(curDir) != nextDir.value || IsStanding(old(sprite.animationState).action)) ==>
                fresh(sprite.animationState) && Restarted(WalkIn(nextDir.value))
      ensures nextDir.Some? && !(old(curDir) != nextDir.value || IsStanding(old(sprite.animationState).action)) ==>
                sprite.animationState == old(sprite.animationState)
      ensures sprite.shape == old(sprite.shape)
      ensures nextPos in npcs.dict ==>
                npcs.dict[nextPos].curDir
                == if space && !old(isText) then Opposite(curDir) else old(npcs.dict[nextPos].curDir)
    {
      Turn();
      ghost var anim, animNow := sprite.animationState, sprite.animationState.now;
      TryStep(nextPos, canMoveTo);
      if space {
        assert nextPos in npcs.dict ==> Texts()[nextPos] == npcs.dict[nextPos].text;
        Talk(nextPos);
      }
      assert sprite.animationState == anim && anim.now == animNow;
    }

    /** The text box as the game logic sees it. */
    ghost function View(): TextView
      reads this, textbox
    {
      TextView(isText, textbox.rows, textbox.rptr, textbox.cptr)
    }

    /** Walk onto the faced cell when a direction is latched, the map allows it and no NPC stands there. */
    method TryStep(nextPos: Vec2i, canMoveTo: Vec2i -> bool)
      requires IsDir(curDir) && LatchOk(nextDir) && (nextDir.Some? ==> nextPos == Walk(pos, curDir))
      modifies this
      ensures var stepped := nextDir.Some? && canMoveTo(nextPos) && nextPos !in npcs.dict;
              pos == (if stepped then nextPos else old(pos)) && movec == (if stepped then 32 else old(movec))
      ensures curDir == old(curDir) && nextDir == old(nextDir) && isText == old(isText)
    {
      if nextDir.Some? && canMoveTo(nextPos) && npcs.At(nextPos).None? {
        pos := Walk(pos, curDir);
        movec := 32;
      }
    }

    /** Space on the faced cell: an NPC there is talked to, an empty cell does nothing. */
    method Talk(nextPos: Vec2i)
      requires textbox.Valid() && IsDir(curDir) && (nextPos in npcs.dict ==> ParseSpec(npcs.dict[nextPos].text).Ok?)
      modifies this, textbox, npcs.On(nextPos)
      ensures textbox.Valid()
      ensures View() == if nextPos in npcs.dict then Interact(old(View()), npcs.dict[nextPos].text) else old(View())
      ensures textbox.base == old(textbox.base) && textbox.position == old(textbox.position)
      ensures movec == old(movec) && curDir == old(curDir) && nextDir == old(nextDir) && pos == old(pos)
      ensures nextPos in npcs.dict ==>
                npcs.dict[nextPos].curDir == if !old(isText) then Opposite(curDir) else old(npcs.dict[nextPos].curDir)
    {
      var npc := npcs.At(nextPos);
      if npc.Some? {
        ghost var faceBefore := npc.value.curDir;
        if isText {
          TurnPage();
          assert npc.value.curDir == faceBefore;
        } else {
          StartTalk(npc.value);
        }
      }
    }

    /** Space while a text is shown: the next page, and the box closes after the last one. */
    method TurnPage()
      requires textbox.Valid() && isText
      modifies this, textbox
      ensures textbox.Valid()
      ensures View() == TextView(old(textbox.rptr) + 2 < |old(textbox.rows)|, old(textbox.rows), old(textbox.rptr) + 2, 0)
      ensures textbox.base == old(textbox.base) && textbox.position == old(textbox.position)
      ensures movec == old(movec) && curDir == old(curDir) && nextDir == old(nextDir) && pos == old(pos)
    {
      isText := textbox.Scroll();
    }

    /** Space on an NPC while no text is shown: it turns to the player and its text opens. */
    method StartTalk(npc: NPC)
      requires textbox.Valid() && !isText && IsDir(curDir) && ParseSpec(npc.text).Ok?
      modifies this, textbox, npc
      ensures textbox.Valid()
      ensures movec == old(movec) && curDir == old(curDir) && nextDir == old(nextDir) && pos == old(pos)
      ensures View() == TextView(true, ParseSpec(npc.text).value, 1, 0)
      ensures npc.curDir == Opposite(curDir)
      ensures textbox.base == old(textbox.base) && textbox.position == old(textbox.position)
    {
      npc.TurnToFace(curDir);
      textbox.SetText(npc.text);
      isText := !isText;
    }

    /** The typewriter reveal: one more glyph position per tick, up to the cap. */
    method RevealTick()
      modifies textbox
      ensures textbox.cptr == Reveal(old(textbox.cptr))
      ensures textbox.rows == old(textbox.rows) && textbox.rptr == old(textbox.rptr)
      ensures textbox.base == old(textbox.base) && textbox.position == old(textbox.position)
    {
      if textbox.cptr < 40 * TSPEED {
        textbox.cptr := textbox.cptr + 1;
      }
    }

    /** The step countdown: one less per tick while running, with a map scroll on every odd new value. */
    method CountdownTick()
      requires IsDir(curDir)
      modifies this, tilemap
      ensures curDir == old(curDir) && nextDir == old(nextDir) && pos == old(pos) && isText == old(isText)
      ensures movec == if old(movec) > 0 then old(movec) - 1 else 0
      ensures tilemap.position
              == if old(movec) > 0 && movec % 2 == 1 then Add(old(tilemap.position), ScrollDelta(curDir))
                 else old(tilemap.position)
    {
      if movec > 0 {
        movec := movec - 1;
        if movec % 2 == 1 {
          Translate();
        }
      }
    }

    /** The idle tick's facing: stand when nothing is latched, else face the latch and walk. */
    method Turn()
      requires IsDir(curDir) && LatchOk(nextDir) && forall a: Action :: a in anims.animations
      modifies this, sprite
      ensures IsDir(curDir) && curDir == (if nextDir.Some? then nextDir.value else old(curDir))
      ensures nextDir.None? ==> fresh(sprite.animationState) && Restarted(Stand(curDir))
      ensures nextDir.Some? && (old(curDir) != nextDir.value || IsStanding(old(sprite.animationState).action)) ==>
                fresh(sprite.animationState) && Restarted(WalkIn(curDir))
      ensures nextDir.Some? && !(old(curDir) != nextDir.value || IsStanding(old(sprite.animationState).action)) ==>
                sprite.animationState == old(sprite.animationState)
      ensures movec == old(movec) && nextDir == old(nextDir) && isText == old(isText) && pos == old(pos)
      ensures sprite.shape == old(sprite.shape)
    {
      if nextDir == None {
        Anim(Stand(curDir));
      } else if curDir != nextDir.value || IsStanding(sprite.animationState.action) {
        curDir := nextDir.value;
        Anim(WalkIn(curDir));
      }
    }
  }
}

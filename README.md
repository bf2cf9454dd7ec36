# A verified model of a tile-based RPG engine

This project models the game logic of a small top-down tile RPG and the
integer geometry of its software compositor. The engine is a Rust crate with
a game on top of it. The game logic runs one tick per frame: a direction
latch, a grid step with a 32-tick countdown, talking to NPCs, and a
typewriter text box. The compositor covers rectangle tests, in-place pixel
buffer painting, clipped blits, the tile grid, animation playback, the
dialogue tokenizer and line breaker, and the game's glyph and NPC tables.

Files and modules:

- `types.dfy` (`Types`): `Vec2i`, `Rect` and `Color`, directions, and the
  screen constants.
- `images.dfy` (`Images`): the `Image` pixel buffer as a class over an
  `array<Color>`. It has in-place `Clear`, `DrawRect`, `DrawBall`, `HLine`
  and `Bitblt`, each proved against a function on the buffer's contents.
  Around those are lemmas on which cells change, the clipping bounds, and
  the blend's opaque and zero-pixel cases.
- `tiles.dfy` (`Tiles`): `Tileset` and `Tilemap`. It covers tile lookup
  with Rust's truncating division, scrolling, and drawing as a row-major
  sequence of blits.
- `animations.dfy` (`Animations`) and `sprite.dfy` (`Actions`, `Sprites`):
  frame choice, the looping tick, and `play_animation`.
- `npc.dfy` (`Npcs`): NPC facing, the position-keyed table, and the draw
  placement arithmetic.
- `text.dfy` (`Text`): `parse`, in two forms:
  - a specification, made of a tokenizer and a line breaker folded over
    the input;
  - the imperative two-loop method proved equal to it.

  The module also has the `Textbox` and `Textscreen` counters, and the
  frame choice that `Textbox::draw` makes for each cell.
- `world.dfy` (`World`): the glyph table, the player's animation table, and
  the three levels' NPC lists.
- `game.dfy` (`Game`):
  - `Step` is one tick of `update_state` on a value snapshot, with its
    rules proved as lemmas;
  - `Ticks` and the lemmas `Coasting` and `StepCycle` cover many ticks;
  - the class `State` performs the tick in place and is proved to agree
    with `Step`.

Decisions:

- Panics in `parse` (a bad apostrophe, an empty word, a word longer than a
  row) are modelled as `Err` results.
- The other panics are modelled as preconditions. These are:
  - an invalid direction code;
  - `hline`'s three asserts (`HLine`);
  - `draw_ball` reading `ball[coli]` out of range, or casting a negative
    index (`BallSafe`);
  - `bitblt` with `from` outside the source, with a negative `from` size,
    or with a zero row width for `chunks_exact` (`Bitblt`'s requires);
  - `Tilemap::draw` on a zero width for `chunks_exact` (`dims.0 > 0`);
    `Draw` also requires a screen of positive width for every call, which
    is stronger than `bitblt`'s need of it only for an on-screen blit; the
    game always draws to the framebuffer, `WIDTH` (176) pixels wide;
  - `tile_id_at` at a point outside the grid (`Locatable`);
  - a missing animation;
  - a non-looping animation ticked past its last frame, or a `now` before
    `start_time` (`TickOk`);
  - a grid of the wrong length;
  - an unknown level, or a dialogue key missing from the dialogue map
    (`LevelNpcs`);
  - `Textbox::draw`'s `unwrap`s and `rows.len()-1` on a box without rows
    (`Drawable`);
  - `set_text` on a text that `parse` rejects (`SetText` requires a
    successful `ParseSpec`; `State.Valid` keeps every NPC text parseable).
- The map's walkability test `can_move_to` is a function parameter
  (`canMoveTo`).
- The keyboard arrives as the two key arrays of this tick and the last
  (`Input`).
- The dialogue file's contents arrive as a map from key to text.

The latch takes the **last** held direction in key order Down, Up,
Left, Right, because each press check overwrites the one before
(`game/src/main.rs:99-104`). It does not take the first.

## Model

| member | source | states |
|---|---|---|
| Types.Walk | engine/src/types.rs:36-44 | each legal direction code moves exactly one coordinate by one: 0 is y+1, 1 is y-1, 2 is x-1, 3 is x+1 |
| Types.WalkIsUnitStep | engine/src/types.rs:36-44 | a walk adds the direction's unit vector, changes exactly one coordinate, and moves Manhattan distance 1 |
| Types.PixelX | engine/src/types.rs:46-48 | the pixel column is a multiple of 16, and dividing it by 16 gives the cell's column back |
| Types.PixelY | engine/src/types.rs:50-52 | the pixel row is a multiple of 16, and dividing it by 16 gives the cell's row back |
| Types.Add | engine/src/types.rs:59-68 | subtracting the second operand from the sum gives the first back |
| Types.Sub | engine/src/types.rs:70-79 | the difference added to the second operand gives the first, on both axes |
| Types.Get | engine/src/types.rs:46-56 | the pixel position of a cell is a multiple of 16 on both axes, and dividing by 16 gives the cell back |
| Types.AddSubInverse | engine/src/types.rs:59-79 | subtraction undoes addition and the other way round; addition commutes |
| Types.Contains | engine/src/types.rs:88-92 | containment holds iff the other rectangle's corners lie within self's on both axes (both directions of the iff) |
| Types.ContainsOrder | engine/src/types.rs:88-92 | containment is reflexive and transitive |
| Types.ContainsPoint | engine/src/types.rs:94-99 | a point is inside iff it lies between `pos` and `pos + sz` inclusive on both axes |
| Types.ContainsPointCorners | engine/src/types.rs:94-99 | both the top-left corner and `pos + sz` are inside; one pixel past the right edge is not |
| Types.MoveBy | engine/src/types.rs:101-104 | the size is kept and the position moves by exactly (dx, dy) |
| Types.Bottom | engine/src/types.rs:106-108 | for a rectangle of non-negative size, the bottom edge is the last row the rectangle contains |
| Types.BottomMoveBy | engine/src/types.rs:106-108 | the bottom edge moves with dy and lies one height below the top |
| Images.Image.constructor | engine/src/types.rs:118-123 | a fresh buffer of width times height opaque black pixels |
| Images.Image.Clear | engine/src/types.rs:153-155 | every cell becomes the colour |
| Images.Image.DrawRect | engine/src/types.rs:157-166 | the buffer becomes `PaintSpec` with the solid brush; rows and columns are visited in order |
| Images.PaintSpecCells | engine/src/types.rs:157-166 | a cell changes, to the colour, exactly when it is the linear index `y*w + x` of a visited cell with the index in `[0, w*h)`; all other cells are unchanged. The test is on the linear index, not per axis |
| Images.Image.DrawBall | engine/src/types.rs:168-193 | the buffer becomes `PaintSpec` with the stencil brush and colour `(r, g, 0, 255)`, the running counter `coli` selecting the stencil bit |
| Images.Image.BallRow | engine/src/types.rs:182-191 | one row of `draw_ball`: the buffer becomes that row's `PaintRow`, and the counter advances by the row width |
| Images.BallCell | engine/src/types.rs:183-189 | a visited cell that passes the source's guard reads the stencil in bounds, and is painted iff its stencil bit is set |
| Images.Image.HLine | engine/src/types.rs:195-200 | exactly the cells `y*w + x0 .. y*w + x1` (x1 excluded) become the colour; the rest are unchanged |
| Images.BlendOpaque | engine/src/types.rs:247-258 | an opaque source pixel overwrites the destination with `(r, g, b, 255)` |
| Images.BlendZeroPixel | engine/src/types.rs:247-258 | a `(0,0,0,0)` source pixel leaves the destination unchanged |
| Images.Image.Bitblt | engine/src/types.rs:202-261 | the buffer becomes `BlitResult`: unchanged when off-screen, otherwise `BlitSpec` |
| Images.Image.BlitRow | engine/src/types.rs:235-259 | one destination row: exactly its clipped cells are blended with the source pixel; every other cell is unchanged |
| Images.BlitOffScreenNoop | engine/src/types.rs:203-211 | an entirely off-screen placement leaves the destination unchanged |
| Images.BlitFootprint | engine/src/types.rs:215-258 | only cells inside the clipped placement change; each is blended with the source pixel at the matching offset, which lies inside `from` |
| Images.BlitClipBounds | engine/src/types.rs:215-244 | the skip and count values are ordered within the rectangle, and the clipped rows and columns lie inside both the destination and the source |
| Images.ApplyBlitsSnoc | engine/src/types.rs:202-261 | a sequence of blits is applied one call after another, in order |
| Tiles.Tileset.GetRect | engine/src/tiles.rs:38-54 | the rectangle of tile `id` is 8x8 at `(8*(id mod tw), 8*(id / tw))` |
| Tiles.GetRectInSheet | engine/src/tiles.rs:38-54 | the rectangle lies inside the sheet iff `id` is below tiles-per-row times rows-of-tiles |
| Tiles.Tileset.Index | engine/src/tiles.rs:23-28 | an in-range id yields the tileset's tile at that index |
| Tiles.Tilemap.constructor | engine/src/tiles.rs:70-83 | a grid whose length is not width times height is rejected; otherwise the grid is kept as given |
| Tiles.TruncDiv | engine/src/tiles.rs:85-97 | Rust's signed division: the remainder `a - q*b` lies in `[0, b)` for non-negative `a` and in `(-b, 0]` for negative `a`, so the quotient truncates toward zero |
| Tiles.Tilemap.TileIdAt | engine/src/tiles.rs:85-97 | the id is the row-major entry `y*w + x` of the cell under `p`, and the corner is `position` plus 8 times that cell |
| Tiles.TileIdAtCorner | engine/src/tiles.rs:85-97 | the corner minus `position` is a multiple of 8 on both axes; for a point right of and below `position`, the 8x8 tile at the corner contains it |
| Tiles.TileIdAtTruncates | engine/src/tiles.rs:85-97 | a point less than one tile left of the map truncates to column 0, so a corner to its right is reported |
| Tiles.Tilemap.Size | engine/src/tiles.rs:99-101 | width times height equals the number of grid entries |
| Tiles.Tilemap.TileAt | engine/src/tiles.rs:103-106 | the same corner as `TileIdAt`, with the tileset's entry for that id |
| Tiles.Tilemap.Translate | engine/src/tiles.rs:108-110 | `position` gains the delta; dims and grid are constants |
| Tiles.Tilemap.TranslateX | engine/src/tiles.rs:112-114 | only the x coordinate of `position` changes, by the delta |
| Tiles.Tilemap.TranslateY | engine/src/tiles.rs:116-118 | only the y coordinate of `position` changes, by the delta |
| Tiles.Tilemap.TileBlits | engine/src/tiles.rs:120-131 | one blit per grid entry |
| Tiles.TileBlitsRowMajor | engine/src/tiles.rs:120-131 | `w*h` blits in row-major order; blit `(x, y)` takes tile `grid[y*w + x]` to `position + (8x, 8y)` |
| Tiles.Tilemap.Draw | engine/src/tiles.rs:120-131 | the screen becomes the result of applying those blits in order |
| Tiles.Tilemap.DrawRow | engine/src/tiles.rs:122-130 | drawing one row extends the applied prefix of blits by that row's `w` blits |
| Tiles.TileBlitsPre | engine/src/tiles.rs:120-131 | with every grid id inside the sheet, every blit of `draw` meets `bitblt`'s requirement on `from` |
| Animations.InitialFrame | engine/src/animations.rs:20-22 | the opening frame is the first of the animation's frames |
| Animations.CurrentFrame | engine/src/animations.rs:24-27 | the frame shown is one of the animation's frames, and the first one during the whole first `speedup` period |
| Animations.IsFinished | engine/src/animations.rs:30-33 | an animation without frames is finished from the start; an unfinished one has frames |
| Animations.FrameIndexPeriods | engine/src/animations.rs:24-27 | the frame index is the number of whole `speedup` periods since `start_time`; it is 0 at the start |
| Animations.CurrentFrameAtStart | engine/src/animations.rs:20-27 | at the start time the current frame is the initial frame |
| Animations.IsFinishedIff | engine/src/animations.rs:30-33 | finished iff the elapsed time reaches `speedup` times the frame count, that is, iff the frame index is out of range |
| Animations.TimingsIgnored | engine/src/animations.rs:24-33 | replacing `frame_timings` changes neither the frame nor `is_finished` |
| Animations.NextNowCases | engine/src/animations.rs:51-59 | a tick adds 1 to `now`, or resets it to 0 exactly when the animation loops and is then finished (both directions); a non-looping animation never resets |
| Animations.LoopingTickInBounds | engine/src/animations.rs:51-62 | a looping animation with frames, started at 0, never indexes out of bounds, whatever `now` is |
| Animations.NonLoopingTickPanics | engine/src/animations.rs:24-61 | a non-looping tick is safe iff the elapsed time stays below `speedup` times the frame count |
| Animations.NowAfterTicksPeriodic | engine/src/animations.rs:51-62 | after k ticks from a fresh start, `now` is k modulo `speedup` times the frame count, and the frame index is in range |
| Animations.SingleFrameConstant | engine/src/animations.rs:51-62 | a single-frame looping animation always shows its one frame |
| Animations.AnimationState.Tick | engine/src/animations.rs:51-62 | `now` advances as `NextNow`; the index used is in range; the returned frame is the current frame; start time, action and animation are constants |
| Animations.AnimationSet.GetAnimation | engine/src/animations.rs:71-74 | a present action yields the table's animation for that action |
| Animations.AnimationSet.PlayAnimation | engine/src/animations.rs:76-83 | a fresh state with start 0, now 0, the action, and the table's animation for it |
| Actions.Stand | game/src/main.rs:125-131 | the standing action of a direction is a standing action: Down gives StandD, Up StandU, Left StandL, Right StandR |
| Actions.WalkIn | game/src/main.rs:137-143 | the walking action of a direction is not a standing action: Down gives WalkD, Up WalkU, Left WalkL, Right WalkR |
| Actions.ActionsByDirection | engine/src/sprite.rs:5-14 | the eight actions are exactly stand and walk for each of the four directions, with no overlaps |
| Sprites.Sprite.PlayAnimation | engine/src/sprite.rs:16-25 | returns exactly what the tick of its animation state returns; only `now` of that state changes |
| Npcs.Opposite | engine/src/npc.rs:27-35 | the opposite of a legal direction is a legal direction |
| Npcs.OppositeFacesBack | engine/src/npc.rs:27-35 | facing is an involution without fixed points; the opposite's unit vector is negated, so walking back returns to the start |
| Npcs.NPC.constructor | engine/src/npc.rs:16-25 | current and default facing are both `dir`; `talked` is false |
| Npcs.NPC.TurnToFace | engine/src/npc.rs:27-35 | the facing becomes the opposite of `dir`; `talked` is unchanged and the other fields are constants |
| Npcs.NPC.ResetDir | engine/src/npc.rs:37-39 | the facing becomes the default facing; a second call changes nothing more |
| Npcs.TableOfKeys | engine/src/npc.rs:52-55 | the table's keys are exactly the NPCs' positions, and each entry is a listed NPC stored under its own position |
| Npcs.TableOfLaterWins | engine/src/npc.rs:52-55 | an NPC that no later NPC shares a position with is the one stored at its position |
| Npcs.NPCSet.constructor | engine/src/npc.rs:51-63 | the table is the list inserted in order, a later NPC replacing an earlier one; `fin` is false |
| Npcs.NPCSet.At | engine/src/npc.rs:90-92 | `Some` exactly when an NPC is registered at `pos`, and then that NPC |
| Npcs.SubPos | engine/src/npc.rs:66-72 | the shift lies on one axis and has length `movec / 2` |
| Npcs.Placement | engine/src/npc.rs:74-86 | the blit takes an `npc_sz` cell; without the step shift, it lands on the 16-pixel grid (2 lower for sprites taller than 16), at (80, 80) for an NPC on the player's cell |
| Npcs.NPCSet.DrawBlits | engine/src/npc.rs:76-87 | every NPC of the table is drawn at its placement, every blit takes an `npc_sz` cell, and an empty table draws nothing |
| Npcs.SubPosAlongDirection | engine/src/npc.rs:66-72 | the shift is `movec/2` along the walking direction's unit vector, with magnitude `movec/2`, at most 16 during a step |
| Npcs.PlacementGrid | engine/src/npc.rs:74-86 | NPCs are placed 16 pixels per cell apart; one on the player's cell sits at (80, 80) plus the shift, 2 lower for sprites taller than 16; the sheet cell is (facing, id) |
| Text.ContractionCodes | engine/src/text.rs:119-131 | the letters d, l, s, t, v, r, m after an apostrophe have codes 256..262 in that order; no other letter has one |
| Text.ApostropheCodes | engine/src/text.rs:119-131 | after an apostrophe, the character is accepted iff it is one of the seven letters, and the word gains its code |
| Text.QuoteParity | engine/src/text.rs:133-135 | the quote flag is set iff an odd number of double quotes has been read |
| Text.QuoteCodes | engine/src/text.rs:133-135 | double quotes alternate: the next quote becomes 263 after an even count and 264 after an odd one |
| Text.TokErrPersists | engine/src/text.rs:115-140 | once the tokenizer fails, it stays failed with the same error |
| Text.TokWordsGrow | engine/src/text.rs:115-140 | the finished words of a shorter prefix are a prefix of those of a longer one |
| Text.LayErrPersists | engine/src/text.rs:145-162 | once the line breaker fails, it stays failed with the same error |
| Text.WordPlacement | engine/src/text.rs:151-160 | a word starts a new row when `li + len + 1 >= 20` or after a sentence end; it is written at its column, cells outside it are kept, and the next column is one blank past it |
| Text.SentenceStartsPage | engine/src/text.rs:146-161 | after a word ending in `!`, `?`, `.` or `*`, the next word starts at column 0 of a row with an even index, the top of a page |
| Text.ParseSpec | engine/src/text.rs:110-168 | a successful parse yields a positive, even number of 20-column rows |
| Text.EmptyWordPanics | engine/src/text.rs:116-161 | an empty word anywhere makes the parse fail |
| Text.TrailingWhitespacePanics | engine/src/text.rs:116-161 | empty input, or input ending in whitespace, makes the parse fail |
| Text.DoubledWhitespacePanics | engine/src/text.rs:116-161 | leading or doubled whitespace makes the parse fail |
| Text.ParseOneWord | engine/src/text.rs:110-168 | `Hi!` parses to one page: the codes 72, 105, 33 padded with zeros, then a blank row |
| Text.Parse | engine/src/text.rs:110-168 | the two-loop parser computes exactly `ParseSpec` |
| Text.Layout | engine/src/text.rs:141-167 | the line-breaking loop computes the line breaker's fold over the words, then the final padding |
| Text.BreakRow | engine/src/text.rs:146-155 | the row break before a word agrees with `BreakBefore` |
| Text.WriteWord | engine/src/text.rs:157-159 | a word fits iff it ends within the row, and then it is copied in at `li` |
| Text.Textset.GetRect | engine/src/text.rs:21-29 | an 8x8 cell at the glyph table's coordinates for the code |
| Text.BaseOf | engine/src/text.rs:44-57 | ten frames, the glyphs `10*level .. 10*level+9` in order |
| Text.Textbox.constructor | engine/src/text.rs:43-54 | frames of level 0, position `(0, HEIGHT-48)`, 22x6 cells, no rows, `rptr` 1, `cptr` 0 |
| Text.Textbox.SetBase | engine/src/text.rs:56-58 | the frames become those of `level`; nothing else changes |
| Text.Textbox.SetText | engine/src/text.rs:60-64 | the rows become the parse of the text, `rptr` 1 and `cptr` 0 |
| Text.Textbox.Scroll | engine/src/text.rs:66-70 | `cptr` 0, `rptr` two further, and the result is true iff `rptr` is still a row |
| Text.Textbox.ShownPageDrawable | engine/src/text.rs:76-103 | while a page is shown, every cell of the frame match can be evaluated without a panic |
| Text.Textbox.FrameAt | engine/src/text.rs:82-103 | a frame choice is one of the ten frame pieces, or a glyph, and glyphs appear only in columns 1..20 of rows 2 and 4 |
| Text.Textbox.RevealRule | engine/src/text.rs:92-101 | top-row glyph x is shown iff `TSPEED*(x-1) <= cptr`; bottom-row glyph x (x up to 19) iff `TSPEED*(x+19) <= cptr`; otherwise the blank frame |
| Text.Textbox.RevealInReadingOrder | engine/src/text.rs:92-101 | glyphs appear left to right, and the bottom row only after the whole top row |
| Text.Textbox.ArrowRule | engine/src/text.rs:76-91 | the cell (20, 4) shows the arrow iff the current page is not the last |
| Text.Textbox.BorderRule | engine/src/text.rs:83-90 | every border cell shows one of the frames 1..8 |
| Text.Textscreen.constructor | engine/src/text.rs:181-191 | the rows are the parse of the text, `rptr` 1, `cptr` 0, `animc` 242 |
| Text.Textscreen.SetText | engine/src/text.rs:193-197 | the rows become the parse of the text, `rptr` 1 and `cptr` 0 |
| Text.Textscreen.Scroll | engine/src/text.rs:199-203 | `cptr` 0, `rptr` two further, and the result is true iff `rptr` is still a row |
| World.TextCoords | game/src/world.rs:100-163 | every glyph position is a multiple of 8 on both axes |
| World.TextCoordsRanges | game/src/world.rs:101-162 | upper-case letters map to `(8*(c-65), 0)`, lower-case to `(8*(c-97), 8)`, and digits to `(8*(c-48), 16)` |
| World.TextCoordsDefault | game/src/world.rs:159-162 | every unlisted code, and the pad code 0, maps to the blank glyph `(8*22, 8*3)` |
| World.ParserCodesHaveGlyphs | game/src/world.rs:137-145 | the codes 256..264 have pairwise distinct glyphs, none of them the blank one |
| World.Anims | game/src/world.rs:12-98 | all eight actions are present and loop; frames and timings have equal lengths; every frame has size `sz`; each facing's frames sit on its own sheet row; a walk starts on its stand frame |
| World.NpcDefs | game/src/world.rs:199-296 | each level's list has eight NPCs, each with a legal facing and a sheet row 0..4 |
| World.NpcDefsWellFormed | game/src/world.rs:195-303 | each level lists eight NPCs on distinct cells with legal facings; only level 2's sprites are taller than 16 |
| World.LevelNpcs | game/src/world.rs:165-172 | levels 0..2 only; the table holds every listed NPC under its own cell, created with its text from the dialogue map, eight in all |
| World.BuildSet | engine/src/npc.rs:51-63 | NPCs on distinct cells are all kept, each as created from its definition |
| World.DistinctPositions | game/src/world.rs:199-208 | definitions on pairwise different cells occupy as many cells as there are definitions |
| Game.LastHeld | game/src/main.rs:99-104 | the result is a legal latch |
| Game.LastHeldIsLast | game/src/main.rs:99-104 | some direction is taken iff one is held; the one taken is held, with no higher-coded direction held |
| Game.Latch | game/src/main.rs:84-104 | the new latch is empty or a legal direction (its release and press rules are `LatchRules`) |
| Game.LatchRules | game/src/main.rs:85-104 | releasing the latched key clears the latch; another release, or none, keeps it; a kept latch ignores every press; only an empty latch is filled |
| Game.UpdateLatch | game/src/main.rs:84-104 | the four release checks and the four press checks compute `Latch` |
| Game.NextPos | game/src/main.rs:106-119 | the faced cell is at Manhattan distance 1, one step in the latched direction when one is latched |
| Game.NextPosAdjacent | game/src/main.rs:106-119 | the faced cell is a grid neighbour: one step in the latch, or in the facing when nothing is latched |
| Game.FacedCell | game/src/main.rs:106-119 | the `next_pos` match computes `NextPos` |
| Game.ScrollDeltaOpposes | game/src/main.rs:65-73 | the map scrolls against the facing's unit vector |
| Game.Step | game/src/main.rs:83-180 | one tick keeps a legal facing and latch (its rules are `FacingFollowsLatch`, `StepGating`, `CountdownRules`, `TalkRules` and `RevealCapped`) |
| Game.FacingFollowsLatch | game/src/main.rs:132-144 | an idle player with a latch faces it afterwards, even when blocked; mid-step, facing and cell are kept; the latch is stored |
| Game.StepGating | game/src/main.rs:146-149 | the cell changes iff a step starts; the step goes to the faced cell, which must be walkable and NPC-free; the countdown restarts (31 after this tick's decrement) and the map scrolls once |
| Game.CountdownRules | game/src/main.rs:148-179 | the countdown stays below 32 after any tick; it drops by exactly 1 while running; the map scrolls iff the new value is odd |
| Game.TalkRules | game/src/main.rs:154-164 | a talk happens only when idle, and never on a step's first tick; the first press opens the NPC's parsed text at page 1; later presses turn the page, keeping the box open iff a page is left |
| Game.RevealCapped | game/src/main.rs:168-170 | the reveal counter never passes `40*TSPEED`; below it, without a talk, it grows by exactly 1 |
| Game.Coasting | game/src/main.rs:173-179 | while the countdown runs, k ticks keep the cell and facing, take k off the countdown, and scroll once per odd value passed |
| Game.StepCycle | game/src/main.rs:122-179 | a step's first tick and the 31 after it move one cell, return the countdown to 0, and scroll the map by exactly 16 pixels against the walk |
| Game.Ticks | game/src/main.rs:83-180 | any run of ticks keeps a legal facing and latch, and a countdown that starts at most 32 stays at most 32 |
| Game.State.constructor | game/src/main.rs:34-59 | countdown 0, facing Down, nothing latched, no text, cell `START`; the sprite starts on a fresh StandD animation state (start 0, now 0, the table's StandD animation); given a valid text box, every action's animation and parseable NPC texts, the new state satisfies `Valid` |
| Game.State.Anim | game/src/main.rs:61-63 | a fresh animation state for the action, started at 0; the shape is kept |
| Game.State.Translate | game/src/main.rs:65-73 | the map moves one pixel against a legal facing; any other facing does nothing |
| Game.State.UpdateState | game/src/main.rs:83-180 | the state after the tick is `Step` of the state before; the sprite restarts on the stand or walk animation exactly as the facing rules say; only the NPC on the faced cell turns, and only on a first Space press |
| Game.State.ActOn | game/src/main.rs:84-165 | the state after the latch and idle part is `Act` of the state before, with the same animation and NPC rules |
| Game.State.FinishTick | game/src/main.rs:167-179 | the state becomes `Settle` of the state before: reveal, then countdown |
| Game.State.Idle | game/src/main.rs:122-165 | the state becomes `IdleAct`: face, step and talk |
| Game.State.Turn | game/src/main.rs:123-144 | stand when nothing is latched; otherwise face the latch and restart the walk if the facing changed or the sprite was standing; otherwise keep the animation |
| Game.State.TryStep | game/src/main.rs:146-149 | the player walks and the countdown becomes 32 iff a direction is latched, the cell is walkable, and no NPC is there |
| Game.State.Talk | game/src/main.rs:154-164 | an NPC on the faced cell is talked to, as `Interact` says; an empty cell changes nothing |
| Game.State.TurnPage | game/src/main.rs:156-157 | the box turns the page and stays open iff a page is left |
| Game.State.StartTalk | game/src/main.rs:158-162 | the NPC turns to face the player, its text is loaded from page 1, and the box opens |
| Game.State.RevealTick | game/src/main.rs:168-170 | the reveal counter grows by one up to the cap; the rows and the page are kept |
| Game.State.CountdownTick | game/src/main.rs:173-179 | the countdown drops by one while running; the map scrolls iff the new value is odd |

## Left out

- `engine/src/eng.rs` (window, GPU and event loop) is not part of this
  model. Its key arrays arrive as `Input`.
- Asset loading and decoding are not modelled. This covers:
  - `Image::from_file`;
  - `Textset::new`'s image;
  - `AnimationSet::new`'s image;
  - the image loaded in `NPCSet::new`;
  - `Tilemap::from_csv`;
  - the `map0x` functions and the JSON dialogue readers.

  Images are given as values, and the dialogue file as a map.
- `Tilemap::can_move_to` is not in the engine source, so it is the
  parameter `canMoveTo`.
- Images.Blend: the source blends in `f32`. The model blends with exact
  rational rounding, saturated like the source's `u8` arithmetic. Each colour channel is the source channel plus the
  destination channel times (255 - source alpha) / 255, rounded to
  nearest. Only the opaque and zero-pixel cases are claimed as the
  source's behaviour.
- Types.Walk and Types.MoveBy: these are functions returning the moved
  value rather than methods on a `&mut` struct. The in-place update is the
  assignment in `Game.State.TryStep`.
- Game.State: the player's cell is a field `pos`. It stands in for
  `sprite.pos`, which the engine's `Sprite` does not have.
  `Action::is_standing` is `IsStanding`.
- `world::anims01` and `world::coords01` are not in the game source. The
  model uses `anims(sz)` and `text_coords`. `State::new` calls a
  two-argument `Textbox::new` that the engine does not have. The model's
  `State` constructor takes a text box built by the engine's one-argument
  constructor.
- Game.State.constructor: the NPC table and the tile map are parameters.
  The model does not tie the table to `World.LevelNpcs` for level 0, which
  `State::new` builds with `npcs01` (`game/src/main.rs:43`).
- `Textscreen::anim` is not modelled: it depends on `WIPENUM`, which the
  engine does not define.
- The draw loops are not modelled beyond what follows:
  - `Textbox::draw` is its frame choice `FrameAt` per cell;
  - `Textscreen::draw` and `render_player` are not modelled;
  - their pixels are not modelled.
- Npcs.NPCSet.DrawBlits: the blits of `NPCSet::draw` are a set, because
  `HashMap` iteration order is unspecified. Their order on the screen is
  not modelled.
- Integer widths are unbounded. The source's `u8` countdown stays at most
  32 (`CountdownRules`). Its `usize` text counters stay far below any wrap.

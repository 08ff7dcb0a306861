# Dungeon crawler engine — a verified model

This project models the engine of a text dungeon crawler written in C++ (`solution/main.cpp`). Console input and output are not modelled.

- **The dungeon** is one flat buffer of `width*height` symbols, stored row by row.
  - The outer ring is wall (`'w'`).
  - Each interior cell holds a randomly generated object: `' '`, `'E'` enemy, `'H'` health, `'T'` trap, `'F'` food or `'w'`.
  - The player marker `'P'` goes in column 1 and the exit `'X'` in column `width-2`. Each marker lands on a vacant cell of its column or, failing that, on a fixed row.
- **The player** moves one cell per turn.
  - Every turn costs one unit of food.
  - Health is capped at 10.
  - Running out of either kills the player.
  - Stepping on an object applies it: health, a trap, food, or a fight with 2 to 4 enemies.
- **The game** ends when the player dies or stands on the exit.

The C++ program draws on the global `rand()`. Here that becomes `Random.Rng`: a fixed stream of draws plus a cursor. Every `rand()` call takes the next draw, including the draws that only pick a line of flavour text. A given stream therefore replays one game exactly. Every operation that calls `rand()` has a contract that says which draws it takes.

The model has two layers:

- **Values.** These are:
  - `Grids.Grid` and `Players.Vitals`;
  - the combat functions `Combat.Attacks`, `Round` and `Fight`;
  - the generation functions `Dungeons.Objects`, `Populate`, `RowFill`, `Fill`, `Place`, `Mark` and `Generate`;
  - the turn functions `Turns.MoveTo`, `MovePhase`, `Turn` and `Play`.
- **Imperative code.** In `Dungeons.Dungeon`, the buffer is an `array<char>` and the C++ loops are `while` loops. In `Players.Player`, the fields are updated in place. The methods follow the C++ loop by loop. Inside a loop they may merge or reorder writes that do not interact: `WallRows` writes the top and bottom rows (solution/main.cpp:158, 160) in one loop, the column loop writes the left wall before the right, where `*d = *(d+width-1) = 'w'` writes the right one first, and `MovePlayerTo` folds the `moved` flag (solution/main.cpp:363-371, 397) into the test `c != 'w'`.
  - Each method's postcondition fixes its whole new state, its results and the draw cursor. The one exception is a result the C++ leaves unset: on a miss, `ScanColumn` says nothing of `row`, because `placed_row` stays uninitialised there (solution/main.cpp:194) and `PlaceInColumn` overwrites it with the default row.
  - Mostly it does this by equality with one of the value functions above. Examples: `CombatLoop` ends as `Fight` says, `PlaceInColumn` as `Place`, `FillRow` as `RowFill`, `CreateDungeon` as `Generate`, `DoTurn` as `Turn`, `Traversal` as `Play`, and `Game` as `Generate` followed by `Play`.
  - The wall loops state the new value of every cell directly.
  - The game's properties are proved about the values.

Modules:

- `Grids` (`grids.dfy`): points, the flat grid value and the row-major index arithmetic.
- `Random` (`random.dfy`): the draw stream and the placement trial.
- `Players` (`players.dfy`): vitals and the `Player` struct.
- `Combat` (`combat.dfy`): `combat`.
- `Dungeons` (`dungeons.dfy`): the buffer, `generate_dungeon_object`, `place_in_column`, `create_dungeon` and the size clamp.
- `Turns` (`turns.dfy`): `do_turn`, `move_player_to`, `traversal` and the sequence in `main`.

Invariant kept between turns (`Turns.Playing`):

- the outer ring is all wall;
- the player stands inside it;
- `'P'` appears only at the player's position, and does appear there while the player is alive;
- the exit shows `'X'` unless the player stands on it;
- food and health are in bounds, and a living player has some of each.

`create_dungeon` establishes this invariant (`Dungeons.GenerateShape`) and every turn preserves it (`Turns.TurnPreserves`, `Turns.PlayPreserves`).

**Starving on the exit.** After its loop, `traversal` tests `is_at(exit)` before anything else (solution/main.cpp:302). So a player who reaches the exit and loses their last food in that same turn still gets the win banner. `Turns.Traversal` reports a win exactly when the final position is the exit, whatever the alive flag says.

## Model

| member | source | states |
|---|---|---|
| Grids.IndexInRange | solution/main.cpp:444-447 | the index `y*w+x` of an in-bounds cell lies inside the `w*h` buffer |
| Grids.IndexInjective | solution/main.cpp:458-461 | two in-bounds cells share an index `y*w+x` only if they are the same cell, so a write touches one cell |
| Grids.CellOfIndex | solution/main.cpp:444-447 | every index below `w*h` is the index of the cell in column `i % w` of row `i / w`, an in-bounds cell |
| Grids.IndexOfCell | solution/main.cpp:444-447 | the cell at index `y*w+x` is column x of row y, so the index determines the cell |
| Grids.Grid.Set | solution/main.cpp:458-461 | after writing a symbol the written cell reads that symbol; width, height and buffer length are kept |
| Grids.SetOther | solution/main.cpp:458-461 | writing one cell leaves every other in-bounds cell reading what it read before |
| Grids.SetFrame | solution/main.cpp:458-461 | the same frame property for all other cells at once |
| Grids.SetUnchanged | solution/main.cpp:458-461 | writing back the symbol a cell already holds leaves the buffer as it was |
| Grids.SetTwice | solution/main.cpp:458-461 | of two writes to one cell only the second shows |
| Grids.Grid.Column | solution/main.cpp:187-188 | the cells the column loop visits: one entry per row 1 .. height-2, entry i being the cell of row i+1 |
| Grids.Vacancies | solution/main.cpp:188-190 | the number of `' '` entries, never more than the length; `VacanciesAppend` and `VacancyCounted` are its laws |
| Grids.VacancyCounted | solution/main.cpp:188-195 | a column holding a vacant cell has a positive vacancy count, so the scan runs |
| Grids.VacanciesAppend | solution/main.cpp:188-190 | the vacancy count of two concatenated stretches is the sum of their counts |
| Random.Rng.Next | solution/main.cpp:221 | `rand()` returns the draw at the cursor and advances the cursor by one |
| Random.FlavourLine | solution/main.cpp:247-254 | a flavour line is `rand() % 3`, in 0..2, and consumes exactly one draw |
| Random.TrialSucceeds | solution/main.cpp:196-199 | the placement trial against n vacant cells, read on exact numbers as `draw*n < RAND_MAX`; its meaning is stated by `TrialThreshold` |
| Random.TrialThreshold | solution/main.cpp:196-199 | against n > 0 vacant cells a draw wins exactly when it is at most `(RAND_MAX-1)/n`, the lowest 1/n share of the draws; with one vacant cell every draw but `RAND_MAX` wins |
| Players.Vitals.Start | solution/main.cpp:40-42 | a new player is alive and satisfies the vitals invariant: food and health non-negative, health at most 10, some of each while alive |
| Players.Vitals.LoseFood | solution/main.cpp:44-47 | food never goes below 0 and drops by exactly 1 when positive; the player is alive afterwards iff alive before and food is not 0; health is untouched; the vitals invariant is kept |
| Players.Vitals.LoseHealth | solution/main.cpp:49-52 | health never goes below 0 and drops by exactly 1 when positive; alive afterwards iff alive before and health is not 0; food is untouched; the invariant is kept |
| Players.Vitals.GainHealth | solution/main.cpp:54-56 | health rises by 1 only below 10, so health <= 10 is preserved; food and the alive flag are untouched |
| Players.Vitals.AddFood | solution/main.cpp:384-385 | found food is added without a cap; health and the alive flag are untouched; a non-negative amount keeps the invariant |
| Players.LoseHealthTimes | solution/main.cpp:422-428 | n blows take `min(n, health)` health, never revive the player, never touch food and keep the invariant |
| Players.Player.constructor | solution/main.cpp:40-42 | the player stands at the given location and its vitals are `Vitals.Start()`, the starting food and health of a live player |
| Players.Player.LoseFood | solution/main.cpp:44-47 | the fields change exactly as `Vitals.LoseFood` says; the position is unchanged |
| Players.Player.LoseHealth | solution/main.cpp:49-52 | the fields change exactly as `Vitals.LoseHealth` says; the position is unchanged |
| Players.Player.GainHealth | solution/main.cpp:54-56 | the fields change exactly as `Vitals.GainHealth` says; the position is unchanged |
| Players.Player.IsAt | solution/main.cpp:58-60 | true exactly when the player's position is the location |
| Combat.PlayerLands | solution/main.cpp:416 | the player's 30% check `rand() % 100 < 30` on one draw; `UnansweredBlows` states what follows when it always passes |
| Combat.EnemyLands | solution/main.cpp:423 | an enemy's 10% check `rand() % 100 < 10` on one draw; `AttacksMiss` states what follows when it never passes |
| Combat.Attacks | solution/main.cpp:421-428 | the `for` loop of a round on values, enemy by enemy; its hits, vitals and draws are stated by `AttacksCount` |
| Combat.AttacksCount | solution/main.cpp:421-428 | n enemies land at most n blows; the vitals are those of that many `lose_health` calls; each enemy takes one draw, each landed blow one more |
| Combat.Round | solution/main.cpp:414-428 | a round removes at most one enemy; food is untouched; health never rises and falls by at most the number of enemies left after the removal; the player is never revived; the invariant is kept; at least one draw is taken |
| Combat.Fight | solution/main.cpp:414-429 | the `while` loop on values, round after round while enemies remain and the player lives; its end state is stated by `FightBounds` and its unfolding by `FightStep` |
| Combat.FightBounds | solution/main.cpp:414-429 | the fight ends with no enemy left, a dead player or the round bound spent; enemies never increase; food is untouched; health never rises; the player is never revived; the invariant is kept |
| Combat.AttacksMiss | solution/main.cpp:422-428 | when no enemy check can land, the attacks leave the vitals as they were and take one draw per enemy |
| Combat.UnansweredBlows | solution/main.cpp:414-429 | when every player check lands and no enemy check does, a pack of n is gone after exactly n rounds and the vitals are unchanged |
| Combat.EnemiesAttack | solution/main.cpp:421-428 | the `for` loop leaves the player's vitals and the draw cursor exactly as `Attacks` says; the position is unchanged |
| Combat.FightStep | solution/main.cpp:414-429 | a fight that goes on is one `Round` followed by the rest of the fight with one round less |
| Combat.FightRound | solution/main.cpp:416-428 | one pass of the `while` body leaves vitals, remaining enemies and cursor exactly as `Round` says |
| Combat.CombatLoop | solution/main.cpp:408-433 | the `while` loop leaves vitals, remaining enemies and cursor exactly as `Fight` says; the position is unchanged |
| Dungeons.IsObject | solution/main.cpp:218-235 | the six symbols `generate_dungeon_object` can return: `' '`, E, H, T, F, w |
| Dungeons.DungeonObject | solution/main.cpp:218-235 | the cell is empty iff the first draw mod 100 is at least 20; otherwise the second draw mod 100 maps [0,15) to E, [15,30) to H, [30,45) to T, [45,60) to F and [60,100) to w |
| Dungeons.GenerateDungeonObject | solution/main.cpp:218-235 | returns `DungeonObject` of the next two draws, taking one draw for an empty cell and two otherwise |
| Dungeons.Objects | solution/main.cpp:167 | k `generate_n` calls in a row: k objects, the first from the draws at the cursor and each next one from the draws after the previous |
| Dungeons.ObjectsDraws | solution/main.cpp:167 | every object of a run is one `generate_dungeon_object` can produce, and a run of k objects takes `2k` draws less one per empty cell |
| Dungeons.Populate | solution/main.cpp:166-168 | the object loop on values: h rows of w objects each, row after row, each row starting at the draw after the previous one |
| Dungeons.PopulateObjects | solution/main.cpp:166-168 | every cell of a generated layout holds an object `generate_dungeon_object` can produce |
| Dungeons.Furnished | solution/main.cpp:153-168 | the buffer after the wall loops and the object loop: the ring is wall and each interior cell (x, y) holds the layout's object in row y-1, column x-1 |
| Dungeons.FurnishedObjects | solution/main.cpp:153-168 | the furnished buffer of a generated layout is walled and holds only objects |
| Dungeons.RowWrite | solution/main.cpp:167 | writing a sequence of objects into a row from a column on keeps the grid's shape; what it writes where is stated by `RowWriteCell` |
| Dungeons.RowWriteCell | solution/main.cpp:167 | after writing objects into row y from column x, the cell (x+i, y) holds object i and every other cell is unchanged |
| Dungeons.LayoutWrite | solution/main.cpp:166-168 | writing rows of objects into consecutive rows keeps the grid's shape; what it writes where is stated by `LayoutWriteCell` |
| Dungeons.LayoutWriteCell | solution/main.cpp:166-168 | after writing rows from row y, the cell (x, y+i), x in 1 .. width-2, holds object x-1 of row i, and every other cell is unchanged |
| Dungeons.RowFill | solution/main.cpp:167 | the rest of one `generate_n` pass from column x: the run of objects generated at the cursor written into the row from x, with the cursor after the run |
| Dungeons.RowFillStep | solution/main.cpp:167 | the pass from column x writes the object of the draws at the cursor into column x, then goes on from x+1 with the draws after it |
| Dungeons.Fill | solution/main.cpp:166-168 | the rest of the object loop from row y: the generated layout written into rows y .. height-2, with the cursor after it |
| Dungeons.FillStep | solution/main.cpp:166-168 | the object loop from row y is one full pass over row y, then the loop from row y+1 with the draws after the pass |
| Dungeons.FillFurnishes | solution/main.cpp:153-168 | the object loop run on the walled buffer gives exactly the furnished buffer of the layout generated at the cursor, and ends at that layout's last draw |
| Dungeons.LayoutFurnishes | solution/main.cpp:166-168 | writing an interior-sized layout into a walled buffer from row 1 gives its furnished buffer |
| Dungeons.ScanFrom | solution/main.cpp:193-206 | a placement lands on a vacant entry of the column; the draws taken are one per vacant entry passed, plus the winning one |
| Dungeons.ScanStep | solution/main.cpp:197-205 | at each entry the scan either places the marker (a vacant entry winning its trial, taking one draw) or moves on, taking a draw only for a vacant entry |
| Dungeons.ScanPicksFirst | solution/main.cpp:195-206 | the scan places the marker at entry k iff k is vacant and wins its trial and no vacant entry above k wins its own |
| Dungeons.ScanMisses | solution/main.cpp:195-212 | the scan falls through to the default row iff no vacant entry wins its trial |
| Dungeons.Place | solution/main.cpp:181-214 | `place_in_column` on values. Exactly one cell, (column, row), is overwritten with the letter, where row comes from the scan over the column's vacancy count. A scan placement is a vacant cell, and the draws are the scan's. With no vacant cell or no winning trial, row is the default row. The row is in bounds, and interior when the default row is |
| Dungeons.Mark | solution/main.cpp:170-173 | the two placements of `create_dungeon`: `'P'` by `Place` in column 1 with default row 1, then `'X'` by `Place` in column width-2 with default row height-2 on the grid holding `'P'`, from the draw after the first scan |
| Dungeons.Generate | solution/main.cpp:149-175 | `create_dungeon` on values: the furnished buffer of the layout generated at the cursor, then `Mark` from the draw after the layout; the player is in column 1 and the exit in column width-2, both in rows 1 .. height-2 |
| Dungeons.GenerateShape | solution/main.cpp:149-175 | a generated dungeon is walled; `'P'` and `'X'` stand at the returned positions, `'P'` nowhere else; every other cell is an object; so a new player at the start meets the game invariant |
| Dungeons.MarkersPlaced | solution/main.cpp:170-173 | after the two placements the ring is still wall, `'P'` and `'X'` are at their positions and `'P'` nowhere else, and every other cell is an object |
| Dungeons.Dungeon.constructor | solution/main.cpp:153-155 | a new buffer of `width*height` cells, all `' '` |
| Dungeons.Dungeon.Get | solution/main.cpp:437-447 | `get_object` returns the symbol of the cell at the point |
| Dungeons.Dungeon.SetObject | solution/main.cpp:451-461 | `set_object` leaves the buffer as `Set` of the cell at the point |
| Dungeons.Dungeon.CountVacant | solution/main.cpp:185-190 | the count is the number of vacant cells in rows 1 .. height-2 of the column |
| Dungeons.Dungeon.PlaceInColumn | solution/main.cpp:181-214 | leaves the buffer, the returned row and the cursor exactly as `Place` says |
| Dungeons.Dungeon.ScanColumn | solution/main.cpp:195-206 | the scan loop leaves cursor, placement and buffer exactly as `ScanFrom` says: one cell written when placed, nothing when not |
| Dungeons.Dungeon.ScanCell | solution/main.cpp:198-205 | one pass of the scan loop: a vacant cell takes a draw and is written on a winning trial; the rest of the scan is `ScanFrom` from the next row |
| Dungeons.Dungeon.PlaceMarkers | solution/main.cpp:170-173 | leaves the buffer, both marker positions and the cursor exactly as `Mark` says |
| Dungeons.Dungeon.Furnish | solution/main.cpp:153-168 | after the wall loops and the object loop the buffer is the furnished buffer of the layout generated at the cursor, and the cursor is after that layout |
| Dungeons.Dungeon.WallRows | solution/main.cpp:157-160 | every cell of row 0 and row height-1 is a wall; every other cell is unchanged |
| Dungeons.Dungeon.WallColumns | solution/main.cpp:161-164 | columns 0 and width-1 become wall and rows 0 and height-1 stay wall, so the whole ring is wall; every interior cell is unchanged |
| Dungeons.Dungeon.BuildWalls | solution/main.cpp:156-164 | afterwards the outer ring is wall and every interior cell is unchanged |
| Dungeons.Dungeon.FillInterior | solution/main.cpp:166-168 | the object loop leaves the buffer and the cursor exactly as `Fill` from row 1 says |
| Dungeons.Dungeon.FillRow | solution/main.cpp:167 | one `generate_n` pass leaves the buffer and the cursor exactly as `RowFill` from column 1 says |
| Dungeons.Dungeon.FillCell | solution/main.cpp:167 | one object of the pass: cell (x, y) becomes `DungeonObject` of the next two draws, no other cell changes, the cursor moves on by that object's draws, and so the rest of the pass from column x before it equals the rest from x+1 after it |
| Dungeons.CreateDungeon | solution/main.cpp:149-175 | a fresh buffer of the given size; the buffer, both marker positions and the cursor are exactly those of `Generate` from the cursor on entry |
| Dungeons.ClampDimensions | solution/main.cpp:142-145 | both sides are at least 8; sizes that are both at least 8 are kept, otherwise the size is 16 x 16 |
| Turns.Destination | solution/main.cpp:323-342 | u/U, d/D, l/L, r/R move one row up, one row down, one column left, one column right; any other character keeps the current position |
| Turns.FoodFound | solution/main.cpp:384 | `4 + rand() % 5` is in 4..8 |
| Turns.EnemiesMet | solution/main.cpp:391 | `2 + rand() % 3` is in 2..4 |
| Turns.CellEffect | solution/main.cpp:366-395 | H calls `gain_health`; T takes a flavour draw and calls `lose_health`; F adds 4..8 food and takes two draws; E fights 2..4 enemies, leaving food alone and never raising health; any other symbol has no effect; the player is never revived and the invariant is kept |
| Turns.MoveTo | solution/main.cpp:357-405 | a wall leaves grid, player and cursor untouched; otherwise the vitals follow the symbol's effect, the old cell becomes `' '`, a live player is drawn on the destination and moves there, a dead one stays put and the destination keeps its symbol; no other cell changes |
| Turns.MovePhase | solution/main.cpp:337-350 | a forfeit kills the player and changes nothing else; a destination on the ring, or a dead player, changes nothing; otherwise the result is `MoveTo` the destination; the player stays inside the ring |
| Turns.Turn | solution/main.cpp:316-353 | `lose_food` runs exactly once: food drops by one (or stays 0), except that a move onto F first adds 4..8. A forfeit gives the old state with the player dead and one food charge, and takes no draw. A destination on the ring, or a wall, changes nothing but the food charge. The player stays inside the ring and is never revived |
| Turns.WastedTurn | solution/main.cpp:340-342 | an unrecognised move by a live player rewrites `'P'` onto the same cell, so grid, position and cursor are net unchanged and only food is charged |
| Turns.DestinationInBounds | solution/main.cpp:344-350 | a destination next to an interior cell is in bounds, and interior unless it lies on the ring |
| Turns.MovePreserves | solution/main.cpp:397-404 | a move to an interior cell keeps the game invariant: ring wall, `'P'` only at the player, exit marked, vitals in bounds |
| Turns.TurnPreserves | solution/main.cpp:316-353 | every turn taken while the player is off the exit keeps the game invariant |
| Turns.Play | solution/main.cpp:296-300 | `traversal`'s loop on values: turns are taken while the player is alive, off the exit and moves remain. At most one turn per move is taken. It ends inside the ring. If no turn is taken the state is as given. A player still alive and off the exit at the end has used every move |
| Turns.PlayPreserves | solution/main.cpp:296-300 | if the game invariant holds where `traversal` starts, it holds where it stops |
| Turns.ApplySymbol | solution/main.cpp:366-395 | the symbol if-chain changes vitals and cursor exactly as `CellEffect` says, and not the position |
| Turns.MovePlayerTo | solution/main.cpp:357-405 | leaves buffer, player and cursor exactly as `MoveTo` says |
| Turns.ComputeDestination | solution/main.cpp:323-342 | the destination is `Destination(move, position)`; a forfeit clears the alive flag and nothing else changes |
| Turns.DoTurn | solution/main.cpp:316-353 | leaves buffer, player and cursor exactly as `Turn` says |
| Turns.Traversal | solution/main.cpp:288-312 | leaves buffer, player, cursor and turn count exactly as `Play` from a new player at the start says. The game invariant holds at the end. The game is won iff the player ends on the exit, whether alive or not. Otherwise the player is dead or the moves ran out |
| Turns.Game | solution/main.cpp:116-131 | clamps the size. The dungeon, the exit, the final state, the cursor and the turn count are exactly those of `Generate` followed by `Play` from the start cell. The game invariant and the win condition hold at the end |

## Left out

- Console I/O: prompts, `print_dungeon`, `show_status`, banners and flavour-text strings are not modelled. The flavour helpers' `rand() % 3` draws are modelled by `FlavourLine`.
- Reading input: `input_dimenions` arrives as `ClampDimensions` over given integers. The move characters of a game arrive as a sequence, and `Traversal` also stops when the sequence runs out.
- Seeding: `srand(time(0))` is not modelled. Each seed makes `rand()` yield one fixed stream of draws in `[0, RAND_MAX]`, with `RAND_MAX` fixed at glibc's 2147483647. Every contract here holds for all streams, so it holds whatever the seed.
- Dungeons.ScanFrom: the trial `rand()/float(RAND_MAX) < 1.0/n_vacant` is read over exact numbers as `draw*n < RAND_MAX` (`Random.TrialSucceeds`). Single-precision rounding near the threshold is not modelled.
- Random.TrialSucceeds: the exact-number reading differs from the single-precision test at solution/main.cpp:196-199 at the top of the range. With one vacant cell, the draws 2147483584 … 2147483646 round to 2^31 as a `float`, so the quotient is 1.0 and the C++ trial rejects them. The model lets them win; only `RAND_MAX` itself loses.
- Combat.Fight: `combat` ends only with probability 1, so the rounds are bounded by a `fuel` parameter threaded through `MovePlayerTo`, `DoTurn`, `Play` and `Traversal`. A fight that spends its fuel stops with enemies left, which the C++ loop would not do.
- Distribution claims: the 20% object chance, the 15/15/15/15/40 weights and the uniformity of marker placement are probabilities. The model states the deterministic mapping from draws instead.
- Players.Vitals.AddFood: `int` overflow of `food`, after more than two billion pickups, is not modelled. Integers are unbounded.
- Dungeons.CreateDungeon: the assumption that the size product fits in an `int` is not modelled.
  - `int length = width*height` (solution/main.cpp:153, 185) and the index `y*w+x` (solution/main.cpp:446, 460) overflow `int` once `width*height` exceeds 2147483647. That is undefined behaviour.
  - The clamp at solution/main.cpp:142-145 bounds the size only from below.
  - The model's integers are unbounded, so it describes the program only for sizes whose product fits in an `int`.
- The default constructor `Player()`: it leaves the position uninitialised and the game never uses it.
- `new[]`/`delete[]`: memory management is not modelled. `main` is modelled only as the sequence in `Game`.

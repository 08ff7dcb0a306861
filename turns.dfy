/** Turn resolution: do_turn maps a move character to a destination, rejects
    the outer ring and always charges one food; move_player_to applies the
    effect of the destination symbol and moves the 'P' marker; traversal
    repeats turns until the player dies or stands on the exit. */
module Turns {
  import opened Grids
  import opened Random
  import opened Players
  import opened Combat
  import opened Dungeons

  /** The part of the game a turn reads and writes. */
  datatype State = State(grid: Grid, pos: Point, vitals: Vitals)

  /** A state together with the position of the draw stream. */
  datatype Outcome = Outcome(state: State, cursor: nat)

  predicate IsForfeit(move: char) {
    move == 'x' || move == 'X'
  }

  predicate IsStep(move: char) {
    move in {'u', 'U', 'd', 'D', 'l', 'L', 'r', 'R'}
  }

  /** The destination of a move from p: one cell up, down, left or right
      (either case); p itself for any other character. */
  function Destination(move: char, p: Point): (dest: Point)
    ensures !IsStep(move) ==> dest == p
    ensures IsStep(move) ==> dest != p
    ensures (move == 'u' || move == 'U') ==> dest == Point(p.x, p.y - 1)
    ensures (move == 'd' || move == 'D') ==> dest == Point(p.x, p.y + 1)
    ensures (move == 'l' || move == 'L') ==> dest == Point(p.x - 1, p.y)
    ensures (move == 'r' || move == 'R') ==> dest == Point(p.x + 1, p.y)
  {
    if move == 'u' || move == 'U' then Point(p.x, p.y - 1)
    else if move == 'd' || move == 'D' then Point(p.x, p.y + 1)
    else if move == 'l' || move == 'L' then Point(p.x - 1, p.y)
    else if move == 'r' || move == 'R' then Point(p.x + 1, p.y)
    else p
  }

  /** The food on an 'F' cell: `4 + rand() % 5`. */
  function FoodFound(draw: Draw): (k: int)
    ensures 4 <= k <= 8
  {
    4 + draw % 5
  }

  /** The size of the pack on an 'E' cell: `2 + rand() % 3`. */
  function EnemiesMet(draw: Draw): (k: nat)
    ensures 2 <= k <= 4
  {
    2 + draw % 3
  }

  datatype Effect = Effect(vitals: Vitals, cursor: nat)

  /** The effect of the destination symbol c on the vitals, with the draws it
      takes: 'H' gains health; 'T' takes a flavour draw and loses health; 'F'
      adds 4..8 food and takes a flavour draw; 'E' draws a pack of 2..4 and
      fights it; every other symbol has no effect. */
  function CellEffect(c: char, v: Vitals, s: nat -> Draw, at: nat, fuel: nat): (r: Effect)
    ensures c !in {'H', 'T', 'F', 'E'} ==> r == Effect(v, at)
    ensures c == 'H' ==> r == Effect(v.GainHealth(), at)
    ensures c == 'T' ==> r == Effect(v.LoseHealth(), at + 1)
    ensures c == 'F' ==> 4 <= r.vitals.food - v.food <= 8 && r.vitals.health == v.health
                         && r.vitals.alive == v.alive && r.cursor == at + 2
    ensures c == 'E' ==> r.vitals.food == v.food && r.vitals.health <= v.health && r.cursor > at
    ensures c != 'F' ==> r.vitals.food == v.food
    ensures r.vitals.alive ==> v.alive
    ensures v.Valid() ==> r.vitals.Valid()
  {
    if c == 'H' then Effect(v.GainHealth(), at)
    else if c == 'T' then Effect(v.LoseHealth(), at + 1)
    else if c == 'F' then Effect(v.AddFood(FoodFound(s(at))), at + 2)
    else if c == 'E' then
      var b := Fight(v, EnemiesMet(s(at)), s, at + 1, fuel);
      FightBounds(v, EnemiesMet(s(at)), s, at + 1, fuel);
      Effect(b.vitals, b.cursor)
    else Effect(v, at)
  }

  /** move_player_to pt: a wall cancels the move and changes nothing.
      Otherwise the symbol's effect applies, the old cell becomes ' ', and
      only a player still alive moves to pt and is drawn there. No other cell
      changes. */
  function MoveTo(st: State, pt: Point, s: nat -> Draw, at: nat, fuel: nat): (r: Outcome)
    requires st.grid.Valid() && st.grid.InBounds(st.pos) && st.grid.InBounds(pt)
    ensures r.state.grid.Valid() && r.state.grid.width == st.grid.width && r.state.grid.height == st.grid.height
    ensures st.grid.At(pt) == 'w' ==> r == Outcome(st, at)
    ensures st.grid.At(pt) != 'w' ==>
      var e := CellEffect(st.grid.At(pt), st.vitals, s, at, fuel);
      && r.state.vitals == e.vitals && r.cursor == e.cursor
      && (e.vitals.alive ==> r.state.pos == pt && r.state.grid.At(pt) == 'P')
      && (!e.vitals.alive ==> r.state.pos == st.pos && r.state.grid.At(st.pos) == ' ')
      && (pt != st.pos ==> r.state.grid.At(st.pos) == ' ')
      && (!e.vitals.alive && pt != st.pos ==> r.state.grid.At(pt) == st.grid.At(pt))
    ensures forall q :: st.grid.InBounds(q) && q != st.pos && q != pt ==> r.state.grid.At(q) == st.grid.At(q)
  {
    var c := st.grid.At(pt);
    if c == 'w' then Outcome(st, at)
    else
      var e := CellEffect(c, st.vitals, s, at, fuel);
      var cleared := st.grid.Set(st.pos, ' ');
      SetFrame(st.grid, st.pos, ' ');
      SetFrame(cleared, pt, 'P');
      if e.vitals.alive then Outcome(State(cleared.Set(pt, 'P'), pt, e.vitals), e.cursor)
      else Outcome(State(cleared, st.pos, e.vitals), e.cursor)
  }

  /** The movement part of do_turn, before the food charge: a forfeit kills
      the player; a destination on the outer ring, or a dead player, leaves
      everything else as it was; otherwise move_player_to runs. */
  function MovePhase(st: State, move: char, s: nat -> Draw, at: nat, fuel: nat): (r: Outcome)
    requires st.grid.Valid() && st.grid.Interior(st.pos)
    ensures r.state.grid.Valid() && r.state.grid.width == st.grid.width && r.state.grid.height == st.grid.height
    ensures r.state.grid.Interior(r.state.pos)
    ensures IsForfeit(move) ==> r == Outcome(st.(vitals := st.vitals.(alive := false)), at)
    ensures st.grid.OnBorder(Destination(move, st.pos)) && !IsForfeit(move) ==> r == Outcome(st, at)
    ensures !st.vitals.alive ==> r == Outcome(st.(vitals := st.vitals.(alive := false)), at)
    ensures Reaches(st, move) ==> r == MoveTo(st, Destination(move, st.pos), s, at, fuel)
  {
    var dest := Destination(move, st.pos);
    DestinationInBounds(st.grid, st.pos, move);
    var v := if IsForfeit(move) then st.vitals.(alive := false) else st.vitals;
    if st.grid.OnBorder(dest) || !v.alive then Outcome(st.(vitals := v), at)
    else MoveTo(st.(vitals := v), dest, s, at, fuel)
  }

  /** Whether a turn reaches move_player_to with a live player. */
  predicate Reaches(st: State, move: char)
    requires st.grid.Valid() && st.grid.Interior(st.pos)
  {
    !IsForfeit(move) && st.vitals.alive && !st.grid.OnBorder(Destination(move, st.pos))
  }

  /** do_turn: the movement part, then exactly one lose_food. The food left
      is one less than before (none, if there was none) unless the turn
      reached an 'F' cell, which adds 4..8 first. A forfeit, a destination on
      the ring and a wall leave the grid and the position as they were. */
  function Turn(st: State, move: char, s: nat -> Draw, at: nat, fuel: nat): (r: Outcome)
    requires st.grid.Valid() && st.grid.Interior(st.pos)
    ensures r.state.grid.Valid()
    ensures !(Reaches(st, move) && st.grid.At(Destination(move, st.pos)) == 'F') ==>
              r.state.vitals.food == (if st.vitals.food > 0 then st.vitals.food - 1 else st.vitals.food)
    ensures Reaches(st, move) && st.grid.At(Destination(move, st.pos)) == 'F' && st.vitals.food >= 0 ==>
              st.vitals.food + 3 <= r.state.vitals.food <= st.vitals.food + 7
    ensures r.state.grid.Interior(r.state.pos)
    ensures IsForfeit(move) ==> r == Outcome(st.(vitals := st.vitals.(alive := false).LoseFood()), at)
    ensures st.grid.OnBorder(Destination(move, st.pos)) ==>
              r == Outcome(st.(vitals := st.vitals.LoseFood()), at)
    ensures Reaches(st, move) && st.grid.At(Destination(move, st.pos)) == 'w' ==>
              r == Outcome(st.(vitals := st.vitals.LoseFood()), at)
    ensures r.state.vitals.alive ==> st.vitals.alive
  {
    var m := MovePhase(st, move, s, at, fuel);
    Outcome(m.state.(vitals := m.state.vitals.LoseFood()), m.cursor)
  }

  /** What holds between turns while the game is on: the ring is wall, the
      player stands inside it, 'P' marks only the player (and does while
      alive), the exit is marked unless the player is on it, and the vitals
      obey their bounds. */
  ghost predicate Playing(st: State, exit: Point) {
    && st.grid.Valid()
    && st.grid.BorderIsWall()
    && st.grid.Interior(st.pos)
    && st.grid.PlayerMarked(st.pos, st.vitals.alive)
    && st.grid.ExitMarked(st.pos, exit)
    && st.vitals.Valid()
  }

  /** An unrecognised move by a live player wastes the turn: move_player_to
      runs on the player's own cell, clears it and writes 'P' back, so only
      the food charge remains. */
  lemma WastedTurn(st: State, move: char, s: nat -> Draw, at: nat, fuel: nat)
    requires st.grid.Valid() && st.grid.Interior(st.pos)
    requires st.grid.PlayerMarked(st.pos, st.vitals.alive) && st.vitals.alive
    requires !IsStep(move) && !IsForfeit(move)
    ensures Turn(st, move, s, at, fuel) == Outcome(st.(vitals := st.vitals.LoseFood()), at)
  {
    var g := st.grid;
    assert g.At(st.pos) == 'P';
    SetTwice(g, st.pos, ' ', 'P');
    SetUnchanged(g, st.pos);
  }

  /** A cell next to an interior cell, or the cell itself, is in bounds. */
  lemma DestinationInBounds(g: Grid, p: Point, move: char)
    requires g.Valid() && g.Interior(p)
    ensures g.InBounds(Destination(move, p))
    ensures !g.OnBorder(Destination(move, p)) ==> g.Interior(Destination(move, p))
  {
  }

  /** A move inside the ring keeps the game invariant, as long as the player
      did not already stand on the exit (traversal stops there). */
  lemma MovePreserves(st: State, exit: Point, pt: Point, s: nat -> Draw, at: nat, fuel: nat)
    requires Playing(st, exit) && st.pos != exit && st.vitals.alive
    requires st.grid.Interior(pt)
    ensures Playing(MoveTo(st, pt, s, at, fuel).state, exit)
  {
    var g := st.grid;
    var r := MoveTo(st, pt, s, at, fuel).state;
    if g.At(pt) != 'w' {
      var h := r.grid;
      forall q | h.InBounds(q) && g.OnBorder(q)
        ensures h.At(q) == 'w'
      {
        assert q != st.pos && q != pt;
      }
      assert h.BorderIsWall();
      forall q | h.InBounds(q) && h.At(q) == 'P'
        ensures q == r.pos
      {
      }
      if pt == exit {
        assert g.At(pt) == 'X';
      } else {
        assert h.At(exit) == g.At(exit) || r.pos == exit;
      }
    }
  }

  /** Every turn taken while the player is not on the exit keeps the game
      invariant. */
  lemma TurnPreserves(st: State, exit: Point, move: char, s: nat -> Draw, at: nat, fuel: nat)
    requires Playing(st, exit) && st.pos != exit
    ensures Playing(Turn(st, move, s, at, fuel).state, exit)
  {
    var dest := Destination(move, st.pos);
    DestinationInBounds(st.grid, st.pos, move);
    var m := MovePhase(st, move, s, at, fuel);
    if Reaches(st, move) {
      MovePreserves(st, exit, dest, s, at, fuel);
    }
    assert Playing(m.state, exit);
  }

  /** Where a traversal stops: the final state, the draw index after it and
      the number of turns taken. */
  datatype Ending = Ending(state: State, cursor: nat, turns: nat)

  /** traversal on values: while the player is alive, not on the exit, and
      moves remain, take the next turn. The exit test comes first, so a
      player who reaches the exit is on it when the loop stops, whatever
      the food charge of that turn did. */
  function Play(st: State, exit: Point, moves: seq<char>, s: nat -> Draw, at: nat, fuel: nat): (e: Ending)
    requires st.grid.Valid() && st.grid.Interior(st.pos)
    ensures e.turns <= |moves|
    ensures e.state.grid.Valid() && e.state.grid.Interior(e.state.pos)
    ensures e.state.vitals.alive && e.state.pos != exit ==> e.turns == |moves|
    ensures e.turns == 0 <==> !st.vitals.alive || st.pos == exit || moves == []
    ensures e.turns == 0 ==> e == Ending(st, at, 0)
    decreases |moves|
  {
    if !st.vitals.alive || st.pos == exit || moves == [] then Ending(st, at, 0)
    else
      var r := Turn(st, moves[0], s, at, fuel);
      var e := Play(r.state, exit, moves[1..], s, r.cursor, fuel);
      Ending(e.state, e.cursor, e.turns + 1)
  }

  /** Play keeps the game invariant: it holds where the traversal stops if
      it held where it started. */
  lemma {:induction false} PlayPreserves(st: State, exit: Point, moves: seq<char>, s: nat -> Draw, at: nat, fuel: nat)
    requires Playing(st, exit)
    ensures Playing(Play(st, exit, moves, s, at, fuel).state, exit)
    decreases |moves|
  {
    if st.vitals.alive && st.pos != exit && moves != [] {
      var r := Turn(st, moves[0], s, at, fuel);
      TurnPreserves(st, exit, moves[0], s, at, fuel);
      PlayPreserves(r.state, exit, moves[1..], s, r.cursor, fuel);
    }
  }

  /** The game state held in the dungeon buffer and the player object. */
  ghost function Snapshot(d: Dungeon, player: Player): State
    reads d.cells, player
  {
    State(d.Value(), player.Position(), player.Status())
  }

  /** The if-chain of move_player_to on the destination symbol c: what the
      symbol does to the player's vitals, with the draws it takes. */
  method ApplySymbol(player: Player, c: char, rng: Rng, fuel: nat)
    modifies player, rng
    ensures Effect(player.Status(), rng.cursor) == CellEffect(c, old(player.Status()), rng.stream, old(rng.cursor), fuel)
    ensures player.Position() == old(player.Position())
  {
    ghost var v, at := player.Status(), rng.cursor;
    if c == 'H' {
      player.GainHealth();
    } else if c == 'T' {
      var line := FlavourLine(rng);
      player.LoseHealth();
    } else if c == 'F' {
      var draw := rng.Next();
      var food := 4 + draw % 5;
      player.food := player.food + food;
      var line := FlavourLine(rng);
      assert player.Status() == v.AddFood(FoodFound(draw));
    } else if c == 'E' {
      var draw := rng.Next();
      var enemies := 2 + draw % 3;
      var left := CombatLoop(player, enemies, rng, fuel);
      assert enemies == EnemiesMet(rng.stream(at));
    }
  }

  /** move_player_to: a wall cancels the move; any other symbol applies its
      effect, then the old cell is cleared and a live player is drawn at pt
      and moved there. */
  method MovePlayerTo(d: Dungeon, player: Player, pt: Point, rng: Rng, fuel: nat)
    requires d.Valid() && d.Value().InBounds(player.Position()) && d.Value().InBounds(pt)
    modifies d.cells, player, rng
    ensures var r := MoveTo(old(Snapshot(d, player)), pt, rng.stream, old(rng.cursor), fuel);
            Snapshot(d, player) == r.state && rng.cursor == r.cursor
  {
    var c := d.Get(pt);
    if c != 'w' {
      ApplySymbol(player, c, rng, fuel);
      d.SetObject(player.Position(), ' ');
      if player.isAlive {
        d.SetObject(pt, 'P');
        player.x, player.y := pt.x, pt.y;
      }
    }
  }

  /** The first half of do_turn: the destination of the move and, for a
      forfeit, the player's death. */
  method ComputeDestination(player: Player, move: char) returns (destination: Point)
    modifies player
    ensures destination == Destination(move, old(player.Position()))
    ensures player.Status() == if IsForfeit(move) then old(player.Status()).(alive := false)
                               else old(player.Status())
    ensures player.Position() == old(player.Position())
  {
    destination := Point(player.x, player.y);
    if move == 'u' || move == 'U' {
      destination := Point(destination.x, destination.y - 1);
    } else if move == 'd' || move == 'D' {
      destination := Point(destination.x, destination.y + 1);
    } else if move == 'l' || move == 'L' {
      destination := Point(destination.x - 1, destination.y);
    } else if move == 'r' || move == 'R' {
      destination := Point(destination.x + 1, destination.y);
    } else if move == 'x' || move == 'X' {
      player.isAlive := false;
    }
  }

  /** do_turn with the move character as a parameter: compute the
      destination, move unless it lies on the outer ring or the player is
      dead, then lose one food. */
  method DoTurn(d: Dungeon, player: Player, move: char, rng: Rng, fuel: nat)
    requires d.Valid() && d.Value().Interior(player.Position())
    modifies d.cells, player, rng
    ensures var r := Turn(old(Snapshot(d, player)), move, rng.stream, old(rng.cursor), fuel);
            Snapshot(d, player) == r.state && rng.cursor == r.cursor
  {
    ghost var st := Snapshot(d, player);
    var destination := ComputeDestination(player, move);
    DestinationInBounds(d.Value(), st.pos, move);
    if destination.x == 0 || destination.x == d.width - 1 || destination.y == 0 || destination.y == d.height - 1 {
      // At the edge of the room.
    } else if player.isAlive {
      MovePlayerTo(d, player, destination, rng, fuel);
    }
    assert Snapshot(d, player) == MovePhase(st, move, rng.stream, old(rng.cursor), fuel).state;
    player.LoseFood();
  }

  /** traversal: a new player at start takes the moves in order while alive
      and not on the exit (and while moves remain). The final state, the
      draws and the number of turns are those of `Play`; the game is won
      exactly when the player ends on the exit. */
  method Traversal(d: Dungeon, start: Point, exit: Point, moves: seq<char>, rng: Rng, fuel: nat)
    returns (player: Player, won: bool, turns: nat)
    requires d.Valid() && Playing(State(d.Value(), start, Vitals.Start()), exit)
    modifies d.cells, rng
    ensures fresh(player)
    ensures var e := Play(State(old(d.Value()), start, Vitals.Start()), exit, moves, rng.stream, old(rng.cursor), fuel);
            Snapshot(d, player) == e.state && rng.cursor == e.cursor && turns == e.turns
    ensures won <==> player.Position() == exit
    ensures turns <= |moves|
    ensures Playing(Snapshot(d, player), exit)
    ensures won || !player.isAlive || turns == |moves|
  {
    ghost var init, at := State(d.Value(), start, Vitals.Start()), rng.cursor;
    player := new Player(start);
    turns := 0;
    while player.isAlive && !player.IsAt(exit) && turns < |moves|
      invariant turns <= |moves|
      invariant Playing(Snapshot(d, player), exit)
      invariant var e := Play(Snapshot(d, player), exit, moves[turns..], rng.stream, rng.cursor, fuel);
                Play(init, exit, moves, rng.stream, at, fuel) == Ending(e.state, e.cursor, e.turns + turns)
      decreases |moves| - turns
    {
      ghost var before, c := Snapshot(d, player), rng.cursor;
      assert moves[turns..][0] == moves[turns] && moves[turns..][1..] == moves[turns + 1..];
      DoTurn(d, player, moves[turns], rng, fuel);
      TurnPreserves(before, exit, moves[turns], rng.stream, c, fuel);
      turns := turns + 1;
    }
    won := player.IsAt(exit);
  }

  /** The program's body: clamp the requested size, create the dungeon, then
      traverse it from the start cell. The dungeon, the exit, the final state
      and the draws are those of `Generate` followed by `Play`; the game
      invariant holds when the game ends. */
  method Game(width: int, height: int, moves: seq<char>, rng: Rng, fuel: nat)
    returns (d: Dungeon, player: Player, exit: Point, won: bool, turns: nat)
    modifies rng
    ensures fresh(d) && fresh(player)
    ensures (d.width, d.height) == ClampDimensions(width, height)
    ensures var size := ClampDimensions(width, height);
            var c := Generate(size.0, size.1, rng.stream, old(rng.cursor));
            var e := Play(State(c.grid, c.playerLoc, Vitals.Start()), c.exitLoc, moves, rng.stream, c.next, fuel);
            exit == c.exitLoc && Snapshot(d, player) == e.state && rng.cursor == e.cursor && turns == e.turns
    ensures won <==> player.Position() == exit
    ensures turns <= |moves|
    ensures Playing(Snapshot(d, player), exit)
    ensures won || !player.isAlive || turns == |moves|
  {
    var size := ClampDimensions(width, height);
    var start;
    d, start, exit := CreateDungeon(size.0, size.1, rng);
    GenerateShape(size.0, size.1, rng.stream, old(rng.cursor));
    player, won, turns := Traversal(d, start, exit, moves, rng, fuel);
  }
}

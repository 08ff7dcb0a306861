/** combat: rounds against a pack of enemies until none is left or the
    player is dead. In a round the player kills one enemy on a 30% check;
    then each enemy still standing lands a blow on its own 10% check. */
module Combat {
  import opened Random
  import opened Players

  /** The player's 30% check: `rand() % 100 < 30`. */
  predicate PlayerLands(draw: Draw) {
    draw % 100 < 30
  }

  /** An enemy's 10% check: `rand() % 100 < 10`. */
  predicate EnemyLands(draw: Draw) {
    draw % 100 < 10
  }

  /** The result of the enemies' attacks in one round. */
  datatype Blows = Blows(vitals: Vitals, hits: nat, cursor: nat)

  /** The attacks of n enemies, starting at draw `at`: each enemy takes one
      draw for its check, and a blow that lands takes one more draw (the
      get-hit line) and costs one lose_health. */
  function Attacks(v: Vitals, n: nat, s: nat -> Draw, at: nat): Blows
    decreases n
  {
    if n == 0 then Blows(v, 0, at)
    else if EnemyLands(s(at)) then
      var b := Attacks(v.LoseHealth(), n - 1, s, at + 2);
      Blows(b.vitals, b.hits + 1, b.cursor)
    else
      Attacks(v, n - 1, s, at + 1)
  }

  /** n enemies land at most n blows; the vitals are those of as many
      lose_health calls; each enemy takes one draw and each blow one more. */
  lemma {:induction false} AttacksCount(v: Vitals, n: nat, s: nat -> Draw, at: nat)
    ensures var r := Attacks(v, n, s, at);
            && r.hits <= n
            && r.vitals == LoseHealthTimes(v, r.hits)
            && r.cursor == at + n + r.hits
    decreases n
  {
    if n > 0 {
      if EnemyLands(s(at)) {
        AttacksCount(v.LoseHealth(), n - 1, s, at + 2);
      } else {
        AttacksCount(v, n - 1, s, at + 1);
      }
    }
  }

  /** The state of a fight after some rounds. */
  datatype Skirmish = Skirmish(vitals: Vitals, enemies: nat, cursor: nat)

  /** One round: the player's check (a kill takes one more draw, the hit
      line), then the attacks of the enemies left after it. At most one enemy
      falls, health never rises, and it drops by at most one per enemy left. */
  function Round(v: Vitals, enemies: nat, s: nat -> Draw, at: nat): (r: Skirmish)
    requires enemies > 0
    ensures r.enemies == enemies || r.enemies == enemies - 1
    ensures r.vitals.food == v.food
    ensures r.vitals.health <= v.health
    ensures v.health >= 0 ==> r.vitals.health >= v.health - r.enemies
    ensures r.vitals.alive ==> v.alive
    ensures v.Valid() ==> r.vitals.Valid()
    ensures r.cursor > at
  {
    var e := if PlayerLands(s(at)) then enemies - 1 else enemies;
    var b := Attacks(v, e, s, if PlayerLands(s(at)) then at + 2 else at + 1);
    AttacksCount(v, e, s, if PlayerLands(s(at)) then at + 2 else at + 1);
    Skirmish(b.vitals, e, b.cursor)
  }

  /** The end of a fight: `fuel` is the number of rounds still allowed. */
  datatype Battle = Battle(vitals: Vitals, enemies: nat, cursor: nat, fuel: nat)

  /** `while (enemies && player.is_alive)` rounds, at most `fuel` of them. */
  function Fight(v: Vitals, enemies: nat, s: nat -> Draw, at: nat, fuel: nat): Battle
    decreases fuel
  {
    if enemies == 0 || !v.alive || fuel == 0 then Battle(v, enemies, at, fuel)
    else
      var r := Round(v, enemies, s, at);
      Fight(r.vitals, r.enemies, s, r.cursor, fuel - 1)
  }

  /** The fight ends with no enemy left, a dead player or the fuel spent;
      enemies never increase; food is untouched, health never rises and the
      player is never revived. */
  lemma {:induction false} FightBounds(v: Vitals, enemies: nat, s: nat -> Draw, at: nat, fuel: nat)
    ensures var r := Fight(v, enemies, s, at, fuel);
            && (r.enemies == 0 || !r.vitals.alive || r.fuel == 0)
            && r.enemies <= enemies && r.fuel <= fuel && r.cursor >= at
            && r.vitals.food == v.food
            && r.vitals.health <= v.health
            && (r.vitals.alive ==> v.alive)
            && (v.Valid() ==> r.vitals.Valid())
    decreases fuel
  {
    if enemies > 0 && v.alive && fuel > 0 {
      var r := Round(v, enemies, s, at);
      FightBounds(r.vitals, r.enemies, s, r.cursor, fuel - 1);
    }
  }

  /** One round of a fight that goes on. */
  lemma FightStep(v: Vitals, enemies: nat, s: nat -> Draw, at: nat, fuel: nat)
    requires enemies > 0 && v.alive && fuel > 0
    ensures var r := Round(v, enemies, s, at);
            Fight(v, enemies, s, at, fuel) == Fight(r.vitals, r.enemies, s, r.cursor, fuel - 1)
  {
  }

  /** When no enemy check can land, a living player takes no damage. */
  lemma {:induction false} AttacksMiss(v: Vitals, n: nat, s: nat -> Draw, at: nat)
    requires forall i: nat :: !EnemyLands(s(i))
    ensures Attacks(v, n, s, at) == Blows(v, 0, at + n)
    decreases n
  {
    if n > 0 {
      assert !EnemyLands(s(at));
      AttacksMiss(v, n - 1, s, at + 1);
    }
  }

  /** When every draw passes the player's check and fails the enemies', each
      round kills one enemy and the player is never hurt: a pack of n is gone
      after exactly n rounds, health unchanged. */
  lemma {:induction false} UnansweredBlows(v: Vitals, enemies: nat, s: nat -> Draw, at: nat, fuel: nat)
    requires forall i: nat :: PlayerLands(s(i)) && !EnemyLands(s(i))
    requires v.alive && fuel >= enemies
    ensures var r := Fight(v, enemies, s, at, fuel);
            r.enemies == 0 && r.vitals == v && r.fuel == fuel - enemies
    decreases enemies
  {
    if enemies > 0 {
      assert PlayerLands(s(at));
      AttacksMiss(v, enemies - 1, s, at + 2);
      assert Round(v, enemies, s, at) == Skirmish(v, enemies - 1, at + 2 + (enemies - 1));
      FightStep(v, enemies, s, at, fuel);
      UnansweredBlows(v, enemies - 1, s, at + 2 + (enemies - 1), fuel - 1);
    }
  }

  /** The `for` loop of a round: each of the n enemies left tries its check. */
  method EnemiesAttack(player: Player, n: nat, rng: Rng)
    modifies player, rng
    ensures var b := Attacks(old(player.Status()), n, rng.stream, old(rng.cursor));
            player.Status() == b.vitals && rng.cursor == b.cursor
    ensures player.Position() == old(player.Position())
  {
    ghost var s := rng.stream;
    var i := 0;
    while i < n
      invariant 0 <= i <= n
      invariant Attacks(old(player.Status()), n, s, old(rng.cursor)).vitals
             == Attacks(player.Status(), n - i, s, rng.cursor).vitals
      invariant Attacks(old(player.Status()), n, s, old(rng.cursor)).cursor
             == Attacks(player.Status(), n - i, s, rng.cursor).cursor
      invariant player.Position() == old(player.Position())
    {
      var blow := rng.Next();
      if blow % 100 < 10 {
        var line := FlavourLine(rng);
        player.LoseHealth();
      }
      i := i + 1;
    }
  }

  /** The body of the combat loop: one round. Returns the enemies left. */
  method FightRound(player: Player, enemies: nat, rng: Rng) returns (remaining: nat)
    requires enemies > 0
    modifies player, rng
    ensures Skirmish(player.Status(), remaining, rng.cursor) == Round(old(player.Status()), enemies, rng.stream, old(rng.cursor))
    ensures player.Position() == old(player.Position())
  {
    remaining := enemies;
    var draw := rng.Next();
    if draw % 100 < 30 {
      var line := FlavourLine(rng);
      remaining := remaining - 1;
    }
    EnemiesAttack(player, remaining, rng);
  }

  /** combat(player, enemies), with the rounds bounded by fuel. Returns the
      number of enemies left. */
  method CombatLoop(player: Player, enemies: nat, rng: Rng, fuel: nat) returns (remaining: nat)
    modifies player, rng
    ensures var r := Fight(old(player.Status()), enemies, rng.stream, old(rng.cursor), fuel);
            player.Status() == r.vitals && remaining == r.enemies && rng.cursor == r.cursor
    ensures player.Position() == old(player.Position())
  {
    ghost var s := rng.stream;
    remaining := enemies;
    var rounds := fuel;
    while remaining > 0 && player.isAlive && rounds > 0
      invariant Fight(old(player.Status()), enemies, s, old(rng.cursor), fuel)
             == Fight(player.Status(), remaining, s, rng.cursor, rounds)
      invariant player.Position() == old(player.Position())
      decreases rounds
    {
      remaining := FightRound(player, remaining, rng);
      rounds := rounds - 1;
    }
  }
}

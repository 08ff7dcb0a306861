/** The player: a position, food and health counters and an alive flag.
    `Vitals` is the value of the three vital fields and carries the floor, cap
    and death rules; the `Player` class holds the fields the game updates in
    place and routes every update through those rules. */
module Players {
  import opened Grids

  const START_FOOD: int := 64
  const MAX_HEALTH: int := 10

  datatype Vitals = Vitals(food: int, health: int, alive: bool) {

    /** Vitals of a new player. */
    static function Start(): (v: Vitals)
      ensures v.Valid() && v.alive
    {
      Vitals(START_FOOD, MAX_HEALTH, true)
    }

    /** What holds of every player's vitals: neither counter is negative,
        health is at most MAX_HEALTH, and a living player has food and
        health left. */
    predicate Valid() {
      0 <= food && 0 <= health <= MAX_HEALTH && (alive ==> food > 0 && health > 0)
    }

    /** lose_food: one unit of food goes if there is any; the player dies
        once food is 0. */
    function LoseFood(): (r: Vitals)
      ensures food >= 0 ==> r.food >= 0
      ensures food > 0 ==> r.food == food - 1
      ensures food <= 0 ==> r.food == food
      ensures r.alive <==> alive && r.food != 0
      ensures r.health == health
      ensures Valid() ==> r.Valid()
    {
      var f := if food > 0 then food - 1 else food;
      Vitals(f, health, if f == 0 then false else alive)
    }

    /** lose_health: one unit of health goes if there is any; the player dies
        once health is 0. */
    function LoseHealth(): (r: Vitals)
      ensures health >= 0 ==> r.health >= 0
      ensures health > 0 ==> r.health == health - 1
      ensures health <= 0 ==> r.health == health
      ensures r.alive <==> alive && r.health != 0
      ensures r.food == food
      ensures Valid() ==> r.Valid()
    {
      var h := if health > 0 then health - 1 else health;
      Vitals(food, h, if h == 0 then false else alive)
    }

    /** gain_health: one unit of health is added unless health is already at
        MAX_HEALTH; the alive flag is never touched. */
    function GainHealth(): (r: Vitals)
      ensures health < MAX_HEALTH ==> r.health == health + 1
      ensures health >= MAX_HEALTH ==> r.health == health
      ensures health <= MAX_HEALTH ==> r.health <= MAX_HEALTH
      ensures r.alive == alive && r.food == food
      ensures Valid() ==> r.Valid()
    {
      Vitals(food, if health < MAX_HEALTH then health + 1 else health, alive)
    }

    /** Food found on the floor is added as is, without any cap. */
    function AddFood(amount: int): (r: Vitals)
      ensures r.food - food == amount
      ensures r.health == health && r.alive == alive
      ensures Valid() && amount >= 0 ==> r.Valid()
    {
      Vitals(food + amount, health, alive)
    }
  }

  /** n calls of lose_health in a row. */
  function LoseHealthTimes(v: Vitals, n: nat): (r: Vitals)
    ensures r.food == v.food
    ensures v.health >= 0 ==> r.health == if v.health >= n then v.health - n else 0
    ensures r.health <= v.health
    ensures r.alive ==> v.alive
    ensures v.Valid() ==> r.Valid()
    decreases n
  {
    if n == 0 then v else LoseHealthTimes(v.LoseHealth(), n - 1)
  }

  class Player {
    var x: int
    var y: int
    var food: int
    var health: int
    var isAlive: bool

    function Position(): Point
      reads this
    {
      Point(x, y)
    }

    function Status(): Vitals
      reads this
    {
      Vitals(food, health, isAlive)
    }

    /** Player(location): a new player at location with food 64, health 10,
        alive. */
    constructor (location: Point)
      ensures Position() == location
      ensures Status() == Vitals.Start()
    {
      x, y := location.x, location.y;
      food, health, isAlive := START_FOOD, MAX_HEALTH, true;
    }

    method LoseFood()
      modifies this
      ensures Status() == old(Status()).LoseFood()
      ensures Position() == old(Position())
    {
      food := food - (if food > 0 then 1 else 0);
      isAlive := if food == 0 then false else isAlive;
    }

    method LoseHealth()
      modifies this
      ensures Status() == old(Status()).LoseHealth()
      ensures Position() == old(Position())
    {
      health := health - (if health > 0 then 1 else 0);
      isAlive := if health == 0 then false else isAlive;
    }

    method GainHealth()
      modifies this
      ensures Status() == old(Status()).GainHealth()
      ensures Position() == old(Position())
    {
      health := health + (if health < MAX_HEALTH then 1 else 0);
    }

    /** is_at: the player stands at location. */
    function IsAt(location: Point): (r: bool)
      reads this
      ensures r <==> Position() == location
    {
      x == location.x && y == location.y
    }
  }
}

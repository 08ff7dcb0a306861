/** The process-wide generator behind rand(), made explicit: a fixed stream of
    draws and a cursor that every call advances by one. Seeding from the clock
    is not modelled; a stream stands for whatever the seed produced. */
module Random {

  /** The largest value rand() returns (glibc's value). */
  const RAND_MAX: int := 2147483647

  /** One value of rand(). */
  type Draw = r: int | 0 <= r <= RAND_MAX

  class Rng {
    /** stream(i) is the value of the i-th call to rand(). */
    const stream: nat -> Draw
    /** How many draws have been taken. */
    var cursor: nat

    constructor (stream: nat -> Draw)
      ensures this.stream == stream && cursor == 0
    {
      this.stream := stream;
      cursor := 0;
    }

    /** rand(): the next draw of the stream. */
    method Next() returns (r: Draw)
      modifies this
      ensures r == stream(old(cursor))
      ensures cursor == old(cursor) + 1
    {
      r := stream(cursor);
      cursor := cursor + 1;
    }
  }

  /** The choice of one of the three lines shown by the flavour-text helpers
      (trap, food, hit and get-hit statements): `rand() % 3`. The text itself
      is not modelled; the draw it consumes is. */
  method FlavourLine(rng: Rng) returns (line: int)
    modifies rng
    ensures 0 <= line < 3
    ensures line == rng.stream(old(rng.cursor)) % 3
    ensures rng.cursor == old(rng.cursor) + 1
  {
    var r := rng.Next();
    line := r % 3;
  }

  /** The placement trial `rand()/float(RAND_MAX) < 1.0/n` read over exact
      numbers: draw/RAND_MAX < 1/n, that is draw*n < RAND_MAX. */
  predicate TrialSucceeds(draw: Draw, n: int) {
    draw * n < RAND_MAX
  }

  /** Against n vacant cells the winning draws are exactly 0 ..
      (RAND_MAX-1)/n, the lowest share 1/n of the draws (rounded down);
      with a single vacant cell every draw but RAND_MAX itself wins. */
  lemma TrialThreshold(draw: Draw, n: int)
    requires n > 0
    ensures TrialSucceeds(draw, n) <==> draw <= (RAND_MAX - 1) / n
    ensures n == 1 ==> (TrialSucceeds(draw, n) <==> draw < RAND_MAX)
  {
    ProductBelow(draw, n, RAND_MAX - 1);
  }

  /** d*n <= m exactly when d <= m/n, for d, m >= 0 and n > 0. */
  lemma ProductBelow(d: int, n: int, m: int)
    requires d >= 0 && n > 0 && m >= 0
    ensures d * n <= m <==> d <= m / n
  {
    var q := m / n;
    assert m == q * n + m % n;
    if d <= q {
      MulMonotone(d, q, n);
    } else {
      MulMonotone(q + 1, d, n);
      assert (q + 1) * n == q * n + n;
    }
  }

  /** a*n <= b*n for a <= b and n >= 0. */
  lemma MulMonotone(a: int, b: int, n: int)
    requires a <= b && n >= 0
    ensures a * n <= b * n
  {
    assert b * n - a * n == (b - a) * n;
  }
}

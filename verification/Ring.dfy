/** The identifier circle of the Chord ring: clockwise distance and the interval test. */
module Ring {

  /** Number of bits of a ring identifier. */
  const BITS: nat := 160

  /** Size of the identifier circle, 2^160. */
  const RING: nat := 0x1_0000_0000_0000_0000_0000_0000_0000_0000_0000_0000

  type Id = x: int | 0 <= x < RING

  /** Clockwise distance from a to b: subtraction modulo the size of the circle. */
  function Dist(a: Id, b: Id): (d: Id)
    ensures d == (b - a) % RING
    ensures d == 0 <==> a == b
  {
    if a <= b then b - a else b - a + RING
  }

  /** Clockwise length of a pointer from a to b; a pointer to oneself goes all the way round. */
  function Hop(a: Id, b: Id): (d: int)
    ensures 0 < d <= RING
    ensures d == RING <==> a == b
  {
    if a == b then RING else Dist(a, b)
  }

  /** The interval test on linear identifiers, with its four wrap-around cases.
      Its contract is the circular reading: closed arcs include both ends. */
  function IsBetween(id: Id, from: Id, to: Id, inclusive: bool): (r: bool)
    ensures from == to ==> r == inclusive
    ensures from != to && inclusive ==> (r <==> Dist(from, id) <= Dist(from, to))
    ensures from != to && !inclusive ==> (r <==> 0 < Dist(from, id) < Dist(from, to))
  {
    if from == to then inclusive
    else if from < to then
      if inclusive then id >= from && id <= to else id > from && id < to
    else
      if inclusive then id >= from || id <= to else id > from || id < to
  }

  /** A point on the arc from a to c splits its length. */
  lemma DistSplit(a: Id, b: Id, c: Id)
    requires Dist(a, b) <= Dist(a, c)
    ensures Dist(a, c) == Dist(a, b) + Dist(b, c)
  {
  }
}

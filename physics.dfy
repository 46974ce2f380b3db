/**
 * Grid primitives of the earliest revision: positions and their arithmetic,
 * the overridden equality operators, the flat tile vector indexed with row
 * stride Y, and the velocity step that moves a position only onto Ground.
 */
module Physics {
  import opened Wrappers

  /** A grid coordinate. The source stores i32; the model uses unbounded ints. */
  datatype Position = Position(x: int, y: int)

  datatype Velocity = Velocity(x: int, y: int)

  /** The payload-free tile of this revision. */
  datatype BareTile = Ground | Wall

  /** `Map<X, Y>`: X * Y tiles in one vector. */
  datatype FlatMap = FlatMap(sizeX: nat, sizeY: nat, values: seq<BareTile>)

  /** The number of distinct `usize` values. */
  const UsizeModulus: int := 0x1_0000_0000_0000_0000

  // ---------------------------------------------------------------------------
  // Equality as the source overrides it

  /** `eq`: both coordinates agree. */
  function PosEq(a: Position, b: Position): (r: bool)
    ensures r <==> a == b
  {
    a.x == b.x && a.y == b.y
  }

  /** `ne`: BOTH coordinates differ (not the negation of `eq`). */
  function PosNe(a: Position, b: Position): (r: bool)
    ensures r ==> !PosEq(a, b)
    ensures r <==> a.x != b.x && a.y != b.y
  {
    a.x != b.x && a.y != b.y
  }

  /** Two positions that are neither `==` nor `!=` each other. */
  lemma NeIsNotNegationOfEq()
    ensures !PosEq(Position(1, 2), Position(1, 3)) && !PosNe(Position(1, 2), Position(1, 3))
  {
  }

  /** `ne` misses every change that keeps one coordinate. */
  lemma NeMissesSharedCoordinate(a: Position, b: Position)
    requires a != b
    requires a.x == b.x || a.y == b.y
    ensures !PosNe(a, b) && !PosEq(a, b)
  {
  }

  // ---------------------------------------------------------------------------
  // Arithmetic

  function Add(p: Position, q: Position): (r: Position)
    ensures r.x - q.x == p.x && r.y - q.y == p.y
  {
    Position(p.x + q.x, p.y + q.y)
  }

  function Sub(p: Position, q: Position): (r: Position)
    ensures r.x + q.x == p.x && r.y + q.y == p.y
  {
    Position(p.x - q.x, p.y - q.y)
  }

  function Mul(p: Position, q: Position): Position
  {
    Position(p.x * q.x, p.y * q.y)
  }

  function AddVelocity(p: Position, v: Velocity): (r: Position)
    ensures Sub(r, Position(v.x, v.y)) == p
  {
    Position(p.x + v.x, p.y + v.y)
  }

  /** Adding then subtracting the same offset returns the start. */
  lemma AddSubRoundTrip(p: Position, q: Position)
    ensures Sub(Add(p, q), q) == p && Add(Sub(p, q), q) == p
  {
  }

  /**
   * `*` is commutative, has (1, 1) as its unit, sends everything to the
   * origin with (0, 0), and distributes over `+`.
   */
  lemma {:induction false} MulLaws(p: Position, q: Position, s: Position)
    ensures Mul(p, q) == Mul(q, p)
    ensures Mul(p, Position(1, 1)) == p
    ensures Mul(p, Position(0, 0)) == Position(0, 0)
    ensures Mul(Add(p, q), s) == Add(Mul(p, s), Mul(q, s))
  {
    assert (p.x + q.x) * s.x == p.x * s.x + q.x * s.x;
    assert (p.y + q.y) * s.y == p.y * s.y + q.y * s.y;
  }

  /** Addition is commutative and associative componentwise. */
  lemma AddCommutesAndAssociates(p: Position, q: Position, s: Position)
    ensures Add(p, q) == Add(q, p)
    ensures Add(Add(p, q), s) == Add(p, Add(q, s))
  {
  }

  /** Squared Euclidean distance `dx*dx + dy*dy` (all three revisions). */
  function Distance(from: Position, to: Position): (d: nat)
    ensures d == 0 <==> from == to
  {
    var dx := to.x - from.x;
    var dy := to.y - from.y;
    SquareZero(dx);
    SquareZero(dy);
    dx * dx + dy * dy
  }

  /** The heuristic does not depend on the direction of travel. */
  lemma DistanceSymmetric(p: Position, q: Position)
    ensures Distance(p, q) == Distance(q, p)
  {
    assert (q.x - p.x) * (q.x - p.x) == (p.x - q.x) * (p.x - q.x);
    assert (q.y - p.y) * (q.y - p.y) == (p.y - q.y) * (p.y - q.y);
  }

  lemma SquareZero(n: int)
    ensures n * n >= 0
    ensures n * n == 0 <==> n == 0
  {
    if n < 0 {
      assert n * n == (-n) * (-n);
    }
  }

  /** `a * b` is at least `b` once `a` is positive. */
  lemma {:induction false} MulAtLeast(a: nat, b: nat)
    requires a >= 1
    ensures a * b >= b
  {
    if a > 1 {
      MulAtLeast(a - 1, b);
      assert a * b == (a - 1) * b + b;
    }
  }

  /** The four cardinal cells in the fixed order North, East, South, West. */
  function Cardinals(p: Position): (r: seq<Position>)
    ensures |r| == 4
    ensures forall i :: 0 <= i < 4 ==> Distance(p, r[i]) == 1
    ensures forall i, j :: 0 <= i < j < 4 ==> r[i] != r[j]
  {
    [Position(p.x, p.y + 1), Position(p.x + 1, p.y), Position(p.x, p.y - 1), Position(p.x - 1, p.y)]
  }

  // ---------------------------------------------------------------------------
  // The flat map

  /** `i32 as usize`: a negative value wraps to the top of the usize range. */
  function AsUsize(v: int): (u: nat)
    requires -0x8000_0000 <= v
    ensures v >= 0 ==> u == v
    ensures v < 0 ==> u >= UsizeModulus - 0x8000_0000 && u - UsizeModulus == v
  {
    if v >= 0 then v else UsizeModulus + v
  }

  /**
   * A map whose vector holds X * Y tiles; a `Vec` of one-byte tiles holds at
   * most `isize::MAX` of them.
   */
  predicate Valid(m: FlatMap)
  {
    |m.values| == m.sizeX * m.sizeY < 0x8000_0000_0000_0000
  }

  /** `Map::new`: X * Y Ground tiles. */
  function NewMap(sizeX: nat, sizeY: nat): (m: FlatMap)
    ensures m.sizeX == sizeX && m.sizeY == sizeY
    ensures |m.values| == sizeX * sizeY
    ensures forall i :: 0 <= i < |m.values| ==> m.values[i] == Ground
  {
    FlatMap(sizeX, sizeY, seq(sizeX * sizeY, _ => Ground))
  }

  /**
   * The flat index `x + Y * y` in `usize` arithmetic as a release build
   * evaluates it: the product and the sum wrap around the usize range.
   */
  function FlatIndex(m: FlatMap, x: nat, y: nat): (i: nat)
    ensures i < UsizeModulus
  {
    (x + (m.sizeY * y) % UsizeModulus) % UsizeModulus
  }

  /** Without overflow, the wrapped index is the plain `x + Y * y`. */
  lemma FlatIndexNoOverflow(m: FlatMap, x: nat, y: nat)
    requires x + m.sizeY * y < UsizeModulus
    ensures FlatIndex(m, x, y) == x + m.sizeY * y
  {
  }

  /** `get(x, y)`: the tile at flat index `x + Y * y`, None past the end. */
  function Get(m: FlatMap, x: nat, y: nat): (r: Option<BareTile>)
    ensures r.Some? <==> FlatIndex(m, x, y) < |m.values|
    ensures r.Some? ==> r.value == m.values[FlatIndex(m, x, y)]
    ensures x + m.sizeY * y < UsizeModulus ==>
      (r.Some? <==> x + m.sizeY * y < |m.values|) && (r.Some? ==> r.value == m.values[x + m.sizeY * y])
  {
    var index := FlatIndex(m, x, y);
    if index < |m.values| then Some(m.values[index]) else None
  }

  /** On a fresh map every lookup inside the vector yields Ground. */
  lemma NewMapIsGround(sizeX: nat, sizeY: nat, x: nat, y: nat)
    ensures Get(NewMap(sizeX, sizeY), x, y) ==
      (if FlatIndex(NewMap(sizeX, sizeY), x, y) < sizeX * sizeY then Some(Ground) else None)
  {
  }

  /**
   * The row stride is Y, not the width X: on a map wider than tall the cell
   * (Y, 0) and the cell (0, 1), both inside the X-by-Y grid, share one tile.
   */
  lemma StrideAliasesWhenWide(m: FlatMap)
    requires Valid(m)
    requires m.sizeX > m.sizeY >= 2
    ensures Get(m, m.sizeY, 0).Some? && Get(m, m.sizeY, 0) == Get(m, 0, 1)
  {
    var x, y := m.sizeX, m.sizeY;
    MulAtLeast(y, x);
    assert y * x == x * y;
    assert y * 0 == 0 && y * 1 == y;
  }

  /**
   * On a map taller than wide the in-grid corner (X-1, Y-1) has no tile
   * (for maps whose height squared fits in usize, so the index cannot wrap).
   */
  lemma StrideMissesWhenTall(m: FlatMap)
    requires Valid(m)
    requires m.sizeY > m.sizeX >= 1
    requires m.sizeY * m.sizeY <= UsizeModulus
    ensures Get(m, m.sizeX - 1, m.sizeY - 1).None?
  {
    var x, y := m.sizeX, m.sizeY;
    var a, b := y - 1, y - x;
    MulAtLeast(a, b);
    // The corner's flat index exceeds the length by (Y - 1) * (Y - X) - 1.
    assert y * a == a * b + x * a by {
      assert a * y == a * b + a * x;
    }
    assert x * y == x * a + x;
    assert (x - 1) + y * a >= x * y;
    // ... and stays below Y * Y, so it does not wrap.
    assert y * a + y == y * y;
    assert (x - 1) + y * a < UsizeModulus;
  }

  /**
   * A step West from column 0 reads `get(usize::MAX, y)`: the index
   * `usize::MAX + Y * y` overflows (a debug build panics there), and a
   * release build wraps it to `Y * y - 1`, the slot just before row y.
   */
  lemma {:induction false} WestOfColumnZeroWraps(m: FlatMap, y: nat)
    requires Valid(m)
    requires 1 <= y && 1 <= m.sizeY && m.sizeY * y <= |m.values|
    ensures AsUsize(-1) + m.sizeY * y >= UsizeModulus
    ensures FlatIndex(m, AsUsize(-1), y) == m.sizeY * y - 1
    ensures Get(m, AsUsize(-1), y) == Some(m.values[m.sizeY * y - 1])
  {
    MulAtLeast(m.sizeY, y);
    var n := m.sizeY * y;
    assert n % UsizeModulus == n;
    assert AsUsize(-1) + n == UsizeModulus + (n - 1);
    assert (UsizeModulus + (n - 1)) % UsizeModulus == n - 1;
  }

  // ---------------------------------------------------------------------------
  // physics_update

  /** One entity's step: move by the velocity only when the destination is Ground. */
  function PhysicsStep(m: FlatMap, p: Position, v: Velocity): (r: Position)
    requires -0x8000_0000 <= p.x + v.x && -0x8000_0000 <= p.y + v.y
    ensures r == p || r == AddVelocity(p, v)
    ensures r == AddVelocity(p, v) <==>
      (v == Velocity(0, 0) || Get(m, AsUsize(p.x + v.x), AsUsize(p.y + v.y)) == Some(Ground))
  {
    var dest := AddVelocity(p, v);
    if Get(m, AsUsize(dest.x), AsUsize(dest.y)) == Some(Ground) then dest else p
  }

  /**
   * On an all-Ground map an entity in column 0 that steps West is moved off
   * the grid, to x = -1: the wrapped lookup finds the Ground slot before its row.
   */
  lemma {:induction false} PhysicsStepLeavesGrid(m: FlatMap, y: nat)
    requires Valid(m) && forall i :: 0 <= i < |m.values| ==> m.values[i] == Ground
    requires 1 <= y && 1 <= m.sizeY && m.sizeY * y <= |m.values|
    ensures PhysicsStep(m, Position(0, y), Velocity(-1, 0)) == Position(-1, y)
  {
    WestOfColumnZeroWraps(m, y);
  }

  /** An entity standing on Ground is still on Ground after its step. */
  lemma PhysicsStepStaysOnGround(m: FlatMap, p: Position, v: Velocity)
    requires 0 <= p.x && 0 <= p.y
    requires -0x8000_0000 <= p.x + v.x && -0x8000_0000 <= p.y + v.y
    requires Get(m, p.x, p.y) == Some(Ground)
    ensures var r := PhysicsStep(m, p, v);
      Get(m, AsUsize(r.x), AsUsize(r.y)) == Some(Ground)
  {
  }

  /**
   * `physics_update`: every entity's position is replaced by its step. The
   * source runs the entities in parallel; they are independent, so a
   * sequential loop computes the same result.
   */
  method PhysicsUpdate(m: FlatMap, positions: array<Position>, velocities: seq<Velocity>)
    requires positions.Length == |velocities|
    requires forall i :: 0 <= i < |velocities| ==>
      -0x8000_0000 <= positions[i].x + velocities[i].x && -0x8000_0000 <= positions[i].y + velocities[i].y
    modifies positions
    ensures forall i :: 0 <= i < positions.Length ==>
      positions[i] == PhysicsStep(m, old(positions[i]), velocities[i])
  {
    var i := 0;
    while i < positions.Length
      invariant 0 <= i <= positions.Length
      invariant forall k :: 0 <= k < i ==> positions[k] == PhysicsStep(m, old(positions[k]), velocities[k])
      invariant forall k :: i <= k < positions.Length ==> positions[k] == old(positions[k])
    {
      positions[i] := PhysicsStep(m, positions[i], velocities[i]);
      i := i + 1;
    }
  }
}

/** `RandomWalker` of main.cpp: an outline circle of radius 2 that takes random
    grid steps. `rand()` is replaced by a `roll` parameter (any non-negative value
    it could return); the model reduces it `% 4` or `% 8` itself, as the source does. */
module Walker {
  import opened SdlTypes
  import opened Shapes

  /** RandomWalker(x, y, color). */
  function NewRandomWalker(x: int, y: int, color: Color): (w: Shape)
    ensures w.Circle? && w.radius == 2 && !w.fill
    ensures w.x == x && w.y == y && w.color == color
  {
    NewOutlineCircle(x, y, 2, color)
  }

  /** The displacement of `t` relative to `s`. */
  function Delta(s: Shape, t: Shape): (int, int) {
    (t.x - s.x, t.y - s.y)
  }

  /** RandomWalker::step: choice rand() % 4 picks +x, -x, +y or -y. */
  function Step(w: Shape, magnitude: int, roll: nat): (v: Shape)
    ensures v.color == w.color && v.fill == w.fill && SameGeometry(w, v)
    ensures v.x == w.x || v.y == w.y
    ensures v.x - w.x in {magnitude, -magnitude, 0} && v.y - w.y in {magnitude, -magnitude, 0}
    ensures magnitude != 0 ==> (v.x == w.x) != (v.y == w.y)
  {
    var choice := roll % 4;
    if choice == 0 then Move(w, w.x + magnitude, w.y)
    else if choice == 1 then Move(w, w.x - magnitude, w.y)
    else if choice == 2 then Move(w, w.x, w.y + magnitude)
    else Move(w, w.x, w.y - magnitude)
  }

  /** RandomWalker::step8: choices 0-3 as `step`, 4-7 the diagonals, each moving
      both coordinates by the full magnitude. */
  function Step8(w: Shape, magnitude: int, roll: nat): (v: Shape)
    ensures v.color == w.color && v.fill == w.fill && SameGeometry(w, v)
    ensures v.x - w.x in {magnitude, -magnitude, 0} && v.y - w.y in {magnitude, -magnitude, 0}
    ensures magnitude != 0 ==> Delta(w, v) != (0, 0)
  {
    var choice := roll % 8;
    if choice == 0 then Move(w, w.x + magnitude, w.y)
    else if choice == 1 then Move(w, w.x - magnitude, w.y)
    else if choice == 2 then Move(w, w.x, w.y + magnitude)
    else if choice == 3 then Move(w, w.x, w.y - magnitude)
    else if choice == 4 then Move(w, w.x + magnitude, w.y + magnitude)
    else if choice == 5 then Move(w, w.x - magnitude, w.y + magnitude)
    else if choice == 6 then Move(w, w.x + magnitude, w.y - magnitude)
    else Move(w, w.x - magnitude, w.y - magnitude)
  }

  /** RandomWalker::perlinStep: its body is empty, so the walker is unchanged. */
  function PerlinStep(w: Shape): (v: Shape)
    ensures v == w
  {
    w
  }

  /** The four orthogonal moves of length m, in the order choice 0, 1, 2, 3 takes them. */
  const Orthogonal: seq<(int, int)> := [(1, 0), (-1, 0), (0, 1), (0, -1)]

  /** The four diagonal moves, in the order choice 4, 5, 6, 7 takes them. */
  const Diagonal: seq<(int, int)> := [(1, 1), (-1, 1), (1, -1), (-1, -1)]

  /** The unit direction of choice k of `step8`. */
  function Direction8(k: int): (int, int)
    requires 0 <= k < 8
  {
    if k < 4 then Orthogonal[k] else Diagonal[k - 4]
  }

  /** `step` maps choice 0 to +x, 1 to -x, 2 to +y and 3 to -y, each by the magnitude. */
  lemma StepDirections(w: Shape, m: int, roll: nat)
    ensures Delta(w, Step(w, m, roll)) == (Orthogonal[roll % 4].0 * m, Orthogonal[roll % 4].1 * m)
  {
  }

  /** `step8` moves by choice k's unit direction scaled by the magnitude: the diagonal
      moves change both coordinates by m, not by m divided by the square root of two. */
  lemma Step8Directions(w: Shape, m: int, roll: nat)
    ensures Delta(w, Step8(w, m, roll)) == (Direction8(roll % 8).0 * m, Direction8(roll % 8).1 * m)
  {
  }

  /** A roll that `step8` reduces to 0-3 is reduced by `step` to the same choice, so
      the two take the same move. */
  lemma Step8ExtendsStep(w: Shape, m: int, roll: nat)
    requires roll % 8 < 4
    ensures Step8(w, m, roll) == Step(w, m, roll)
  {
    assert roll % 4 == roll % 8 by {
      var q := roll / 8;
      assert roll == 8 * q + roll % 8;
      assert roll == 4 * (2 * q) + roll % 8;
    }
  }

  /** The eight unit directions are pairwise distinct, none is zero, and each
      component lies in {-1, 0, 1}. */
  lemma Directions8Distinct()
    ensures forall j, k :: 0 <= j < k < 8 ==> Direction8(j) != Direction8(k)
    ensures forall k :: 0 <= k < 8 ==>
      Direction8(k) != (0, 0) && -1 <= Direction8(k).0 <= 1 && -1 <= Direction8(k).1 <= 1
  {
  }

  /** Every neighbour of a grid cell, (dx, dy) in {-1, 0, 1}^2 other than (0, 0),
      is the direction of some choice of `step8`. */
  lemma Directions8Cover(dx: int, dy: int) returns (k: int)
    requires -1 <= dx <= 1 && -1 <= dy <= 1 && (dx, dy) != (0, 0)
    ensures 0 <= k < 8 && Direction8(k) == (dx, dy)
  {
    k := if dy == 0 then (if dx == 1 then 0 else 1)
         else if dx == 0 then (if dy == 1 then 2 else 3)
         else if dy == 1 then (if dx == 1 then 4 else 5)
         else (if dx == 1 then 6 else 7);
  }

  /** Scaling by a non-zero magnitude does not merge two directions. */
  lemma ScaleInjective(a: (int, int), b: (int, int), m: int)
    requires m != 0
    requires a.0 * m == b.0 * m && a.1 * m == b.1 * m
    ensures a == b
  {
    assert (a.0 - b.0) * m == 0 && (a.1 - b.1) * m == 0;
  }

  /** For a non-zero magnitude the eight outcomes of `step8` from one position are
      pairwise distinct. */
  lemma Step8OutcomesDistinct(w: Shape, m: int, j: nat, k: nat)
    requires m != 0
    requires j < 8 && k < 8 && j != k
    ensures Step8(w, m, j) != Step8(w, m, k)
  {
    Directions8Distinct();
    Step8Directions(w, m, j);
    Step8Directions(w, m, k);
    if Step8(w, m, j) == Step8(w, m, k) {
      ScaleInjective(Direction8(j), Direction8(k), m);
    }
  }

  /** A walk: `step` once per roll. */
  function Walk(w: Shape, m: int, rolls: seq<nat>): Shape
    decreases |rolls|
  {
    if |rolls| == 0 then w else Walk(Step(w, m, rolls[0]), m, rolls[1..])
  }

  function Abs(n: int): nat {
    if n < 0 then -n else n
  }

  /** The Manhattan distance between the positions of two shapes. */
  function Manhattan(a: Shape, b: Shape): nat {
    Abs(b.x - a.x) + Abs(b.y - a.y)
  }

  /** One `step` moves the walker by Manhattan distance exactly |m|. */
  lemma StepLength(w: Shape, m: int, roll: nat)
    ensures Manhattan(w, Step(w, m, roll)) == Abs(m)
  {
  }

  /** The triangle inequality for Manhattan distance; the slack it leaves is even. */
  lemma ManhattanTriangle(w: Shape, u: Shape, v: Shape)
    ensures Manhattan(w, v) <= Manhattan(w, u) + Manhattan(u, v)
    ensures (Manhattan(w, u) + Manhattan(u, v) - Manhattan(w, v)) % 2 == 0
  {
    var slackX := Abs(u.x - w.x) + Abs(v.x - u.x) - Abs(v.x - w.x);
    var slackY := Abs(u.y - w.y) + Abs(v.y - u.y) - Abs(v.y - w.y);
    assert slackX % 2 == 0 && slackY % 2 == 0;
    EvenSum(slackX, slackY);
  }

  lemma EvenSum(a: int, b: int)
    requires a % 2 == 0 && b % 2 == 0
    ensures (a + b) % 2 == 0
  {
  }

  /** After n steps the walker has kept its radius, colour and fill flag. */
  lemma {:induction false} WalkKeepsShape(w: Shape, m: int, rolls: seq<nat>)
    ensures Walk(w, m, rolls).color == w.color && Walk(w, m, rolls).fill == w.fill
    ensures SameGeometry(w, Walk(w, m, rolls))
    decreases |rolls|
  {
    if |rolls| > 0 {
      WalkKeepsShape(Step(w, m, rolls[0]), m, rolls[1..]);
    }
  }

  /** The budget arithmetic of one more step: a first step of length a, then a rest
      within (n - 1) a of even slack, give a total within n a of even slack. */
  lemma BudgetStep(n: nat, a: nat, first: nat, rest: nat, total: nat)
    requires n >= 1 && first == a
    requires rest <= (n - 1) * a && ((n - 1) * a - rest) % 2 == 0
    requires total <= first + rest && (first + rest - total) % 2 == 0
    ensures total <= n * a && (n * a - total) % 2 == 0
  {
    assert n * a == (n - 1) * a + a;
    EvenSum((n - 1) * a - rest, first + rest - total);
  }

  /** After n steps of magnitude m the walker's Manhattan distance from the start
      is at most n * |m|, of the same parity as n * |m|. */
  lemma {:induction false} WalkBounds(w: Shape, m: int, rolls: seq<nat>)
    ensures Manhattan(w, Walk(w, m, rolls)) <= |rolls| * Abs(m)
    ensures (|rolls| * Abs(m) - Manhattan(w, Walk(w, m, rolls))) % 2 == 0
    decreases |rolls|
  {
    if |rolls| > 0 {
      var u := Step(w, m, rolls[0]);
      var v := Walk(u, m, rolls[1..]);
      assert Walk(w, m, rolls) == v;
      WalkBounds(u, m, rolls[1..]);
      StepLength(w, m, rolls[0]);
      ManhattanTriangle(w, u, v);
      BudgetStep(|rolls|, Abs(m), Manhattan(w, u), Manhattan(u, v), Manhattan(w, v));
    }
  }

  /** The three walkers of main.cpp's main loop. */
  datatype Walkers = Walkers(red: Shape, grn: Shape, blu: Shape)

  /** The walkers created for a width x height window, with C's truncating `/`.
      The source names them after colours, but `walker_grn` is drawn blue and
      `walker_blu` green. The first two share the middle row, at a third and two
      thirds of the width rounded down; the third is at half the width and a
      third of the height. */
  function InitialWalkers(width: int, height: int): (ws: Walkers)
    ensures ws.red.Circle? && ws.grn.Circle? && ws.blu.Circle?
    ensures ws.red.radius == 2 && ws.grn.radius == 2 && ws.blu.radius == 2
    ensures !ws.red.fill && !ws.grn.fill && !ws.blu.fill
    ensures ws.red.color == Color(255, 0, 0, 100) && ws.grn.color == Color(0, 0, 255, 100)
    ensures ws.blu.color == Color(0, 255, 0, 100)
    ensures ws.red.y == ws.grn.y
    ensures width >= 0 ==> 3 * ws.red.x <= width < 3 * ws.red.x + 3
    ensures width >= 0 ==> 3 * ws.grn.x <= 2 * width < 3 * ws.grn.x + 3
    ensures width >= 0 ==> 2 * ws.blu.x <= width < 2 * ws.blu.x + 2
    ensures height >= 0 ==> 2 * ws.red.y <= height < 2 * ws.red.y + 2
    ensures height >= 0 ==> 3 * ws.blu.y <= height < 3 * ws.blu.y + 3
  {
    Walkers(
      NewRandomWalker(CDiv(width, 3), CDiv(height, 2), Color(255, 0, 0, 100)),
      NewRandomWalker(CDiv(2 * width, 3), CDiv(height, 2), Color(0, 0, 255, 100)),
      NewRandomWalker(CDiv(width, 2), CDiv(height, 3), Color(0, 255, 0, 100)))
  }

  /** In the 640 x 480 window the walkers start at (213, 240), (426, 240) and
      (320, 160) as radius-2 outline circles with alpha 100. */
  lemma InitialWalkersIn640x480()
    ensures var ws := InitialWalkers(640, 480);
      ws.red.x == 213 && ws.red.y == 240 && ws.grn.x == 426 && ws.grn.y == 240 &&
      ws.blu.x == 320 && ws.blu.y == 160 &&
      ws.red.Circle? && ws.grn.Circle? && ws.blu.Circle? &&
      ws.red.radius == 2 && ws.grn.radius == 2 && ws.blu.radius == 2 &&
      !ws.red.fill && !ws.grn.fill && !ws.blu.fill &&
      ws.red.color.a == 100 && ws.grn.color.a == 100 && ws.blu.color.a == 100
  {
  }

  /** One frame's update: `walker_red.step(2)`, then `walker_grn.step8(2)` and
      `walker_blu.step8(2)`, with the three rand() results in call order. */
  function WalkersFrame(ws: Walkers, roll1: nat, roll2: nat, roll3: nat): (next: Walkers)
    ensures Manhattan(ws.red, next.red) == 2
    ensures Manhattan(ws.grn, next.grn) in {2, 4} && Manhattan(ws.blu, next.blu) in {2, 4}
    ensures SameGeometry(ws.red, next.red) && SameGeometry(ws.grn, next.grn) && SameGeometry(ws.blu, next.blu)
    ensures next.red.color == ws.red.color && next.grn.color == ws.grn.color && next.blu.color == ws.blu.color
  {
    StepLength(ws.red, 2, roll1);
    Walkers(Step(ws.red, 2, roll1), Step8(ws.grn, 2, roll2), Step8(ws.blu, 2, roll3))
  }
}
